/** Looking up a name in a list of names. */
module Positions {

  /** Where the name first stands, or the length of the list when it is not there. */
  function Position(names: seq<string>, name: string): (i: nat)
    ensures i <= |names| && (i < |names| <==> name in names)
    ensures i < |names| ==> names[i] == name
  {
    if names == [] then 0 else if names[0] == name then 0 else 1 + Position(names[1..], name)
  }

  lemma {:induction false} PositionSnoc(names: seq<string>, last: string, name: string)
    ensures Position(names + [last], name) ==
            if name in names then Position(names, name) else if name == last then |names| else |names| + 1
  {
    if names != [] {
      PositionSnoc(names[1..], last, name);
      assert (names + [last])[1..] == names[1..] + [last];
    }
  }

  lemma {:induction false} EarlyPosition(names: seq<string>, i: nat, name: string)
    requires i <= |names| && name in names[..i]
    ensures Position(names, name) < i
  {
    if names[0] != name {
      assert names[..i][1..] == names[1..][..i - 1];
      EarlyPosition(names[1..], i - 1, name);
    }
  }
}
