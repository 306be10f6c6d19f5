/** The search of the accessibility tree: a bounded recursive walk that appends its hits to a shared
    list, proved against a declarative account of which nodes are found, where, and in which order.
    Objects refer to each other through handles, so the "tree" may share nodes and may have cycles. */
module TreeWalk {
  import opened Wrappers
  import opened Decimal
  import opened Substrings

  type Handle = nat

  datatype Bounds = Bounds(x: int, y: int, width: int, height: int)

  /** What the accessibility bus reports of an object.  A child slot may be empty, and an object need not
      have an extent or actions. */
  datatype Accessible = Accessible(
    role: string, name: string, description: string, bounds: Option<Bounds>, actions: Option<seq<string>>,
    children: seq<Option<Handle>>)

  type World = Handle -> Accessible

  datatype AccessibleNode = AccessibleNode(
    role: string, name: string, description: string, bounds: Bounds, actions: seq<string>,
    childrenCount: nat, path: string)

  datatype Query = ByRole(role: string) | ByName(name: string, partial: bool)

  const MAX_DEPTH: nat := 15
  const MAX_CHILDREN: nat := 100

  /** The match test; `lower` is Python's `str.lower`. */
  predicate Matches(q: Query, lower: string -> string, a: Accessible) {
    match q
    case ByRole(role) => a.role == role
    case ByName(name, partial) => if partial then Contains(lower(a.name), lower(name)) else a.name == name
  }

  function ToNode(a: Accessible, path: string): AccessibleNode {
    AccessibleNode(a.role, a.name, a.description,
                   if a.bounds.Some? then a.bounds.value else Bounds(0, 0, 0, 0),
                   if a.actions.Some? then a.actions.value else [],
                   |a.children|, path)
  }

  function Width(a: Accessible): nat {
    if |a.children| < MAX_CHILDREN then |a.children| else MAX_CHILDREN
  }

  /** What the walk of one subtree appends, with `levels` levels left to go. */
  function Walk(w: World, m: Accessible -> bool, r: Handle, path: string, levels: nat): seq<AccessibleNode>
    decreases levels, MAX_CHILDREN + 1
  {
    if levels == 0 then []
    else (if m(w(r)) then [ToNode(w(r), path)] else []) + WalkUpTo(w, m, r, path, levels, Width(w(r)))
  }

  /** What it appends through the first `i` children. */
  function WalkUpTo(w: World, m: Accessible -> bool, r: Handle, path: string, levels: nat, i: nat): seq<AccessibleNode>
    requires 0 < levels && i <= Width(w(r))
    decreases levels, i
  {
    if i == 0 then []
    else
      WalkUpTo(w, m, r, path, levels, i - 1) + WalkSlot(w, m, w(r).children[i - 1], path + "/" + Text(i - 1), levels - 1)
  }

  function WalkSlot(w: World, m: Accessible -> bool, slot: Option<Handle>, path: string, levels: nat): seq<AccessibleNode>
    decreases levels, MAX_CHILDREN + 2
  {
    if slot.None? then [] else Walk(w, m, slot.value, path, levels)
  }

  // ---------- Where the walk goes ----------

  /** A list of child indices, leading down from some object. */
  type Trail = seq<nat>

  /** The object that a trail leads to, when every index on it is one the walk looks at. */
  function Follow(w: World, r: Handle, t: Trail): Option<Handle>
    decreases |t|
  {
    if t == [] then Some(r)
    else if t[0] < Width(w(r)) && w(r).children[t[0]].Some? then Follow(w, w(r).children[t[0]].value, t[1..])
    else None
  }

  function Render(t: Trail): string {
    if t == [] then "" else "/" + Text(t[0]) + Render(t[1..])
  }

  function Prepend(i: nat, ts: seq<Trail>): (r: seq<Trail>)
    ensures |r| == |ts| && forall k | 0 <= k < |ts| :: r[k] == [i] + ts[k]
  {
    seq(|ts|, k requires 0 <= k < |ts| => [i] + ts[k])
  }

  /** The trails to the matching objects within `levels` levels, in the order of the walk. */
  function Trails(w: World, m: Accessible -> bool, r: Handle, levels: nat): seq<Trail>
    decreases levels, MAX_CHILDREN + 1
  {
    if levels == 0 then [] else (if m(w(r)) then [[]] else []) + TrailsUpTo(w, m, r, levels, Width(w(r)))
  }

  function TrailsUpTo(w: World, m: Accessible -> bool, r: Handle, levels: nat, i: nat): seq<Trail>
    requires 0 < levels && i <= Width(w(r))
    decreases levels, i
  {
    if i == 0 then []
    else TrailsUpTo(w, m, r, levels, i - 1) + Prepend(i - 1, SlotTrails(w, m, w(r).children[i - 1], levels - 1))
  }

  function SlotTrails(w: World, m: Accessible -> bool, slot: Option<Handle>, levels: nat): seq<Trail>
    decreases levels, MAX_CHILDREN + 2
  {
    if slot.None? then [] else Trails(w, m, slot.value, levels)
  }

  /** The nodes reported for trails that start from the object in a slot at the given path. */
  function NodesAt(w: World, slot: Option<Handle>, path: string, ts: seq<Trail>): seq<AccessibleNode>
    requires forall t <- ts :: FollowSlot(w, slot, t).Some?
  {
    seq(|ts|, k requires 0 <= k < |ts| => ToNode(w(FollowSlot(w, slot, ts[k]).value), path + Render(ts[k])))
  }

  function FollowSlot(w: World, slot: Option<Handle>, t: Trail): Option<Handle> {
    if slot.None? then None else Follow(w, slot.value, t)
  }

  // ---------- Membership ----------

  /** A trail is listed exactly when it leads to a matching object that is not too deep. */
  lemma {:induction false} TrailListed(w: World, m: Accessible -> bool, r: Handle, levels: nat, t: Trail)
    ensures t in Trails(w, m, r, levels) <==>
            |t| < levels && Follow(w, r, t).Some? && m(w(Follow(w, r, t).value))
    decreases levels, MAX_CHILDREN + 1
  {
    if levels != 0 {
      TrailListedUpTo(w, m, r, levels, Width(w(r)), t);
    }
  }

  lemma {:induction false} TrailListedUpTo(w: World, m: Accessible -> bool, r: Handle, levels: nat, i: nat, t: Trail)
    requires 0 < levels && i <= Width(w(r))
    ensures t in TrailsUpTo(w, m, r, levels, i) <==>
            && t != [] && t[0] < i && |t| < levels
            && Follow(w, r, t).Some? && m(w(Follow(w, r, t).value))
    decreases levels, i
  {
    if i != 0 {
      var below := SlotTrails(w, m, w(r).children[i - 1], levels - 1);
      TrailListedUpTo(w, m, r, levels, i - 1, t);
      PrependMember(i - 1, below, t);
      if t != [] && t[0] == i - 1 {
        FollowFirst(w, r, t);
        if w(r).children[i - 1].Some? {
          TrailListed(w, m, w(r).children[i - 1].value, levels - 1, t[1..]);
        }
      }
    }
  }

  lemma FollowFirst(w: World, r: Handle, t: Trail)
    requires t != [] && t[0] < Width(w(r))
    ensures Follow(w, r, t) == FollowSlot(w, w(r).children[t[0]], t[1..])
  {
  }

  lemma PrependMember(i: nat, ts: seq<Trail>, t: Trail)
    ensures t in Prepend(i, ts) <==> t != [] && t[0] == i && t[1..] in ts
  {
    if t != [] && t[0] == i && t[1..] in ts {
      var k :| 0 <= k < |ts| && ts[k] == t[1..];
      assert Prepend(i, ts)[k] == t;
    }
  }

  // ---------- Order ----------

  /** Preorder: a node before its descendants, and those of an earlier child before a later one's. */
  predicate Before(s: Trail, t: Trail) {
    t != [] && (s == [] || s[0] < t[0] || (s[0] == t[0] && Before(s[1..], t[1..])))
  }

  predicate InPreorder(ts: seq<Trail>) {
    forall i, j | 0 <= i < j < |ts| :: Before(ts[i], ts[j])
  }

  lemma {:induction false} BeforeIrreflexive(t: Trail)
    ensures !Before(t, t)
  {
    if t != [] {
      BeforeIrreflexive(t[1..]);
    }
  }

  lemma {:induction false} TrailsOrdered(w: World, m: Accessible -> bool, r: Handle, levels: nat)
    ensures InPreorder(Trails(w, m, r, levels))
    decreases levels, MAX_CHILDREN + 1
  {
    if levels != 0 {
      var below := TrailsUpTo(w, m, r, levels, Width(w(r)));
      TrailsUpToOrdered(w, m, r, levels, Width(w(r)));
      forall j | 0 <= j < |below| ensures Before([], below[j]) {
        TrailListedUpTo(w, m, r, levels, Width(w(r)), below[j]);
      }
    }
  }

  lemma {:induction false} TrailsUpToOrdered(w: World, m: Accessible -> bool, r: Handle, levels: nat, i: nat)
    requires 0 < levels && i <= Width(w(r))
    ensures InPreorder(TrailsUpTo(w, m, r, levels, i))
    decreases levels, i
  {
    if i != 0 {
      var front, below := TrailsUpTo(w, m, r, levels, i - 1), SlotTrails(w, m, w(r).children[i - 1], levels - 1);
      TrailsUpToOrdered(w, m, r, levels, i - 1);
      if w(r).children[i - 1].Some? {
        TrailsOrdered(w, m, w(r).children[i - 1].value, levels - 1);
      }
      forall k | 0 <= k < |front| ensures front[k] != [] && front[k][0] < i - 1 {
        TrailListedUpTo(w, m, r, levels, i - 1, front[k]);
      }
      JoinOrdered(front, i - 1, below);
    }
  }

  lemma JoinOrdered(front: seq<Trail>, i: nat, below: seq<Trail>)
    requires InPreorder(front) && InPreorder(below)
    requires forall k | 0 <= k < |front| :: front[k] != [] && front[k][0] < i
    ensures InPreorder(front + Prepend(i, below))
  {
  }

  // ---------- The walk reports the listed trails ----------

  lemma AllFollow(w: World, m: Accessible -> bool, slot: Option<Handle>, levels: nat)
    ensures forall t <- SlotTrails(w, m, slot, levels) :: FollowSlot(w, slot, t).Some?
  {
    forall t | t in SlotTrails(w, m, slot, levels) ensures FollowSlot(w, slot, t).Some? {
      TrailListed(w, m, slot.value, levels, t);
    }
  }

  lemma AllFollowUpTo(w: World, m: Accessible -> bool, r: Handle, levels: nat, i: nat)
    requires 0 < levels && i <= Width(w(r))
    ensures forall t <- TrailsUpTo(w, m, r, levels, i) :: FollowSlot(w, Some(r), t).Some?
  {
    forall t | t in TrailsUpTo(w, m, r, levels, i) ensures FollowSlot(w, Some(r), t).Some? {
      TrailListedUpTo(w, m, r, levels, i, t);
    }
  }

  lemma {:induction false} WalkReports(w: World, m: Accessible -> bool, slot: Option<Handle>, path: string, levels: nat)
    ensures forall t <- SlotTrails(w, m, slot, levels) :: FollowSlot(w, slot, t).Some?
    ensures WalkSlot(w, m, slot, path, levels) == NodesAt(w, slot, path, SlotTrails(w, m, slot, levels))
    decreases levels, MAX_CHILDREN + 2
  {
    AllFollow(w, m, slot, levels);
    if slot.Some? && levels != 0 {
      var r := slot.value;
      WalkReportsUpTo(w, m, r, path, levels, Width(w(r)));
      assert path + Render([]) == path;
    }
  }

  lemma {:induction false} WalkReportsUpTo(w: World, m: Accessible -> bool, r: Handle, path: string, levels: nat, i: nat)
    requires 0 < levels && i <= Width(w(r))
    ensures forall t <- TrailsUpTo(w, m, r, levels, i) :: FollowSlot(w, Some(r), t).Some?
    ensures WalkUpTo(w, m, r, path, levels, i) == NodesAt(w, Some(r), path, TrailsUpTo(w, m, r, levels, i))
    decreases levels, i
  {
    AllFollowUpTo(w, m, r, levels, i);
    if i != 0 {
      var slot := w(r).children[i - 1];
      WalkReportsUpTo(w, m, r, path, levels, i - 1);
      WalkReports(w, m, slot, path + "/" + Text(i - 1), levels - 1);
      NodesBelow(w, r, path, i - 1, SlotTrails(w, m, slot, levels - 1));
      NodesConcat(w, Some(r), path, TrailsUpTo(w, m, r, levels, i - 1),
                  Prepend(i - 1, SlotTrails(w, m, slot, levels - 1)));
    }
  }

  lemma NodesConcat(w: World, slot: Option<Handle>, path: string, ss: seq<Trail>, ts: seq<Trail>)
    requires forall t <- ss :: FollowSlot(w, slot, t).Some?
    requires forall t <- ts :: FollowSlot(w, slot, t).Some?
    ensures NodesAt(w, slot, path, ss + ts) == NodesAt(w, slot, path, ss) + NodesAt(w, slot, path, ts)
  {
  }

  lemma NodesBelow(w: World, r: Handle, path: string, i: nat, ts: seq<Trail>)
    requires i < Width(w(r)) && forall t <- ts :: FollowSlot(w, w(r).children[i], t).Some?
    ensures forall t <- Prepend(i, ts) :: FollowSlot(w, Some(r), t).Some?
    ensures NodesAt(w, Some(r), path, Prepend(i, ts)) == NodesAt(w, w(r).children[i], path + "/" + Text(i), ts)
  {
    forall k | 0 <= k < |ts|
      ensures Follow(w, r, Prepend(i, ts)[k]) == FollowSlot(w, w(r).children[i], ts[k])
      ensures path + Render(Prepend(i, ts)[k]) == path + "/" + Text(i) + Render(ts[k])
    {
      var t := Prepend(i, ts)[k];
      assert ts[k] in ts && t == [i] + ts[k] && t[1..] == ts[k];
      assert Render(t) == "/" + Text(i) + Render(ts[k]);
    }
  }

  // ---------- The whole search ----------

  /** The applications that a search enters: present ones, with the given name if one is given. */
  function Entry(w: World, desktop: seq<Option<Handle>>, appName: Option<string>, i: nat): Option<Handle>
    requires i < |desktop|
  {
    if desktop[i].Some? && (appName == None || appName == Some("") || appName == Some(w(desktop[i].value).name))
    then desktop[i]
    else None
  }

  /** What the search appends for the first `i` applications. */
  function FindUpTo(w: World, m: Accessible -> bool, desktop: seq<Option<Handle>>, appName: Option<string>, i: nat)
    : seq<AccessibleNode>
    requires i <= |desktop|
  {
    if i == 0 then []
    else
      FindUpTo(w, m, desktop, appName, i - 1)
      + WalkSlot(w, m, Entry(w, desktop, appName, i - 1), "/" + Text(i - 1), MAX_DEPTH + 1)
  }

  /** The trails of the hits, from the desktop down. */
  function HitsUpTo(w: World, m: Accessible -> bool, desktop: seq<Option<Handle>>, appName: Option<string>, i: nat)
    : seq<Trail>
    requires i <= |desktop|
  {
    if i == 0 then []
    else
      HitsUpTo(w, m, desktop, appName, i - 1)
      + Prepend(i - 1, SlotTrails(w, m, Entry(w, desktop, appName, i - 1), MAX_DEPTH + 1))
  }

  /** The object that a trail from the desktop leads to. */
  function Locate(w: World, desktop: seq<Option<Handle>>, appName: Option<string>, t: Trail): Option<Handle> {
    if t == [] || t[0] >= |desktop| then None
    else FollowSlot(w, Entry(w, desktop, appName, t[0]), t[1..])
  }

  /** A hit: a matching object at most fifteen levels below an application that the search enters. */
  predicate IsHit(w: World, m: Accessible -> bool, desktop: seq<Option<Handle>>, appName: Option<string>, t: Trail) {
    && |t| <= MAX_DEPTH + 1
    && Locate(w, desktop, appName, t).Some?
    && m(w(Locate(w, desktop, appName, t).value))
  }

  lemma {:induction false} HitListed(w: World, m: Accessible -> bool, desktop: seq<Option<Handle>>,
                                     appName: Option<string>, i: nat, t: Trail)
    requires i <= |desktop|
    ensures t in HitsUpTo(w, m, desktop, appName, i) <==> IsHit(w, m, desktop, appName, t) && t[0] < i
  {
    if i != 0 {
      var slot := Entry(w, desktop, appName, i - 1);
      HitListed(w, m, desktop, appName, i - 1, t);
      PrependMember(i - 1, SlotTrails(w, m, slot, MAX_DEPTH + 1), t);
      if t != [] && t[0] == i - 1 && slot.Some? {
        TrailListed(w, m, slot.value, MAX_DEPTH + 1, t[1..]);
      }
    }
  }

  lemma {:induction false} HitsOrdered(w: World, m: Accessible -> bool, desktop: seq<Option<Handle>>,
                                       appName: Option<string>, i: nat)
    requires i <= |desktop|
    ensures InPreorder(HitsUpTo(w, m, desktop, appName, i))
  {
    if i != 0 {
      var front, slot := HitsUpTo(w, m, desktop, appName, i - 1), Entry(w, desktop, appName, i - 1);
      HitsOrdered(w, m, desktop, appName, i - 1);
      if slot.Some? {
        TrailsOrdered(w, m, slot.value, MAX_DEPTH + 1);
      }
      forall k | 0 <= k < |front| ensures front[k] != [] && front[k][0] < i - 1 {
        HitListed(w, m, desktop, appName, i - 1, front[k]);
      }
      JoinOrdered(front, i - 1, SlotTrails(w, m, slot, MAX_DEPTH + 1));
    }
  }

  /** The node reported for a hit. */
  predicate Reports(w: World, desktop: seq<Option<Handle>>, appName: Option<string>, t: Trail, n: AccessibleNode) {
    Locate(w, desktop, appName, t).Some? && n == ToNode(w(Locate(w, desktop, appName, t).value), Render(t))
  }

  lemma {:induction false} FindReports(w: World, m: Accessible -> bool, desktop: seq<Option<Handle>>,
                                       appName: Option<string>, i: nat)
    requires i <= |desktop|
    ensures |FindUpTo(w, m, desktop, appName, i)| == |HitsUpTo(w, m, desktop, appName, i)|
    ensures forall k | 0 <= k < |HitsUpTo(w, m, desktop, appName, i)| ::
              Reports(w, desktop, appName, HitsUpTo(w, m, desktop, appName, i)[k], FindUpTo(w, m, desktop, appName, i)[k])
  {
    if i != 0 {
      FindReports(w, m, desktop, appName, i - 1);
      EntryReports(w, m, desktop, appName, i - 1);
    }
  }

  lemma EntryReports(w: World, m: Accessible -> bool, desktop: seq<Option<Handle>>, appName: Option<string>, i: nat)
    requires i < |desktop|
    ensures var ts := Prepend(i, SlotTrails(w, m, Entry(w, desktop, appName, i), MAX_DEPTH + 1));
            var ns := WalkSlot(w, m, Entry(w, desktop, appName, i), "/" + Text(i), MAX_DEPTH + 1);
            |ns| == |ts| && forall k | 0 <= k < |ts| :: Reports(w, desktop, appName, ts[k], ns[k])
  {
    var slot := Entry(w, desktop, appName, i);
    var ts := SlotTrails(w, m, slot, MAX_DEPTH + 1);
    WalkReports(w, m, slot, "/" + Text(i), MAX_DEPTH + 1);
    var ns := WalkSlot(w, m, slot, "/" + Text(i), MAX_DEPTH + 1);
    forall k | 0 <= k < |ts| ensures Reports(w, desktop, appName, Prepend(i, ts)[k], ns[k]) {
      assert ts[k] in ts;
      OneReport(w, desktop, appName, i, ts[k], ns[k]);
    }
  }

  lemma OneReport(w: World, desktop: seq<Option<Handle>>, appName: Option<string>, i: nat, t: Trail, n: AccessibleNode)
    requires i < |desktop| && FollowSlot(w, Entry(w, desktop, appName, i), t).Some?
    requires n == ToNode(w(FollowSlot(w, Entry(w, desktop, appName, i), t).value), "/" + Text(i) + Render(t))
    ensures Reports(w, desktop, appName, [i] + t, n)
  {
    assert ([i] + t)[1..] == t;
    assert Render([i] + t) == "/" + Text(i) + Render(t);
  }

  /** Texts without a slash are read off the front of a path in one way only. */
  lemma SplitOnce(x: string, r: string, y: string, s: string)
    requires AllDigits(x) && AllDigits(y) && (r == [] || r[0] == '/') && (s == [] || s[0] == '/')
    requires x + r == y + s
    ensures x == y && r == s
  {
    var z := x + r;
    assert z == y + s;
    assert forall i | 0 <= i < |x| :: z[i] == x[i];
    assert forall i | 0 <= i < |y| :: z[i] == y[i];
    assert (|x| < |z| ==> z[|x|] == '/') && (|y| < |z| ==> z[|y|] == '/');
    assert !(|x| < |y|) && !(|y| < |x|);
    assert x == z[..|x|] && y == z[..|y|] && r == z[|x|..] && s == z[|y|..];
  }

  lemma DropOne(a: string, x: string, y: string)
    requires |a| == 1
    ensures ((a + x) + y)[1..] == x + y
  {
    assert (a + x) + y == a + (x + y);
  }

  lemma RenderSplit(t: Trail)
    requires t != []
    ensures Render(t) != [] && Render(t)[1..] == Text(t[0]) + Render(t[1..])
  {
    DropOne("/", Text(t[0]), Render(t[1..]));
  }

  lemma RenderStart(t: Trail)
    ensures t == [] <==> Render(t) == []
    ensures t != [] ==> Render(t)[0] == '/'
  {
  }

  /** Different trails are written as different paths. */
  lemma {:induction false} RenderInjective(s: Trail, t: Trail)
    requires Render(s) == Render(t)
    ensures s == t
  {
    RenderStart(s);
    RenderStart(t);
    if s != [] {
      RenderSplit(s);
      RenderSplit(t);
      RenderStart(s[1..]);
      RenderStart(t[1..]);
      SplitOnce(Text(s[0]), Render(s[1..]), Text(t[0]), Render(t[1..]));
      TextInjective(s[0], t[0]);
      RenderInjective(s[1..], t[1..]);
      assert s == [s[0]] + s[1..] && t == [t[0]] + t[1..];
    }
  }

  /** The search theorem: it reports exactly the hits, each once, in preorder; every reported path
      spells the trail that leads to the reported object, and no two of them are the same. */
  lemma SearchIsEnumeration(w: World, m: Accessible -> bool, desktop: seq<Option<Handle>>, appName: Option<string>)
    ensures var hits, nodes := HitsUpTo(w, m, desktop, appName, |desktop|), FindUpTo(w, m, desktop, appName, |desktop|);
            && (forall t :: t in hits <==> IsHit(w, m, desktop, appName, t))
            && InPreorder(hits)
            && |nodes| == |hits| && (forall k | 0 <= k < |hits| :: Reports(w, desktop, appName, hits[k], nodes[k]))
            && (forall j, k | 0 <= j < k < |nodes| :: nodes[j].path != nodes[k].path)
  {
    var hits, nodes := HitsUpTo(w, m, desktop, appName, |desktop|), FindUpTo(w, m, desktop, appName, |desktop|);
    forall t ensures t in hits <==> IsHit(w, m, desktop, appName, t) {
      HitListed(w, m, desktop, appName, |desktop|, t);
    }
    HitsOrdered(w, m, desktop, appName, |desktop|);
    FindReports(w, m, desktop, appName, |desktop|);
    forall j, k | 0 <= j < k < |nodes| ensures nodes[j].path != nodes[k].path {
      assert Before(hits[j], hits[k]);
      assert Reports(w, desktop, appName, hits[j], nodes[j]) && Reports(w, desktop, appName, hits[k], nodes[k]);
      BeforeIrreflexive(hits[j]);
      if nodes[j].path == nodes[k].path {
        RenderInjective(hits[j], hits[k]);
      }
    }
  }

  // ---------- The search without the walk ----------

  /** `hs` are the objects met on the way down from `r`, each the child of the one before at the given index,
      which is below a hundred. */
  predicate Steps(w: World, r: Handle, t: Trail, hs: seq<Handle>) {
    && |hs| == |t| + 1 && hs[0] == r
    && forall k {:trigger t[k]} | 0 <= k < |t| ::
         t[k] < 100 && t[k] < |w(hs[k]).children| && w(hs[k]).children[t[k]] == Some(hs[k + 1])
  }

  ghost predicate Leads(w: World, r: Handle, t: Trail, h: Handle) {
    exists hs :: Steps(w, r, t, hs) && hs[|t|] == h
  }

  /** The trail starts at an application of the desktop that has the name asked for, if any, and leads to
      the object in at most fifteen steps. */
  ghost predicate Reaches(w: World, desktop: seq<Option<Handle>>, appName: Option<string>, t: Trail, h: Handle) {
    && 1 <= |t| <= 16 && t[0] < |desktop| && desktop[t[0]].Some?
    && (appName == None || appName == Some("") || appName == Some(w(desktop[t[0]].value).name))
    && Leads(w, desktop[t[0]].value, t[1..], h)
  }

  /** The node is the object's own description, with the trail as its path. */
  predicate Describes(w: World, h: Handle, t: Trail, n: AccessibleNode) {
    && n.role == w(h).role && n.name == w(h).name && n.description == w(h).description
    && n.childrenCount == |w(h).children| && n.path == Render(t)
    && (w(h).bounds == Some(n.bounds) || (w(h).bounds == None && n.bounds == Bounds(0, 0, 0, 0)))
    && (w(h).actions == Some(n.actions) || (w(h).actions == None && n.actions == []))
  }

  ghost predicate ReachesMatch(w: World, desktop: seq<Option<Handle>>, appName: Option<string>,
                               m: Accessible -> bool, t: Trail)
  {
    exists h :: Reaches(w, desktop, appName, t, h) && m(w(h))
  }

  ghost predicate ReachesDescribed(w: World, desktop: seq<Option<Handle>>, appName: Option<string>,
                                   t: Trail, n: AccessibleNode)
  {
    exists h :: Reaches(w, desktop, appName, t, h) && Describes(w, h, t, n)
  }

  /** The results describe exactly the objects within reach that pass the test, one for each trail, in
      preorder, under paths of their own. */
  ghost predicate IsSearch(w: World, desktop: seq<Option<Handle>>, appName: Option<string>, m: Accessible -> bool,
                           results: seq<AccessibleNode>) {
    exists hits: seq<Trail> :: FindsHits(w, desktop, appName, m, results, hits)
  }

  ghost predicate FindsHits(w: World, desktop: seq<Option<Handle>>, appName: Option<string>, m: Accessible -> bool,
                            results: seq<AccessibleNode>, hits: seq<Trail>) {
    && InPreorder(hits) && |hits| == |results|
    && (forall t :: t in hits <==> ReachesMatch(w, desktop, appName, m, t))
    && (forall k | 0 <= k < |hits| :: ReachesDescribed(w, desktop, appName, hits[k], results[k]))
    && (forall j, k | 0 <= j < k < |results| :: results[j].path != results[k].path)
  }

  lemma {:induction false} FollowLeads(w: World, r: Handle, t: Trail, h: Handle)
    requires Follow(w, r, t) == Some(h)
    ensures Leads(w, r, t, h)
    decreases |t|
  {
    if t == [] {
      assert Steps(w, r, t, [r]);
    } else {
      var next := w(r).children[t[0]].value;
      FollowLeads(w, next, t[1..], h);
      var hs :| Steps(w, next, t[1..], hs) && hs[|t[1..]|] == h;
      var all := [r] + hs;
      forall k {:trigger t[k]} | 0 <= k < |t|
        ensures t[k] < 100 && t[k] < |w(all[k]).children| && w(all[k]).children[t[k]] == Some(all[k + 1])
      {
        if k > 0 {
          assert t[1..][k - 1] == t[k];
        }
      }
      assert Steps(w, r, t, all) && all[|t|] == h;
    }
  }

  lemma {:induction false} StepsFollow(w: World, r: Handle, t: Trail, hs: seq<Handle>)
    requires Steps(w, r, t, hs)
    ensures Follow(w, r, t) == Some(hs[|t|])
    decreases |t|
  {
    if t != [] {
      assert t[0] < 100 && w(hs[0]).children[t[0]] == Some(hs[1]);
      forall k {:trigger t[1..][k]} | 0 <= k < |t[1..]|
        ensures t[1..][k] < 100 && t[1..][k] < |w(hs[1..][k]).children|
        ensures w(hs[1..][k]).children[t[1..][k]] == Some(hs[1..][k + 1])
      {
        assert t[1..][k] == t[k + 1];
      }
      StepsFollow(w, hs[1], t[1..], hs[1..]);
    }
  }

  lemma LocatedIsReached(w: World, desktop: seq<Option<Handle>>, appName: Option<string>, t: Trail, h: Handle)
    ensures Reaches(w, desktop, appName, t, h) <==> |t| <= 16 && Locate(w, desktop, appName, t) == Some(h)
  {
    if Reaches(w, desktop, appName, t, h) {
      var r := desktop[t[0]].value;
      var hs :| Steps(w, r, t[1..], hs) && hs[|t[1..]|] == h;
      StepsFollow(w, r, t[1..], hs);
    }
    if |t| <= 16 && Locate(w, desktop, appName, t) == Some(h) {
      FollowLeads(w, desktop[t[0]].value, t[1..], h);
    }
  }

  lemma HitIsReached(w: World, m: Accessible -> bool, desktop: seq<Option<Handle>>, appName: Option<string>, t: Trail)
    ensures IsHit(w, m, desktop, appName, t) <==> ReachesMatch(w, desktop, appName, m, t)
  {
    if IsHit(w, m, desktop, appName, t) {
      LocatedIsReached(w, desktop, appName, t, Locate(w, desktop, appName, t).value);
    }
    if h :| Reaches(w, desktop, appName, t, h) && m(w(h)) {
      LocatedIsReached(w, desktop, appName, t, h);
    }
  }

  lemma ReportIsDescription(w: World, desktop: seq<Option<Handle>>, appName: Option<string>, t: Trail, n: AccessibleNode)
    requires |t| <= 16 && Reports(w, desktop, appName, t, n)
    ensures ReachesDescribed(w, desktop, appName, t, n)
  {
    var h := Locate(w, desktop, appName, t).value;
    LocatedIsReached(w, desktop, appName, t, h);
    assert Describes(w, h, t, n);
  }

  /** What the search computes is such a search, for any test that agrees with its own. */
  lemma FindIsSearch(w: World, own: Accessible -> bool, m: Accessible -> bool, desktop: seq<Option<Handle>>,
                     appName: Option<string>)
    requires forall a :: own(a) == m(a)
    ensures IsSearch(w, desktop, appName, m, FindUpTo(w, own, desktop, appName, |desktop|))
  {
    var hits, nodes := HitsUpTo(w, own, desktop, appName, |desktop|), FindUpTo(w, own, desktop, appName, |desktop|);
    SearchIsEnumeration(w, own, desktop, appName);
    forall t ensures t in hits <==> ReachesMatch(w, desktop, appName, m, t) {
      HitIsReached(w, own, desktop, appName, t);
      assert ReachesMatch(w, desktop, appName, own, t) <==> ReachesMatch(w, desktop, appName, m, t);
    }
    forall k | 0 <= k < |hits| ensures ReachesDescribed(w, desktop, appName, hits[k], nodes[k]) {
      assert hits[k] in hits;
      ReportIsDescription(w, desktop, appName, hits[k], nodes[k]);
    }
    assert FindsHits(w, desktop, appName, m, nodes, hits);
  }

  /** Paths are written like this one. */
  lemma RenderExample()
    ensures Render([0, 12, 3]) == "/0/12/3"
  {
    assert Text(12) == Text(1) + "2" && Text(1) == "1";
    assert [0, 12, 3][1..] == [12, 3] && [12, 3][1..] == [3] && [3][1..] == [];
    assert Render([3]) == "/3" && Render([12, 3]) == "/12" + "/3";
  }

  lemma WalkSplit(w: World, m: Accessible -> bool, r: Handle, path: string, levels: nat, base: seq<AccessibleNode>)
    requires 0 < levels
    ensures base + Walk(w, m, r, path, levels) ==
            (if m(w(r)) then base + [ToNode(w(r), path)] else base) + WalkUpTo(w, m, r, path, levels, Width(w(r)))
  {
  }

  /** What one more child adds. */
  lemma WalkStep(w: World, m: Accessible -> bool, r: Handle, path: string, levels: nat, i: nat, base: seq<AccessibleNode>)
    requires 0 < levels && i < Width(w(r))
    ensures base + WalkUpTo(w, m, r, path, levels, i + 1) ==
            (base + WalkUpTo(w, m, r, path, levels, i)) + WalkSlot(w, m, w(r).children[i], path + "/" + Text(i), levels - 1)
  {
  }

  class NodeList {
    var items: seq<AccessibleNode>

    constructor ()
      ensures items == []
    {
      items := [];
    }
  }

  class ATSPIClient {
    const available: bool
    const world: World
    const desktop: seq<Option<Handle>>
    const lower: string -> string

    constructor (available: bool, world: World, desktop: seq<Option<Handle>>, lower: string -> string)
      ensures this.available == available && this.world == world && this.desktop == desktop && this.lower == lower
    {
      this.available, this.world, this.desktop, this.lower := available, world, desktop, lower;
    }

    function Test(q: Query): Accessible -> bool {
      (a: Accessible) => Matches(q, lower, a)
    }

    /** Appends the matching nodes of one subtree to `results`. */
    method WalkTree(obj: Handle, q: Query, results: NodeList, path: string, depth: nat)
      requires depth <= MAX_DEPTH + 1
      modifies results
      ensures results.items == old(results.items) + Walk(world, Test(q), obj, path, MAX_DEPTH + 1 - depth)
      decreases MAX_DEPTH + 1 - depth, 1
    {
      if depth > MAX_DEPTH {
        return;
      }
      WalkSplit(world, Test(q), obj, path, MAX_DEPTH + 1 - depth, results.items);
      if Matches(q, lower, world(obj)) {
        results.items := results.items + [ToNode(world(obj), path)];
      }
      WalkChildren(obj, q, results, path, depth);
    }

    method WalkChildren(obj: Handle, q: Query, results: NodeList, path: string, depth: nat)
      requires depth <= MAX_DEPTH
      modifies results
      ensures results.items ==
              old(results.items) + WalkUpTo(world, Test(q), obj, path, MAX_DEPTH + 1 - depth, Width(world(obj)))
      decreases MAX_DEPTH + 1 - depth, 0
    {
      var children := world(obj).children;
      for i := 0 to Width(world(obj))
        invariant results.items == old(results.items) + WalkUpTo(world, Test(q), obj, path, MAX_DEPTH + 1 - depth, i)
      {
        WalkStep(world, Test(q), obj, path, MAX_DEPTH + 1 - depth, i, old(results.items));
        WalkChild(children[i], q, results, path + "/" + Text(i), depth + 1);
      }
    }

    method WalkChild(child: Option<Handle>, q: Query, results: NodeList, path: string, depth: nat)
      requires depth <= MAX_DEPTH + 1
      modifies results
      ensures results.items == old(results.items) + WalkSlot(world, Test(q), child, path, MAX_DEPTH + 1 - depth)
      decreases MAX_DEPTH + 1 - depth, 2
    {
      if child.Some? {
        WalkTree(child.value, q, results, path, depth);
      }
    }

    method Find(q: Query, appName: Option<string>) returns (results: NodeList)
      ensures fresh(results)
      ensures results.items == if available then FindUpTo(world, Test(q), desktop, appName, |desktop|) else []
    {
      results := new NodeList();
      if !available {
        return;
      }
      for i := 0 to |desktop|
        invariant results.items == FindUpTo(world, Test(q), desktop, appName, i)
      {
        if Entry(world, desktop, appName, i).Some? {
          WalkTree(desktop[i].value, q, results, "/" + Text(i), 0);
        } else {
          assert FindUpTo(world, Test(q), desktop, appName, i + 1) == FindUpTo(world, Test(q), desktop, appName, i) + [];
        }
      }
    }

    method FindByRole(role: string, appName: Option<string> := None) returns (results: NodeList)
      ensures !available ==> results.items == []
      ensures available ==> IsSearch(world, desktop, appName, (a: Accessible) => a.role == role, results.items)
    {
      FindIsSearch(world, Test(ByRole(role)), (a: Accessible) => a.role == role, desktop, appName);
      results := Find(ByRole(role), appName);
    }

    method FindByName(name: string, partial: bool := true) returns (results: NodeList)
      ensures !available ==> results.items == []
      ensures available && partial ==>
                IsSearch(world, desktop, None, (a: Accessible) => exists p, s :: lower(a.name) == p + lower(name) + s,
                         results.items)
      ensures available && !partial ==> IsSearch(world, desktop, None, (a: Accessible) => a.name == name, results.items)
    {
      if partial {
        forall a: Accessible
          ensures Contains(lower(a.name), lower(name)) <==> exists p, s :: lower(a.name) == p + lower(name) + s
        {
          ContainsIff(lower(a.name), lower(name));
        }
        FindIsSearch(world, Test(ByName(name, true)),
                     (a: Accessible) => exists p, s :: lower(a.name) == p + lower(name) + s, desktop, None);
      } else {
        FindIsSearch(world, Test(ByName(name, false)), (a: Accessible) => a.name == name, desktop, None);
      }
      results := Find(ByName(name, partial), None);
    }
  }
}
