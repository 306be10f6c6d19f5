/** Sandbox policies and their templates: objects with mutable lists, copied on every request. */
module SandboxPolicies {
  import opened Positions
  import opened Wrappers

  datatype Scalar = Str(text: string) | Flag(on: bool) | Int(n: int) | Float(x: real)

  /** What a field of a policy shows. */
  datatype Value = One(scalar: Scalar) | Many(items: seq<Scalar>)

  class PyList {
    var items: seq<Scalar>

    constructor (items: seq<Scalar>)
      ensures this.items == items
    {
      this.items := items;
    }
  }

  /** What a field of a policy holds; a list is held by reference. */
  datatype Attr = Plain(scalar: Scalar) | List(list: PyList)

  function ListsOf(attrs: seq<Attr>): set<PyList> {
    set i | 0 <= i < |attrs| && attrs[i].List? :: attrs[i].list
  }

  function Shown(a: Attr): Value
    reads if a.List? then {a.list} else {}
  {
    if a.List? then Many(a.list.items) else One(a.scalar)
  }

  function Values(attrs: seq<Attr>): (vs: seq<Value>)
    reads ListsOf(attrs)
    ensures |vs| == |attrs|
    ensures forall i {:trigger vs[i]} {:trigger attrs[i]} | 0 <= i < |vs| :: vs[i] == Shown(attrs[i])
  {
    seq(|attrs|, i requires 0 <= i < |attrs| reads ListsOf(attrs) => Shown(attrs[i]))
  }

  class SandboxPolicy {
    const names: seq<string>
    var attrs: seq<Attr>

    constructor (names: seq<string>, attrs: seq<Attr>)
      ensures this.names == names && this.attrs == attrs
    {
      this.names, this.attrs := names, attrs;
    }

    /** Sets the fields that exist; the other overrides are passed over. */
    method Apply(overrides: seq<(string, Attr)>)
      requires |attrs| == |names|
      modifies this
      ensures attrs == Assigned(names, old(attrs), overrides)
    {
      for i := 0 to |overrides|
        invariant |attrs| == |names| && attrs == Assigned(names, old(attrs), overrides[..i])
      {
        AssignedSnoc(names, old(attrs), overrides[..i], overrides[i]);
        assert overrides[..i + 1] == overrides[..i] + [overrides[i]];
        var k := Position(names, overrides[i].0);
        if k < |attrs| {
          attrs := attrs[k := overrides[i].1];
        }
      }
      assert overrides[..|overrides|] == overrides;
    }
  }

  // ---------- Fields and templates ----------

  /** The fields of a policy, in the order of their declaration. */
  function FieldNames(): seq<string> {
    ["name", "fs_read_paths", "fs_write_paths", "fs_deny_paths",
     "network_allowed", "network_allow_hosts", "network_deny_hosts", "network_allow_ports", "network_max_connections",
     "process_max_pids", "process_max_memory_mb", "process_max_cpu_percent", "process_allow_sudo",
     "process_allow_ptrace", "inference_allowed", "inference_max_tokens_per_call",
     "inference_max_calls_per_minute", "inference_allowed_models", "timeout_seconds"]
  }

  function Texts(texts: seq<string>): Value {
    Many(seq(|texts|, i requires 0 <= i < |texts| => Str(texts[i])))
  }

  /** The fields of a policy, each under its own name. */
  datatype Fields = Fields(
    name: string, fsReadPaths: seq<string>, fsWritePaths: seq<string>, fsDenyPaths: seq<string>,
    networkAllowed: bool, networkAllowHosts: seq<string>, networkDenyHosts: seq<string>, networkAllowPorts: seq<int>,
    networkMaxConnections: int, processMaxPids: int, processMaxMemoryMb: int, processMaxCpuPercent: real,
    processAllowSudo: bool, processAllowPtrace: bool, inferenceAllowed: bool, inferenceMaxTokensPerCall: int,
    inferenceMaxCallsPerMinute: int, inferenceAllowedModels: seq<string>, timeoutSeconds: int)

  /** The fields as values, in the order of their names. */
  function AsValues(f: Fields): (vs: seq<Value>)
    ensures |vs| == |FieldNames()|
  {
    [One(Str(f.name)), Texts(f.fsReadPaths), Texts(f.fsWritePaths), Texts(f.fsDenyPaths),
     One(Flag(f.networkAllowed)), Texts(f.networkAllowHosts), Texts(f.networkDenyHosts),
     Numbers(f.networkAllowPorts), One(Int(f.networkMaxConnections)),
     One(Int(f.processMaxPids)), One(Int(f.processMaxMemoryMb)), One(Float(f.processMaxCpuPercent)),
     One(Flag(f.processAllowSudo)), One(Flag(f.processAllowPtrace)),
     One(Flag(f.inferenceAllowed)), One(Int(f.inferenceMaxTokensPerCall)), One(Int(f.inferenceMaxCallsPerMinute)),
     Texts(f.inferenceAllowedModels), One(Int(f.timeoutSeconds))]
  }

  function Numbers(ns: seq<int>): Value {
    Many(seq(|ns|, i requires 0 <= i < |ns| => Int(ns[i])))
  }

  function Defaults(): Fields {
    Fields("default", ["/tmp/ruflo-sandbox-*"], ["/tmp/ruflo-sandbox-*"],
           ["/etc/shadow", "/etc/passwd", "/root", "/home/*/.*ssh*", "/home/*/.*gnupg*", "/var/run/docker.sock"],
           false, [], ["169.254.169.254"], [80, 443], 10,
           64, 2048, 80.0, false, false,
           true, 8192, 60, ["*"], 300)
  }

  /** Assigns the named fields in turn; a name that is no field is passed over. */
  function Assigned<T>(names: seq<string>, fields: seq<T>, changes: seq<(string, T)>): (r: seq<T>)
    requires |fields| == |names|
    ensures |r| == |fields|
    decreases |changes|
  {
    if changes == [] then fields
    else
      var i := Position(names, changes[0].0);
      Assigned(names, if i < |fields| then fields[i := changes[0].1] else fields, changes[1..])
  }

  /** The last value given to a field, or the one it had. */
  function Latest<T>(changes: seq<(string, T)>, field: string, before: T): T {
    if changes == [] then before
    else if changes[|changes| - 1].0 == field then changes[|changes| - 1].1
    else Latest(changes[..|changes| - 1], field, before)
  }

  lemma {:induction false} LatestCons<T>(change: (string, T), changes: seq<(string, T)>, field: string, before: T)
    ensures Latest([change] + changes, field, before) ==
            Latest(changes, field, if change.0 == field then change.1 else before)
    decreases |changes|
  {
    if changes == [] {
      assert [change] + changes == [change];
    } else {
      LatestCons(change, changes[..|changes| - 1], field, before);
      assert ([change] + changes)[..|changes|] == [change] + changes[..|changes| - 1];
    }
  }

  /** Overrides reach exactly the fields they name, and the last one wins. */
  lemma {:induction false} OverridesDecide<T>(names: seq<string>, fields: seq<T>, changes: seq<(string, T)>, field: string)
    requires |fields| == |names| && field in names
    ensures var i := Position(names, field); Assigned(names, fields, changes)[i] == Latest(changes, field, fields[i])
    decreases |changes|
  {
    if changes != [] {
      var i, j := Position(names, field), Position(names, changes[0].0);
      var next := if j < |fields| then fields[j := changes[0].1] else fields;
      OverridesDecide(names, next, changes[1..], field);
      LatestCons(changes[0], changes[1..], field, fields[i]);
      assert changes == [changes[0]] + changes[1..];
    }
  }

  lemma {:induction false} LatestOfNone<T>(changes: seq<(string, T)>, field: string, before: T)
    requires forall k | 0 <= k < |changes| :: changes[k].0 != field
    ensures Latest(changes, field, before) == before
  {
    if changes != [] {
      LatestOfNone(changes[..|changes| - 1], field, before);
    }
  }

  lemma {:induction false} LatestIsLast<T>(changes: seq<(string, T)>, field: string, before: T, j: nat)
    requires j < |changes| && changes[j].0 == field && forall k | j < k < |changes| :: changes[k].0 != field
    ensures Latest(changes, field, before) == changes[j].1
  {
    if j < |changes| - 1 {
      LatestIsLast(changes[..|changes| - 1], field, before, j);
    }
  }

  /** A field that no override names keeps its value, and one that is named takes the value given last. */
  lemma OverridesInWords<T>(names: seq<string>, fields: seq<T>, changes: seq<(string, T)>, field: string, j: nat)
    requires |fields| == |names| && field in names
    ensures var i := Position(names, field);
            && ((forall k | 0 <= k < |changes| :: changes[k].0 != field) ==>
                  Assigned(names, fields, changes)[i] == fields[i])
            && (j < |changes| && changes[j].0 == field && (forall k | j < k < |changes| :: changes[k].0 != field) ==>
                  Assigned(names, fields, changes)[i] == changes[j].1)
  {
    OverridesDecide(names, fields, changes, field);
    var before := fields[Position(names, field)];
    if forall k | 0 <= k < |changes| :: changes[k].0 != field {
      LatestOfNone(changes, field, before);
    } else if j < |changes| && changes[j].0 == field && forall k | j < k < |changes| :: changes[k].0 != field {
      LatestIsLast(changes, field, before, j);
    }
  }

  lemma {:induction false} AssignedSnoc<T>(names: seq<string>, fields: seq<T>,
                                           changes: seq<(string, T)>, change: (string, T))
    requires |fields| == |names|
    ensures Assigned(names, fields, changes + [change]) == Assigned(names, Assigned(names, fields, changes), [change])
    decreases |changes|
  {
    if changes == [] {
      assert changes + [change] == [change];
    } else {
      var i := Position(names, changes[0].0);
      AssignedSnoc(names, if i < |fields| then fields[i := changes[0].1] else fields, changes[1..], change);
      assert (changes + [change])[1..] == changes[1..] + [change];
    }
  }

  function TemplateNames(): seq<string> {
    ["default", "restricted", "network_only", "offline", "coding", "browser"]
  }

  /** What a template sets; all other fields keep their defaults. */
  function TemplateFields(name: string): Fields {
    if name == "default" then
      Defaults().(name := name, networkAllowed := true, networkAllowHosts := ["*"])
    else if name == "restricted" then
      Defaults().(name := name, fsWritePaths := ["/tmp/ruflo-sandbox-*"], networkAllowed := false, processMaxPids := 16,
                  processMaxMemoryMb := 512, inferenceMaxTokensPerCall := 4096, timeoutSeconds := 120)
    else if name == "network_only" then
      Defaults().(name := name, networkAllowed := true, networkAllowHosts := ["*"], fsWritePaths := [],
                  processAllowSudo := false)
    else if name == "offline" then
      Defaults().(name := name, networkAllowed := false, inferenceAllowed := false, processMaxMemoryMb := 1024,
                  timeoutSeconds := 60)
    else if name == "coding" then
      Defaults().(name := name, networkAllowed := true,
                  networkAllowHosts := ["github.com", "pypi.org", "npmjs.com", "crates.io"],
                  networkAllowPorts := [80, 443, 22], processMaxMemoryMb := 4096, processMaxPids := 128,
                  inferenceMaxTokensPerCall := 16384, timeoutSeconds := 600)
    else
      Defaults().(name := name, networkAllowed := true, networkAllowHosts := ["*"],
                  fsWritePaths := ["/tmp/ruflo-sandbox-*", "/tmp/ruflo-downloads-*"], processMaxMemoryMb := 4096,
                  timeoutSeconds := 300)
  }

  function Builtin(name: string): (vs: seq<Value>)
    ensures |vs| == |FieldNames()|
  {
    AsValues(TemplateFields(name))
  }

  // ---------- Objects ----------

  /** No two fields share a list. */
  predicate Separate(attrs: seq<Attr>) {
    forall i, j | 0 <= i < j < |attrs| && attrs[i].List? && attrs[j].List? :: attrs[i].list != attrs[j].list
  }

  /** Fields with the given values, every list a new one. */
  method Build(values: seq<Value>) returns (attrs: seq<Attr>)
    ensures Values(attrs) == values && Separate(attrs) && fresh(ListsOf(attrs))
  {
    attrs := [];
    for i := 0 to |values|
      invariant |attrs| == i && Separate(attrs) && fresh(ListsOf(attrs))
      invariant Values(attrs) == values[..i]
    {
      var a: Attr;
      if values[i].Many? {
        var list := new PyList(values[i].items);
        a := List(list);
      } else {
        a := Plain(values[i].scalar);
      }
      ListsSnoc(attrs, a);
      attrs := attrs + [a];
    }
  }

  method CopyAttr(a: Attr) returns (b: Attr)
    ensures Shown(b) == Shown(a) && (b.List? ==> fresh(b.list))
  {
    b := a;
    if a.List? {
      var list := new PyList(a.list.items);
      b := List(list);
    }
  }

  /** The same fields again, every list copied. */
  method Copy(attrs: seq<Attr>) returns (copy: seq<Attr>)
    ensures Values(copy) == Values(attrs) && Separate(copy) && fresh(ListsOf(copy))
  {
    copy := [];
    for i := 0 to |attrs|
      invariant |copy| == i && Separate(copy) && fresh(ListsOf(copy))
      invariant Values(copy) == Values(attrs)[..i]
    {
      var a := CopyAttr(attrs[i]);
      ListsSnoc(copy, a);
      copy := copy + [a];
    }
  }

  lemma ListsSnoc(attrs: seq<Attr>, a: Attr)
    ensures ListsOf(attrs + [a]) == ListsOf(attrs) + if a.List? then {a.list} else {}
    ensures Values(attrs + [a]) == Values(attrs) + [Shown(a)]
  {
    assert attrs + [a] == (attrs + [a])[..|attrs|] + [a];
    forall list | list in ListsOf(attrs) ensures list in ListsOf(attrs + [a]) {
      var i :| 0 <= i < |attrs| && attrs[i].List? && attrs[i].list == list;
      assert (attrs + [a])[i] == attrs[i];
    }
    if a.List? {
      assert (attrs + [a])[|attrs|] == a;
    }
  }

  /** The fields of a policy, the names of the templates and what each template is defined to show. */
  datatype Catalogue = Catalogue(fields: seq<string>, names: seq<string>, define: string -> seq<Value>) {
    ghost predicate Fits() {
      names != [] && forall name | name in names :: |define(name)| == |fields|
    }

    /** What a policy made from a template shows. */
    ghost function Overridden(template: string, overrides: seq<(string, Value)>): seq<Value>
      requires Fits() && template in names
    {
      Assigned(fields, define(template), overrides)
    }
  }

  function Standard(): Catalogue {
    Catalogue(FieldNames(), TemplateNames(), Builtin)
  }

  /** What overrides show. */
  function Displayed(changes: seq<(string, Attr)>): (r: seq<(string, Value)>)
    reads ChangedLists(changes)
    ensures |r| == |changes|
  {
    seq(|changes|, i requires 0 <= i < |changes| reads ChangedLists(changes) => (changes[i].0, Shown(changes[i].1)))
  }

  function ChangedLists(changes: seq<(string, Attr)>): set<PyList> {
    set i | 0 <= i < |changes| && changes[i].1.List? :: changes[i].1.list
  }

  lemma SetField(attrs: seq<Attr>, i: nat, a: Attr)
    requires i < |attrs|
    ensures Values(attrs[i := a]) == Values(attrs)[i := Shown(a)]
    ensures ListsOf(attrs[i := a]) <= ListsOf(attrs) + if a.List? then {a.list} else {}
  {
  }

  /** Overriding a policy overrides what it shows, and brings in no list but those of the overrides. */
  lemma {:induction false} AssignedShows(names: seq<string>, attrs: seq<Attr>, changes: seq<(string, Attr)>)
    requires |attrs| == |names|
    ensures Values(Assigned(names, attrs, changes)) == Assigned(names, Values(attrs), Displayed(changes))
    ensures ListsOf(Assigned(names, attrs, changes)) <= ListsOf(attrs) + ChangedLists(changes)
    decreases |changes|
  {
    if changes != [] {
      var i, a := Position(names, changes[0].0), changes[0].1;
      var next := if i < |attrs| then attrs[i := a] else attrs;
      if i < |attrs| {
        SetField(attrs, i, a);
      }
      AssignedShows(names, next, changes[1..]);
      assert Displayed(changes)[1..] == Displayed(changes[1..]);
      assert ChangedLists(changes[1..]) <= ChangedLists(changes) by {
        forall list | list in ChangedLists(changes[1..]) ensures list in ChangedLists(changes) {
          var j :| 0 <= j < |changes[1..]| && changes[1..][j].1.List? && changes[1..][j].1.list == list;
          assert changes[j + 1] == changes[1..][j];
        }
      }
    }
  }

  class PolicyTemplate {
    const catalogue: Catalogue
    var templates: map<string, SandboxPolicy>
    /** The templates and their lists; no one else holds any of them. */
    ghost var Repr: set<object>

    constructor ()
      ensures Valid() && Repr == {} && catalogue == Standard()
    {
      catalogue, templates, Repr := Standard(), map[], {};
    }

    ghost predicate Holds(name: string)
      reads this, Repr
    {
      name in templates && templates[name] in Repr && ListsOf(templates[name].attrs) <= Repr
      && Values(templates[name].attrs) == catalogue.define(name)
    }

    /** Either nothing is set up yet, or every template shows what it was defined to show. */
    ghost predicate Valid()
      reads this, Repr
    {
      && this !in Repr && catalogue.Fits()
      && (forall name | name in templates :: name in catalogue.names)
      && (templates == map[] || forall name | name in catalogue.names :: Holds(name))
    }

    method InitTemplates()
      requires Valid()
      modifies this
      ensures Valid() && templates != map[] && fresh(Repr - old(Repr))
    {
      if templates != map[] {
        return;
      }
      Repr := {};
      var names := catalogue.names;
      for i := 0 to |names|
        invariant this !in Repr && fresh(Repr)
        invariant forall name | name in templates :: name in names[..i]
        invariant forall name | name in names[..i] :: Holds(name)
      {
        Define(names[i]);
        assert names[..i + 1] == names[..i] + [names[i]];
      }
      assert names[..|names|] == names && Holds(names[0]);
    }

    method Define(name: string)
      requires this !in Repr
      modifies this
      ensures templates.Keys == old(templates.Keys) + {name} && this !in Repr && fresh(Repr - old(Repr))
      ensures Holds(name) && forall other | old(Holds(other)) :: Holds(other)
    {
      var attrs := Build(catalogue.define(name));
      var policy := new SandboxPolicy(catalogue.fields, attrs);
      templates := templates[name := policy];
      Repr := Repr + {policy} + ListsOf(attrs);
    }

    method CopyOf(template: SandboxPolicy) returns (policy: SandboxPolicy)
      ensures fresh(policy) && fresh(ListsOf(policy.attrs)) && policy.names == catalogue.fields
      ensures Values(policy.attrs) == Values(template.attrs) && Separate(policy.attrs)
    {
      var attrs := Copy(template.attrs);
      policy := new SandboxPolicy(catalogue.fields, attrs);
    }

    /** A copy of a template, or nothing when there is no template of that name. The copy and its lists
        are new. */
    method Get(name: string) returns (r: Option<SandboxPolicy>)
      requires Valid()
      modifies this
      ensures Valid() && fresh(Repr - old(Repr))
      ensures r.Some? <==> name in catalogue.names
      ensures r.Some? ==> fresh(r.value) && fresh(ListsOf(r.value.attrs)) && r.value.names == catalogue.fields
      ensures r.Some? ==> Values(r.value.attrs) == catalogue.define(name) && Separate(r.value.attrs)
      ensures r.Some? ==> Repr !! {r.value} + ListsOf(r.value.attrs)
    {
      InitTemplates();
      if name !in templates {
        return None;
      }
      assert Holds(name);
      var policy := CopyOf(templates[name]);
      r := Some(policy);
    }
  }

  // ---------- The templates in writing ----------

  lemma DefaultWritten()
    ensures Standard().define("default") ==
            AsValues(Fields("default", ["/tmp/ruflo-sandbox-*"], ["/tmp/ruflo-sandbox-*"],
                   ["/etc/shadow", "/etc/passwd", "/root", "/home/*/.*ssh*", "/home/*/.*gnupg*", "/var/run/docker.sock"],
                   true, ["*"], ["169.254.169.254"], [80, 443], 10,
                   64, 2048, 80.0, false, false, true, 8192, 60, ["*"], 300))
  {
  }

  lemma RestrictedWritten()
    ensures Standard().define("restricted") ==
            AsValues(Fields("restricted", ["/tmp/ruflo-sandbox-*"], ["/tmp/ruflo-sandbox-*"],
                   ["/etc/shadow", "/etc/passwd", "/root", "/home/*/.*ssh*", "/home/*/.*gnupg*", "/var/run/docker.sock"],
                   false, [], ["169.254.169.254"], [80, 443], 10,
                   16, 512, 80.0, false, false, true, 4096, 60, ["*"], 120))
  {
  }

  lemma NetworkOnlyWritten()
    ensures Standard().define("network_only") ==
            AsValues(Fields("network_only", ["/tmp/ruflo-sandbox-*"], [],
                   ["/etc/shadow", "/etc/passwd", "/root", "/home/*/.*ssh*", "/home/*/.*gnupg*", "/var/run/docker.sock"],
                   true, ["*"], ["169.254.169.254"], [80, 443], 10,
                   64, 2048, 80.0, false, false, true, 8192, 60, ["*"], 300))
  {
  }

  lemma OfflineWritten()
    ensures Standard().define("offline") ==
            AsValues(Fields("offline", ["/tmp/ruflo-sandbox-*"], ["/tmp/ruflo-sandbox-*"],
                   ["/etc/shadow", "/etc/passwd", "/root", "/home/*/.*ssh*", "/home/*/.*gnupg*", "/var/run/docker.sock"],
                   false, [], ["169.254.169.254"], [80, 443], 10,
                   64, 1024, 80.0, false, false, false, 8192, 60, ["*"], 60))
  {
  }

  lemma CodingWritten()
    ensures Standard().define("coding") ==
            AsValues(Fields("coding", ["/tmp/ruflo-sandbox-*"], ["/tmp/ruflo-sandbox-*"],
                   ["/etc/shadow", "/etc/passwd", "/root", "/home/*/.*ssh*", "/home/*/.*gnupg*", "/var/run/docker.sock"],
                   true, ["github.com", "pypi.org", "npmjs.com", "crates.io"], ["169.254.169.254"], [80, 443, 22], 10,
                   128, 4096, 80.0, false, false, true, 16384, 60, ["*"], 600))
  {
  }

  lemma BrowserWritten()
    ensures Standard().define("browser") ==
            AsValues(Fields("browser", ["/tmp/ruflo-sandbox-*"], ["/tmp/ruflo-sandbox-*", "/tmp/ruflo-downloads-*"],
                   ["/etc/shadow", "/etc/passwd", "/root", "/home/*/.*ssh*", "/home/*/.*gnupg*", "/var/run/docker.sock"],
                   true, ["*"], ["169.254.169.254"], [80, 443], 10,
                   64, 4096, 80.0, false, false, true, 8192, 60, ["*"], 300))
  {
  }

  /** Field names differ in length or in one character. */
  function FieldKey(field: string): nat {
    match |field|
    case 4 => 0
    case 13 => if field[3] == 'r' then 1 else 3
    case 14 => 2
    case 15 => if field[0] == 'n' then 4 else 18
    case 19 => if field[14] == 'h' then 5 else 7
    case 18 => if field[0] == 'n' then 6 else 12
    case 23 => if field[0] == 'n' then 8 else 11
    case 16 => 9
    case 21 => 10
    case 20 => 13
    case 17 => 14
    case 29 => 15
    case 30 => 16
    case _ => 17
  }

  lemma FieldKeys1(k: nat)
    requires k < 10
    ensures FieldKey(FieldNames()[k]) == k
  {
  }

  lemma FieldKeys2(k: nat)
    requires 10 <= k < |FieldNames()|
    ensures FieldKey(FieldNames()[k]) == k
  {
  }

  lemma PositionIs(k: nat, field: string)
    requires k < |FieldNames()| && field == FieldNames()[k]
    ensures Position(FieldNames(), field) == k
  {
    var i := Position(FieldNames(), field);
    if i < 10 {
      FieldKeys1(i);
    } else {
      FieldKeys2(i);
    }
    if k < 10 {
      FieldKeys1(k);
    } else {
      FieldKeys2(k);
    }
  }

  lemma TemplateNamesWritten()
    ensures Standard().names == ["default", "restricted", "network_only", "offline", "coding", "browser"]
  {
  }

  /** The names and the values of the fields belong together, one by one. */
  lemma FieldsByName(f: Fields)
    ensures FieldNames() ==
            ["name", "fs_read_paths", "fs_write_paths", "fs_deny_paths", "network_allowed",
             "network_allow_hosts", "network_deny_hosts", "network_allow_ports", "network_max_connections",
             "process_max_pids", "process_max_memory_mb", "process_max_cpu_percent", "process_allow_sudo",
             "process_allow_ptrace", "inference_allowed", "inference_max_tokens_per_call",
             "inference_max_calls_per_minute", "inference_allowed_models", "timeout_seconds"]
    ensures AsValues(f) ==
            [One(Str(f.name)), Texts(f.fsReadPaths), Texts(f.fsWritePaths), Texts(f.fsDenyPaths),
             One(Flag(f.networkAllowed)), Texts(f.networkAllowHosts), Texts(f.networkDenyHosts),
             Numbers(f.networkAllowPorts), One(Int(f.networkMaxConnections)), One(Int(f.processMaxPids)),
             One(Int(f.processMaxMemoryMb)), One(Float(f.processMaxCpuPercent)), One(Flag(f.processAllowSudo)),
             One(Flag(f.processAllowPtrace)), One(Flag(f.inferenceAllowed)),
             One(Int(f.inferenceMaxTokensPerCall)), One(Int(f.inferenceMaxCallsPerMinute)),
             Texts(f.inferenceAllowedModels), One(Int(f.timeoutSeconds))]
  {
  }
}

/** The sandbox manager: creation with overrides and the life cycle of a sandbox. */
module Sandboxes {
  import opened Positions
  import opened SandboxPolicies
  import opened Sublists
  import opened Wrappers

  datatype SandboxState = CREATING | READY | RUNNING | PAUSED | TERMINATED | ERROR

  class SandboxInstance {
    const sandboxId: string
    const taskId: string
    const workdir: string
    const user: string
    const pid: Option<int>
    const metadata: map<string, string>
    const policy: SandboxPolicy
    var state: SandboxState

    constructor (sandboxId: string, taskId: string, workdir: string, policy: SandboxPolicy, state: SandboxState)
      ensures this.sandboxId == sandboxId && this.taskId == taskId && this.workdir == workdir
      ensures this.policy == policy && this.state == state
      ensures HasDefaults()
    {
      user, pid, metadata := "ruflo-worker", None, map[];
      this.sandboxId, this.taskId, this.workdir, this.policy, this.state := sandboxId, taskId, workdir, policy, state;
    }

    /** It runs as the unprivileged worker, without a process so far. */
    predicate HasDefaults() {
      user == "ruflo-worker" && pid == None && metadata == map[]
    }
  }

  // ---------- The life cycle on values ----------

  datatype Entry = Entry(id: string, state: SandboxState)

  datatype Call = Create(id: string) | Execute(id: string) | Destroy(id: string) | Pause(id: string) | Resume(id: string)

  function Ids(es: seq<Entry>): seq<string> {
    seq(|es|, i requires 0 <= i < |es| => es[i].id)
  }

  function StateOf(es: seq<Entry>, id: string): Option<SandboxState> {
    var i := Position(Ids(es), id);
    if i < |es| then Some(es[i].state) else None
  }

  function Put(es: seq<Entry>, id: string, state: SandboxState): seq<Entry> {
    var i := Position(Ids(es), id);
    if i < |es| then es[i := Entry(id, state)] else es + [Entry(id, state)]
  }

  /** Executing passes through RUNNING and is back in READY before anyone else runs. */
  function AfterCall(es: seq<Entry>, c: Call): seq<Entry> {
    match c
    case Create(id) => Put(es, id, READY)
    case Execute(id) => es
    case Destroy(id) => if StateOf(es, id).Some? then Put(es, id, TERMINATED) else es
    case Pause(id) => if StateOf(es, id) == Some(RUNNING) then Put(es, id, PAUSED) else es
    case Resume(id) => if StateOf(es, id) == Some(PAUSED) then Put(es, id, READY) else es
  }

  function AfterCalls(calls: seq<Call>): seq<Entry> {
    if calls == [] then [] else AfterCall(AfterCalls(calls[..|calls| - 1]), calls[|calls| - 1])
  }

  /** What becomes of a sandbox: the last creation or destruction decides. */
  function Fate(calls: seq<Call>, id: string): Option<SandboxState> {
    if calls == [] then None
    else
      var last, before := calls[|calls| - 1], calls[..|calls| - 1];
      if last == Create(id) then Some(READY)
      else if last == Destroy(id) then if Fate(before, id) == None then None else Some(TERMINATED)
      else Fate(before, id)
  }

  lemma PutStates(es: seq<Entry>, id: string, state: SandboxState, other: string)
    ensures StateOf(Put(es, id, state), other) == if other == id then Some(state) else StateOf(es, other)
  {
    var i := Position(Ids(es), id);
    if i < |es| {
      assert Ids(Put(es, id, state)) == Ids(es);
    } else {
      assert Ids(Put(es, id, state)) == Ids(es) + [id];
      PositionSnoc(Ids(es), id, other);
    }
  }

  /** What each call does to the sandbox it names, and that it does nothing to any other. */
  lemma CallEffects(es: seq<Entry>, id: string, other: string)
    ensures StateOf(AfterCall(es, Create(id)), id) == Some(READY)
    ensures AfterCall(es, Execute(id)) == es
    ensures StateOf(AfterCall(es, Destroy(id)), id) == if StateOf(es, id) == None then None else Some(TERMINATED)
    ensures StateOf(AfterCall(es, Pause(id)), id) ==
            if StateOf(es, id) == Some(RUNNING) then Some(PAUSED) else StateOf(es, id)
    ensures StateOf(AfterCall(es, Resume(id)), id) ==
            if StateOf(es, id) == Some(PAUSED) then Some(READY) else StateOf(es, id)
    ensures other != id ==> forall c | c in {Create(id), Destroy(id), Pause(id), Resume(id)} ::
              StateOf(AfterCall(es, c), other) == StateOf(es, other)
  {
    PutStates(es, id, READY, id);
    PutStates(es, id, TERMINATED, id);
    PutStates(es, id, PAUSED, id);
    PutStates(es, id, READY, other);
    PutStates(es, id, TERMINATED, other);
    PutStates(es, id, PAUSED, other);
  }

  /** Between calls a sandbox is READY from its creation until it is destroyed, and TERMINATED ever
      after; pausing and resuming come to nothing. */
  lemma {:induction false} LifeCycle(calls: seq<Call>, id: string)
    ensures StateOf(AfterCalls(calls), id) == Fate(calls, id)
    ensures Fate(calls, id) in {None, Some(READY), Some(TERMINATED)}
  {
    if calls != [] {
      var last, es := calls[|calls| - 1], AfterCalls(calls[..|calls| - 1]);
      LifeCycle(calls[..|calls| - 1], id);
      LifeCycle(calls[..|calls| - 1], last.id);
      PutStates(es, last.id, READY, id);
      PutStates(es, last.id, TERMINATED, id);
    }
  }

  /** No call but a new creation under the same id brings a destroyed sandbox back. */
  lemma {:induction false} TerminatedForever(calls: seq<Call>, more: seq<Call>, id: string)
    requires StateOf(AfterCalls(calls), id) == Some(TERMINATED) && Create(id) !in more
    ensures StateOf(AfterCalls(calls + more), id) == Some(TERMINATED)
  {
    if more == [] {
      assert calls + more == calls;
    } else {
      var init, last := more[..|more| - 1], more[|more| - 1];
      assert (calls + more)[..|calls + more| - 1] == calls + init && (calls + more)[|calls + more| - 1] == last;
      assert last in more && forall c | c in init :: c in more;
      TerminatedForever(calls, init, id);
      LifeCycle(calls + init, id);
      LifeCycle(calls + more, id);
    }
  }

  // ---------- The manager ----------

  function Entries(sandboxes: seq<SandboxInstance>): (es: seq<Entry>)
    reads sandboxes
    ensures |es| == |sandboxes|
    ensures forall i {:trigger es[i]} {:trigger sandboxes[i]} | 0 <= i < |es| ::
              es[i] == Entry(sandboxes[i].sandboxId, sandboxes[i].state)
  {
    seq(|sandboxes|, i requires 0 <= i < |sandboxes| reads sandboxes => Entry(sandboxes[i].sandboxId, sandboxes[i].state))
  }

  function IdsOf(sandboxes: seq<SandboxInstance>): (ids: seq<string>)
    ensures |ids| == |sandboxes|
    ensures forall i {:trigger ids[i]} {:trigger sandboxes[i]} | 0 <= i < |ids| :: ids[i] == sandboxes[i].sandboxId
  {
    seq(|sandboxes|, i requires 0 <= i < |sandboxes| => sandboxes[i].sandboxId)
  }

  predicate IsNew(sandboxes: seq<SandboxInstance>, id: string) {
    forall k | 0 <= k < |sandboxes| :: sandboxes[k].sandboxId != id
  }

  function Active(sandboxes: seq<SandboxInstance>): seq<SandboxInstance>
    reads sandboxes
  {
    if sandboxes == [] then []
    else
      var last := sandboxes[|sandboxes| - 1];
      Active(sandboxes[..|sandboxes| - 1]) + if last.state !in {TERMINATED, ERROR} then [last] else []
  }

  /** The active sandboxes are exactly those neither terminated nor broken, each once, in order. */
  lemma {:induction false} ActiveIsExact(sandboxes: seq<SandboxInstance>) returns (at: seq<nat>)
    ensures Keeps(sandboxes, Active(sandboxes), at)
    ensures forall i | 0 <= i < |sandboxes| :: i in at <==> sandboxes[i].state != TERMINATED && sandboxes[i].state != ERROR
  {
    at := [];
    if sandboxes != [] {
      var n := |sandboxes| - 1;
      at := ActiveIsExact(sandboxes[..n]);
      assert sandboxes == sandboxes[..n] + [sandboxes[n]];
      KeepsNext(sandboxes[..n], Active(sandboxes[..n]), at, sandboxes[n]);
      if sandboxes[n].state !in {TERMINATED, ERROR} {
        at := at + [n];
      }
    }
  }

  datatype Outcome =
    | NotFound
    | NotReady(state: SandboxState)
    | Executed(id: string, command: string, exitCode: int, stdout: string, stderr: string, executed: bool)

  /** Nothing is run yet: every command is reported to have succeeded without output. */
  function Success(id: string, command: string): Outcome {
    Executed(id, command, 0, "", "", true)
  }

  class SandboxManager {
    const templates: PolicyTemplate
    var sandboxes: seq<SandboxInstance>

    constructor (templates: PolicyTemplate)
      requires templates.Valid()
      ensures this.templates == templates && sandboxes == [] && Valid()
    {
      this.templates, sandboxes := templates, [];
    }

    /** The registry is a dictionary: no id is registered twice. */
    ghost predicate Valid()
      reads this, templates
    {
      this !in templates.Repr && forall i, j | 0 <= i < j < |sandboxes| :: sandboxes[i].sandboxId != sandboxes[j].sandboxId
    }

    function Now(): seq<Entry>
      reads this, sandboxes
    {
      Entries(sandboxes)
    }

    function Find(id: string): (i: nat)
      reads this, sandboxes
      ensures i == Position(Ids(Now()), id)
      ensures i <= |sandboxes| && (i < |sandboxes| ==> sandboxes[i].sandboxId == id)
    {
      assert IdsOf(sandboxes) == Ids(Entries(sandboxes));
      Position(IdsOf(sandboxes), id)
    }

    /** A copy of the template with the overrides applied. The lists of the policy are new ones and those
        the caller passed in. */
    method Derive(template: string, overrides: seq<(string, Attr)>) returns (r: Option<SandboxPolicy>)
      requires templates.Valid()
      modifies templates
      ensures templates.Valid() && fresh(templates.Repr - old(templates.Repr))
      ensures r.Some? <==> template in templates.catalogue.names
      ensures r.Some? ==> fresh(r.value) && r.value !in templates.Repr
      ensures r.Some? ==> var own := ListsOf(r.value.attrs) - ChangedLists(overrides); fresh(own) && templates.Repr !! own
      ensures r.Some? ==> Values(r.value.attrs) == templates.catalogue.Overridden(template, Displayed(overrides))
    {
      r := templates.Get(template);
      if r.Some? {
        ghost var copied := r.value.attrs;
        AssignedShows(r.value.names, copied, overrides);
        r.value.Apply(overrides);
        assert ListsOf(r.value.attrs) - ChangedLists(overrides) <= ListsOf(copied);
      }
    }

    /** Registers a new sandbox that is ready to run, under an id made up for it. An unknown template
        leaves the registry as it was. */
    method Create(newId: string, taskId: string, template: string := "default", overrides: seq<(string, Attr)> := [])
      returns (r: Option<SandboxInstance>)
      requires Valid() && templates.Valid()
      modifies this, templates
      ensures Valid() && templates.Valid() && fresh(templates.Repr - old(templates.Repr))
      ensures r.Some? <==> template in templates.catalogue.names
      ensures r.None? ==> sandboxes == old(sandboxes)
      ensures r.Some? && IsNew(old(sandboxes), newId) ==> sandboxes == old(sandboxes) + [r.value]
      ensures r.Some? ==> Now() == AfterCall(old(Now()), Call.Create(newId)) && fresh(r.value)
      ensures r.Some? ==> r.value.sandboxId == newId && r.value.taskId == taskId && r.value.HasDefaults()
      ensures r.Some? ==> r.value in sandboxes && r.value.state == READY && r.value.user == "ruflo-worker"
                          && r.value.workdir == "/tmp/ruflo-sandbox-" + (if |taskId| < 8 then taskId else taskId[..8])
      ensures r.Some? ==> fresh(r.value.policy) && r.value.policy !in templates.Repr
      ensures r.Some? ==> var own := ListsOf(r.value.policy.attrs) - ChangedLists(overrides);
                          fresh(own) && templates.Repr !! own
      ensures r.Some? ==>
                Values(r.value.policy.attrs) == templates.catalogue.Overridden(template, Displayed(overrides))
    {
      var derived := Derive(template, overrides);
      if derived.None? {
        return None;
      }
      var sandbox := Open(newId, taskId, derived.value);
      r := Some(sandbox);
    }

    method Open(newId: string, taskId: string, policy: SandboxPolicy) returns (sandbox: SandboxInstance)
      requires Valid()
      modifies this
      ensures Valid() && fresh(sandbox) && Now() == Put(old(Now()), newId, READY)
      ensures sandbox in sandboxes && sandbox.state == READY && sandbox.HasDefaults()
      ensures IsNew(old(sandboxes), newId) ==> sandboxes == old(sandboxes) + [sandbox]
      ensures sandbox.sandboxId == newId && sandbox.taskId == taskId && sandbox.policy == policy
      ensures sandbox.workdir == "/tmp/ruflo-sandbox-" + (if |taskId| < 8 then taskId else taskId[..8])
    {
      var workdir := "/tmp/ruflo-sandbox-" + (if |taskId| < 8 then taskId else taskId[..8]);
      sandbox := new SandboxInstance(newId, taskId, workdir, policy, READY);
      Register(sandbox);
    }

    method Register(sandbox: SandboxInstance)
      requires Valid() && sandbox !in sandboxes
      modifies this
      ensures Valid() && Now() == Put(old(Now()), sandbox.sandboxId, sandbox.state) && sandbox in sandboxes
      ensures IsNew(old(sandboxes), sandbox.sandboxId) ==> sandboxes == old(sandboxes) + [sandbox]
    {
      var i := Find(sandbox.sandboxId);
      ghost var before := Now();
      if i < |sandboxes| {
        sandboxes := sandboxes[i := sandbox];
        assert Now() == before[i := Entry(sandbox.sandboxId, sandbox.state)];
      } else {
        forall k | 0 <= k < |sandboxes| ensures sandboxes[k].sandboxId != sandbox.sandboxId {
          assert Ids(before)[k] == sandboxes[k].sandboxId;
        }
        sandboxes := sandboxes + [sandbox];
        assert Now() == before + [Entry(sandbox.sandboxId, sandbox.state)];
      }
    }

    /** The sandboxes that are neither terminated nor broken, in order of creation. */
    method ListActive() returns (active: seq<SandboxInstance>)
      ensures active == Active(sandboxes)
      ensures exists at: seq<nat> {:trigger Keeps(sandboxes, active, at)} ::
                && Keeps(sandboxes, active, at)
                && forall i | 0 <= i < |sandboxes| ::
                     i in at <==> sandboxes[i].state != TERMINATED && sandboxes[i].state != ERROR
    {
      ghost var at := ActiveIsExact(sandboxes);
      active := [];
      for i := 0 to |sandboxes|
        invariant active == Active(sandboxes[..i])
      {
        assert sandboxes[..i + 1][..i] == sandboxes[..i];
        if sandboxes[i].state !in {TERMINATED, ERROR} {
          active := active + [sandboxes[i]];
        }
      }
      assert sandboxes[..|sandboxes|] == sandboxes;
    }

    method Enter(sandbox: SandboxInstance, state: SandboxState)
      requires Valid() && sandbox in sandboxes
      modifies sandbox
      ensures Valid() && Now() == Put(old(Now()), sandbox.sandboxId, state) && sandbox.state == state
    {
      var i := Find(sandbox.sandboxId);
      ghost var before := Now();
      sandbox.state := state;
      assert sandbox == sandboxes[i];
      assert Now() == before[i := Entry(sandbox.sandboxId, state)];
    }

    method Execute(id: string, command: string) returns (r: Outcome)
      requires Valid()
      modifies sandboxes
      ensures Valid() && Now() == AfterCall(old(Now()), Call.Execute(id))
      ensures r == match StateOf(old(Now()), id)
                   case None => NotFound
                   case Some(state) => if state == READY then Success(id, command) else NotReady(state)
    {
      var i := Find(id);
      if i == |sandboxes| {
        return NotFound;
      }
      var sandbox := sandboxes[i];
      if sandbox.state != READY {
        return NotReady(sandbox.state);
      }
      Enter(sandbox, RUNNING);
      r := Success(id, command);
      Enter(sandbox, READY);
    }

    method Destroy(id: string)
      requires Valid()
      modifies sandboxes
      ensures Valid() && Now() == AfterCall(old(Now()), Call.Destroy(id))
    {
      var i := Find(id);
      if i < |sandboxes| {
        Enter(sandboxes[i], TERMINATED);
      }
    }

    method Pause(id: string)
      requires Valid()
      modifies sandboxes
      ensures Valid() && Now() == AfterCall(old(Now()), Call.Pause(id))
    {
      var i := Find(id);
      if i < |sandboxes| && sandboxes[i].state == RUNNING {
        Enter(sandboxes[i], PAUSED);
      }
    }

    method Resume(id: string)
      requires Valid()
      modifies sandboxes
      ensures Valid() && Now() == AfterCall(old(Now()), Call.Resume(id))
    {
      var i := Find(id);
      if i < |sandboxes| && sandboxes[i].state == PAUSED {
        Enter(sandboxes[i], READY);
      }
    }
  }

  // ---------- Templates cannot be reached from outside ----------

  /** The lists among the fields of a policy, in order. */
  function ListsIn(attrs: seq<Attr>): seq<PyList> {
    if attrs == [] then []
    else (if attrs[0].List? then [attrs[0].list] else []) + ListsIn(attrs[1..])
  }

  lemma {:induction false} ListsInAre(attrs: seq<Attr>)
    ensures forall list <- ListsIn(attrs) :: list in ListsOf(attrs)
  {
    if attrs != [] {
      ListsInAre(attrs[1..]);
      forall list | list in ListsOf(attrs[1..]) ensures list in ListsOf(attrs) {
        var i :| 0 <= i < |attrs[1..]| && attrs[1..][i].List? && attrs[1..][i].list == list;
        assert attrs[i + 1] == attrs[1..][i];
      }
    }
  }

  /** An override by a plain value, or by one of the lists that are held when it is made. */
  datatype Pick = PlainValue(scalar: Scalar) | HeldList(k: nat)

  predicate FromHeld(lists: seq<PyList>, overrides: seq<(string, Attr)>) {
    forall i | 0 <= i < |overrides| && overrides[i].1.List? :: overrides[i].1.list in lists
  }

  function PickedOne(lists: seq<PyList>, field: string, pick: Pick): (r: seq<(string, Attr)>)
    ensures FromHeld(lists, r)
  {
    match pick
    case PlainValue(scalar) => [(field, Plain(scalar))]
    case HeldList(k) => if k < |lists| then [(field, List(lists[k]))] else []
  }

  function Picked(lists: seq<PyList>, picks: seq<(string, Pick)>): (r: seq<(string, Attr)>)
    ensures FromHeld(lists, r)
  {
    if picks == [] then [] else PickedOne(lists, picks[0].0, picks[0].1) + Picked(lists, picks[1..])
  }

  lemma PickedAreHeld(lists: seq<PyList>, picks: seq<(string, Pick)>)
    ensures forall list <- ChangedLists(Picked(lists, picks)) :: list in lists
  {
    var all := Picked(lists, picks);
    forall list | list in ChangedLists(all) ensures list in lists {
      var i :| 0 <= i < |all| && all[i].1.List? && all[i].1.list == list;
    }
  }

  /** Everyone outside: they make lists, ask for sandboxes and templates, and do whatever they like to the
      policies and lists that they made or were handed. */
  class Outsiders {
    const manager: SandboxManager
    /** The lists they can pass on. */
    var lists: seq<PyList>
    ghost var held: set<object>

    constructor (manager: SandboxManager)
      requires manager.Valid() && manager.templates.Valid()
      ensures Valid() && this.manager == manager && held == {}
    {
      this.manager, lists, held := manager, [], {};
    }

    /** Nothing they hold is a template or a list of one. */
    ghost predicate Valid()
      reads this, manager, manager.templates, manager.templates.Repr
    {
      && manager.Valid() && manager.templates.Valid()
      && this !in manager.templates.Repr
      && held !! manager.templates.Repr + {this, manager, manager.templates}
      && (forall list <- lists :: list in held)
    }

    method MakeList(items: seq<Scalar>)
      requires Valid()
      modifies this
      ensures Valid() && old(held) <= held && fresh(held - old(held))
    {
      var list := new PyList(items);
      lists := lists + [list];
      held := held + {list};
    }

    /** They ask for a sandbox, passing whichever of their lists they like. */
    method Request(id: string, taskId: string, template: string, picks: seq<(string, Pick)>)
      requires Valid()
      modifies this, manager, manager.templates
      ensures Valid() && old(held) <= held && fresh(held - old(held))
    {
      var overrides := Picked(lists, picks);
      PickedAreHeld(lists, picks);
      var created := manager.Create(id, taskId, template, overrides);
      if created.Some? {
        TakeHold(created.value.policy, ChangedLists(overrides));
      }
    }

    /** A policy and its lists come into their hands; some of the lists were theirs before. */
    method TakeHold(policy: SandboxPolicy, ghost theirs: set<PyList>)
      requires Valid() && theirs <= held
      requires {policy} + (ListsOf(policy.attrs) - theirs) !! manager.templates.Repr + {this, manager, manager.templates}
      modifies this
      ensures Valid() && held == old(held) + {policy} + (ListsOf(policy.attrs) - theirs)
    {
      ListsInAre(policy.attrs);
      lists := lists + ListsIn(policy.attrs);
      held := held + {policy} + (ListsOf(policy.attrs) - theirs);
    }

    /** Anything can happen to what they hold. */
    method Meddle()
      requires Valid()
      modifies held
      ensures Valid()
    {
      modify held;
    }

    /** A template asked for shows what it was defined to show. */
    method Ask(name: string) returns (shown: Option<seq<Value>>)
      requires Valid()
      modifies this, manager.templates
      ensures Valid() && old(held) <= held && fresh(held - old(held))
      ensures var c := manager.templates.catalogue; shown == if name in c.names then Some(c.define(name)) else None
    {
      var asked := manager.templates.Get(name);
      if asked.None? {
        return None;
      }
      shown := Some(Values(asked.value.attrs));
      TakeHold(asked.value, {});
    }
  }

  datatype Deed =
    | Making(items: seq<Scalar>)
    | Requesting(id: string, taskId: string, template: string, picks: seq<(string, Pick)>)
    | Meddling
    | Asking(name: string)

  /** After any deeds whatsoever, in any order, every template still shows what it was defined to show. */
  method AnyDeeds(outsiders: Outsiders, deeds: seq<Deed>, name: string) returns (shown: Option<seq<Value>>)
    requires outsiders.Valid()
    modifies outsiders, outsiders.manager, outsiders.manager.templates, outsiders.held
    ensures outsiders.Valid()
    ensures var c := outsiders.manager.templates.catalogue;
            shown == if name in c.names then Some(c.define(name)) else None
  {
    for i := 0 to |deeds|
      invariant outsiders.Valid() && old(outsiders.held) <= outsiders.held
      invariant fresh(outsiders.held - old(outsiders.held))
    {
      match deeds[i] {
        case Making(items) =>
          outsiders.MakeList(items);
        case Requesting(id, taskId, template, picks) =>
          outsiders.Request(id, taskId, template, picks);
        case Meddling =>
          outsiders.Meddle();
        case Asking(other) =>
          var _ := outsiders.Ask(other);
      }
    }
    shown := outsiders.Ask(name);
  }
}
