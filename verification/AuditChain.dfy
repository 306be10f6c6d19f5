/** The hash-chained audit log.  The hash is an arbitrary function of the seven hashed fields: nothing
    is assumed of it, and what a collision would spoil is stated by handing the collision out. */
module AuditChain {
  import opened Sublists
  import opened Wrappers

  /** The fields that enter the hash. */
  datatype Payload = Payload(
    entryId: string, timestamp: string, eventType: string, taskId: Option<string>,
    action: string, outcome: string, previousHash: string)

  datatype Record = Record(payload: Payload, entryHash: string)

  type HashFunction = Payload -> string

  function Zeros(n: nat): (s: string)
    ensures |s| == n && forall c <- s :: c == '0'
  {
    if n == 0 then "" else ['0'] + Zeros(n - 1)
  }

  /** The hash before the first entry: sixty-four zeros. */
  function Genesis(): string {
    Zeros(64)
  }

  class AuditEntry {
    var entryId: string
    var timestamp: string
    var eventType: string
    var taskId: Option<string>
    var agentType: Option<string>
    var action: string
    var details: map<string, string>
    var outcome: string
    var previousHash: string
    var entryHash: string

    constructor (entryId: string, timestamp: string, eventType: string, taskId: Option<string>, agentType: Option<string>,
                 action: string, details: map<string, string>, outcome: string, previousHash: string)
      ensures View() == Record(Payload(entryId, timestamp, eventType, taskId, action, outcome, previousHash), "")
      ensures this.agentType == agentType && this.details == details
      ensures this.eventType == eventType && this.taskId == taskId && this.action == action && this.outcome == outcome
    {
      this.entryId, this.timestamp, this.eventType, this.taskId := entryId, timestamp, eventType, taskId;
      this.agentType, this.action, this.details, this.outcome := agentType, action, details, outcome;
      this.previousHash, entryHash := previousHash, "";
    }

    function View(): Record
      reads this
    {
      Record(Payload(entryId, timestamp, eventType, taskId, action, outcome, previousHash), entryHash)
    }
  }

  function Views(entries: seq<AuditEntry>): (rs: seq<Record>)
    reads entries
    ensures |rs| == |entries| && forall i | 0 <= i < |rs| :: rs[i] == entries[i].View()
  {
    seq(|entries|, i requires 0 <= i < |entries| reads entries => entries[i].View())
  }

  // ---------- The chain ----------

  function HashBefore(rs: seq<Record>, i: nat): string
    requires i <= |rs|
  {
    if i == 0 then Genesis() else rs[i - 1].entryHash
  }

  /** Every entry stores the hash of its own fields, one of which is the hash stored before it. */
  predicate Linked(h: HashFunction, rs: seq<Record>, i: nat)
    requires i < |rs|
  {
    rs[i].payload.previousHash == HashBefore(rs, i) && rs[i].entryHash == h(rs[i].payload)
  }

  predicate IsChain(h: HashFunction, rs: seq<Record>) {
    forall i | 0 <= i < |rs| :: Linked(h, rs, i)
  }

  class AuditService {
    const hash: HashFunction
    var entries: seq<AuditEntry>
    var lastHash: string

    constructor (hash: HashFunction)
      ensures this.hash == hash && entries == [] && Consistent()
      ensures |lastHash| == 64 && forall c <- lastHash :: c == '0'
    {
      this.hash, entries, lastHash := hash, [], Genesis();
    }

    /** What holds as long as the log is written through `Log` alone. */
    predicate Consistent()
      reads this, entries
    {
      IsChain(hash, Views(entries)) && lastHash == HashBefore(Views(entries), |entries|)
    }

    /** Appends an entry chained to the last one; the fresh id and the time come from the caller. */
    method Log(entryId: string, timestamp: string, eventType: string, action: string, outcome: string,
               taskId: Option<string> := None, agentType: Option<string> := None, details: map<string, string> := map[])
      returns (entry: AuditEntry)
      modifies this
      ensures fresh(entry) && entries == old(entries) + [entry]
      ensures entry.View().payload == Payload(entryId, timestamp, eventType, taskId, action, outcome, old(lastHash))
      ensures entry.entryHash == hash(entry.View().payload) && lastHash == entry.entryHash
      ensures entry.agentType == agentType && entry.details == details
      ensures entry.eventType == eventType && entry.taskId == taskId && entry.action == action && entry.outcome == outcome
      ensures old(Consistent()) ==> Consistent()
    {
      entry := new AuditEntry(entryId, timestamp, eventType, taskId, agentType, action, details, outcome, lastHash);
      entry.entryHash := hash(entry.View().payload);
      ghost var before := Views(entries);
      entries := entries + [entry];
      lastHash := entry.entryHash;
      assert Views(entries) == before + [entry.View()];
      if old(Consistent()) {
        ChainGrows(hash, before, entry.View());
      }
    }

    /** Walks the log once; true exactly on the logs that are chains. */
    method VerifyChain() returns (ok: bool)
      ensures ok <==> IsChain(hash, Views(entries))
    {
      ghost var rs := Views(entries);
      var prevHash := Genesis();
      for i := 0 to |entries|
        invariant prevHash == HashBefore(rs, i)
        invariant forall j | 0 <= j < i :: Linked(hash, rs, j)
      {
        var entry := entries[i];
        assert rs[i] == entry.View();
        assert Linked(hash, rs, i) <==> entry.previousHash == prevHash && hash(entry.View().payload) == entry.entryHash;
        if entry.previousHash != prevHash {
          return false;
        }
        var computed := hash(entry.View().payload);
        if computed != entry.entryHash {
          return false;
        }
        prevHash := entry.entryHash;
      }
      return true;
    }

    /** The entries that pass the filters, cut with Python's `entries[-limit:]`: the last `limit` of
        them, all of them for a limit of zero, and all but the first `-limit` for a negative one. */
    method GetEntries(taskId: Option<string>, eventType: Option<string>, limit: int := 100) returns (found: seq<AuditEntry>)
      ensures found == FromEnd(Matching(entries, taskId, eventType), limit)
      ensures IsSelection(entries, taskId, eventType, limit, found)
    {
      var kept := Select(taskId, eventType);
      found := FromEnd(kept, limit);
      MatchingIsSelection(entries, taskId, eventType, limit);
    }

    method Select(taskId: Option<string>, eventType: Option<string>) returns (kept: seq<AuditEntry>)
      ensures kept == Matching(entries, taskId, eventType)
    {
      kept := entries;
      if taskId != None && taskId != Some("") {
        kept := OfTask(kept, taskId);
      } else {
        NoFilter(kept, taskId, None);
      }
      FiltersCompose(entries, taskId, eventType);
      if eventType != None && eventType != Some("") {
        kept := OfType(kept, eventType);
      } else {
        NoFilter(kept, None, eventType);
      }
    }

    static method OfTask(list: seq<AuditEntry>, taskId: Option<string>) returns (kept: seq<AuditEntry>)
      requires taskId != None && taskId != Some("")
      ensures kept == Matching(list, taskId, None)
    {
      kept := [];
      for i := 0 to |list|
        invariant kept == Matching(list[..i], taskId, None)
      {
        assert list[..i + 1][..i] == list[..i];
        if list[i].taskId == taskId {
          kept := kept + [list[i]];
        }
      }
      assert list[..|list|] == list;
    }

    static method OfType(list: seq<AuditEntry>, eventType: Option<string>) returns (kept: seq<AuditEntry>)
      requires eventType != None && eventType != Some("")
      ensures kept == Matching(list, None, eventType)
    {
      kept := [];
      for i := 0 to |list|
        invariant kept == Matching(list[..i], None, eventType)
      {
        assert list[..i + 1][..i] == list[..i];
        if Some(list[i].eventType) == eventType {
          kept := kept + [list[i]];
        }
      }
      assert list[..|list|] == list;
    }
  }

  predicate Passes(filter: Option<string>, value: Option<string>) {
    filter == None || filter == Some("") || filter == value
  }

  /** An empty string filters nothing, like no filter at all. */
  predicate PassesBoth(e: AuditEntry, taskId: Option<string>, eventType: Option<string>)
    reads e
  {
    Passes(taskId, e.taskId) && Passes(eventType, Some(e.eventType))
  }

  function Matching(entries: seq<AuditEntry>, taskId: Option<string>, eventType: Option<string>): seq<AuditEntry>
    reads entries
  {
    if entries == [] then []
    else
      var last := entries[|entries| - 1];
      Matching(entries[..|entries| - 1], taskId, eventType) + if PassesBoth(last, taskId, eventType) then [last] else []
  }

  lemma {:induction false} NoFilter(entries: seq<AuditEntry>, taskId: Option<string>, eventType: Option<string>)
    requires taskId in {None, Some("")} && eventType in {None, Some("")}
    ensures Matching(entries, taskId, eventType) == entries
  {
    if entries != [] {
      NoFilter(entries[..|entries| - 1], taskId, eventType);
    }
  }

  /** One filter after the other keeps what both together keep. */
  lemma {:induction false} FiltersCompose(entries: seq<AuditEntry>, taskId: Option<string>, eventType: Option<string>)
    ensures Matching(Matching(entries, taskId, None), None, eventType) == Matching(entries, taskId, eventType)
  {
    if entries != [] {
      var init, last := entries[..|entries| - 1], entries[|entries| - 1];
      FiltersCompose(init, taskId, eventType);
      if PassesBoth(last, taskId, None) {
        var once := Matching(init, taskId, None);
        assert Matching(entries, taskId, None) == once + [last];
        assert (once + [last])[..|once|] == once;
      } else {
        assert Matching(entries, taskId, None) == Matching(init, taskId, None);
      }
    }
  }

  /** The places of the entries that have the task and the event type asked for, if any, in order. */
  predicate AreSelected(entries: seq<AuditEntry>, taskId: Option<string>, eventType: Option<string>, at: seq<nat>)
    reads entries
  {
    && InRange(entries, at) && (forall j, k | 0 <= j < k < |at| :: at[j] < at[k])
    && forall i | 0 <= i < |entries| ::
         i in at <==> && (taskId == None || taskId == Some("") || entries[i].taskId == taskId)
                      && (eventType == None || eventType == Some("") || Some(entries[i].eventType) == eventType)
  }

  /** The last `limit` of them, all of them for a limit of zero, all but the first `-limit` for a negative one. */
  predicate IsTail<T(==)>(all: seq<T>, limit: int, found: seq<T>) {
    if limit > 0 then found == (if |all| <= limit then all else all[|all| - limit..])
    else if limit == 0 then found == all
    else found == (if -limit <= |all| then all[-limit..] else [])
  }

  lemma {:induction false} MatchingKeeps(entries: seq<AuditEntry>, taskId: Option<string>, eventType: Option<string>)
    returns (at: seq<nat>)
    ensures Keeps(entries, Matching(entries, taskId, eventType), at)
    ensures forall i | 0 <= i < |entries| :: i in at <==> PassesBoth(entries[i], taskId, eventType)
  {
    at := [];
    if entries != [] {
      var n := |entries| - 1;
      at := MatchingKeeps(entries[..n], taskId, eventType);
      assert entries == entries[..n] + [entries[n]];
      KeepsNext(entries[..n], Matching(entries[..n], taskId, eventType), at, entries[n]);
      if PassesBoth(entries[n], taskId, eventType) {
        at := at + [n];
      }
    }
  }

  /** The filters keep exactly the entries that pass both, each at its place in the log. */
  lemma MatchingIsExact(entries: seq<AuditEntry>, taskId: Option<string>, eventType: Option<string>)
    returns (at: seq<nat>)
    ensures Keeps(entries, Matching(entries, taskId, eventType), at) && AreSelected(entries, taskId, eventType, at)
  {
    at := MatchingKeeps(entries, taskId, eventType);
  }

  /** What is found is the tail of the selected entries. */
  predicate IsSelectionAt(entries: seq<AuditEntry>, taskId: Option<string>, eventType: Option<string>, limit: int,
                          found: seq<AuditEntry>, at: seq<nat>)
    reads entries
  {
    AreSelected(entries, taskId, eventType, at) && IsTail(Elements(entries, at), limit, found)
  }

  ghost predicate IsSelection(entries: seq<AuditEntry>, taskId: Option<string>, eventType: Option<string>, limit: int,
                              found: seq<AuditEntry>)
    reads entries
  {
    exists at: seq<nat> :: IsSelectionAt(entries, taskId, eventType, limit, found, at)
  }

  lemma MatchingIsSelection(entries: seq<AuditEntry>, taskId: Option<string>, eventType: Option<string>, limit: int)
    ensures IsSelection(entries, taskId, eventType, limit, FromEnd(Matching(entries, taskId, eventType), limit))
  {
    var at := MatchingIsExact(entries, taskId, eventType);
    assert Elements(entries, at) == Matching(entries, taskId, eventType);
    assert IsSelectionAt(entries, taskId, eventType, limit, FromEnd(Matching(entries, taskId, eventType), limit), at);
  }

  function FromEnd<T>(xs: seq<T>, limit: int): seq<T> {
    var start := if limit > 0 then |xs| - limit else -limit;
    xs[if start < 0 then 0 else if start > |xs| then |xs| else start..]
  }

  lemma ChainGrows(h: HashFunction, rs: seq<Record>, r: Record)
    requires IsChain(h, rs)
    requires r.payload.previousHash == HashBefore(rs, |rs|) && r.entryHash == h(r.payload)
    ensures IsChain(h, rs + [r])
  {
    forall i | 0 <= i < |rs + [r]| ensures Linked(h, rs + [r], i) {
      assert HashBefore(rs + [r], i) == HashBefore(rs, i);
      assert i < |rs| ==> Linked(h, rs, i);
    }
  }

  /** Every prefix of a chain is a chain. */
  lemma PrefixIsChain(h: HashFunction, rs: seq<Record>, n: nat)
    requires IsChain(h, rs) && n <= |rs|
    ensures IsChain(h, rs[..n])
  {
    forall i | 0 <= i < n ensures Linked(h, rs[..n], i) {
      assert Linked(h, rs, i);
    }
  }

  // ---------- Tamper evidence ----------

  /** What two logs ending in the same hash tell. */
  datatype Evidence =
    | Same
    | Collision(p: Payload, q: Payload)
    | GenesisPreimage(p: Payload)

  predicate Genuine(h: HashFunction, e: Evidence) {
    match e
    case Same => true
    case Collision(p, q) => p != q && h(p) == h(q)
    case GenesisPreimage(p) => h(p) == Genesis()
  }

  function Payloads(rs: seq<Record>): set<Payload> {
    set i | 0 <= i < |rs| :: rs[i].payload
  }

  /** The evidence is about entries of the two logs. */
  predicate Found(a: seq<Record>, b: seq<Record>, e: Evidence) {
    match e
    case Same => true
    case Collision(p, q) => p in Payloads(a) && q in Payloads(b)
    case GenesisPreimage(p) => p in Payloads(a) + Payloads(b)
  }

  /** Compares two logs from the end.  */
  function Compare(a: seq<Record>, b: seq<Record>): Evidence {
    if a == [] && b == [] then Same
    else if a == [] then GenesisPreimage(b[|b| - 1].payload)
    else if b == [] then GenesisPreimage(a[|a| - 1].payload)
    else if a[|a| - 1].payload != b[|b| - 1].payload then Collision(a[|a| - 1].payload, b[|b| - 1].payload)
    else Compare(a[..|a| - 1], b[..|b| - 1])
  }

  lemma PrefixPayloads(rs: seq<Record>, n: nat)
    requires n <= |rs|
    ensures Payloads(rs[..n]) <= Payloads(rs)
  {
  }

  /** Tamper evidence: two logs that both verify and end in the same hash are equal in every hashed
      field of every entry, or two of their entries collide, or one hashes to the genesis value. */
  lemma {:induction false} CompareIsSound(h: HashFunction, a: seq<Record>, b: seq<Record>)
    requires IsChain(h, a) && IsChain(h, b)
    requires HashBefore(a, |a|) == HashBefore(b, |b|)
    ensures Genuine(h, Compare(a, b)) && Found(a, b, Compare(a, b))
    ensures Compare(a, b) == Same <==> a == b
    decreases |a|
  {
    if a != [] && b != [] {
      var m, n := |a| - 1, |b| - 1;
      assert Linked(h, a, m) && Linked(h, b, n);
      assert a == a[..m] + [a[m]] && b == b[..n] + [b[n]];
      if a[m].payload == b[n].payload {
        PrefixIsChain(h, a, m);
        PrefixIsChain(h, b, n);
        CompareIsSound(h, a[..m], b[..n]);
        PrefixPayloads(a, m);
        PrefixPayloads(b, n);
      } else {
        assert a[m].payload in Payloads(a) && b[n].payload in Payloads(b);
      }
    } else if a != [] {
      assert Linked(h, a, |a| - 1) && a[|a| - 1].payload in Payloads(a);
    } else if b != [] {
      assert Linked(h, b, |b| - 1) && b[|b| - 1].payload in Payloads(b);
    }
  }

  /** The new fields cannot be told from the old ones by the chain. */
  predicate Indistinct(h: HashFunction, p: Payload, q: Payload) {
    h(p) == h(q) && p.previousHash == q.previousHash
  }

  lemma ReplacedIsChain(h: HashFunction, rs: seq<Record>, i: nat, r: Record)
    requires IsChain(h, rs) && i < |rs|
    requires Linked(h, rs[i := r], i) && (i + 1 < |rs| ==> r.entryHash == rs[i].entryHash)
    ensures IsChain(h, rs[i := r])
  {
    var rs' := rs[i := r];
    forall j | 0 <= j < |rs'| ensures Linked(h, rs', j) {
      assert Linked(h, rs, j);
    }
  }

  /** Changing hashed fields of one entry without rehashing it goes unnoticed exactly when the old
      and the new fields collide. */
  lemma TamperingShows(h: HashFunction, rs: seq<Record>, i: nat, p: Payload)
    requires IsChain(h, rs) && i < |rs|
    ensures IsChain(h, rs[i := Record(p, rs[i].entryHash)]) <==> Indistinct(h, rs[i].payload, p)
  {
    var rs' := rs[i := Record(p, rs[i].entryHash)];
    assert Linked(h, rs, i);
    assert IsChain(h, rs') ==> Linked(h, rs', i);
    if Indistinct(h, rs[i].payload, p) {
      ReplacedIsChain(h, rs, i, rs'[i]);
    }
  }

  /** Rehashing the changed entry helps at the end of the log alone: anywhere before, the link to the
      next entry breaks unless the fields collide. */
  lemma RehashingShows(h: HashFunction, rs: seq<Record>, i: nat, p: Payload)
    requires IsChain(h, rs) && i < |rs|
    ensures i + 1 < |rs| ==>
              (IsChain(h, rs[i := Record(p, h(p))]) <==> Indistinct(h, rs[i].payload, p))
    ensures i + 1 == |rs| ==>
              (IsChain(h, rs[i := Record(p, h(p))]) <==> p.previousHash == rs[i].payload.previousHash)
  {
    var rs' := rs[i := Record(p, h(p))];
    assert Linked(h, rs, i) && (i + 1 < |rs| ==> Linked(h, rs, i + 1));
    if IsChain(h, rs') {
      assert Linked(h, rs', i) && (i + 1 < |rs| ==> Linked(h, rs', i + 1));
    }
    if p.previousHash == rs[i].payload.previousHash && (i + 1 < |rs| ==> h(p) == rs[i].entryHash) {
      ReplacedIsChain(h, rs, i, rs'[i]);
    }
  }

  /** What is returned is always a suffix of the matches; how long it is depends on the limit. */
  lemma FromEndIsSuffix<T>(xs: seq<T>, limit: int)
    ensures limit > 0 ==> |FromEnd(xs, limit)| == (if |xs| < limit then |xs| else limit)
    ensures limit == 0 ==> FromEnd(xs, limit) == xs
    ensures limit < 0 ==> |FromEnd(xs, limit)| == (if |xs| < -limit then 0 else |xs| + limit)
    ensures FromEnd(xs, limit) == xs[|xs| - |FromEnd(xs, limit)|..]
  {
  }
}
