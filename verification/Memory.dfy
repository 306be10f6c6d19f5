/** The three-layer memory of the Hermes adapter: entries are appended to a layer and recalled by
    keyword. */
module Memory {
  import opened Wrappers
  import opened StableSort
  import opened Sublists
  import opened Substrings
  import opened Decimal

  datatype Datum = Note(text: string) | Steps(steps: seq<string>) | Rate(rate: real)

  type Metadata = map<string, Datum>

  class MemoryEntry {
    const entryId: string
    const layer: string
    const content: string
    const metadata: Metadata
    var relevanceScore: nat

    constructor (entryId: string, layer: string, content: string, metadata: Metadata)
      ensures this.entryId == entryId && this.layer == layer && Says(content, metadata) && relevanceScore == 0
    {
      this.entryId, this.layer, this.content, this.metadata, relevanceScore := entryId, layer, content, metadata, 0;
    }

    predicate Says(content: string, metadata: Metadata) {
      this.content == content && this.metadata == metadata
    }

    method SetScore(score: nat)
      modifies this
      ensures relevanceScore == score
    {
      relevanceScore := score;
    }
  }

  // ---------- Scores ----------

  /** How many of the words occur in the text; a repeated word counts each time. */
  function Hits(words: seq<string>, text: string): nat {
    if words == [] then 0 else Hits(words[..|words| - 1], text) + if Contains(text, words[|words| - 1]) then 1 else 0
  }

  /** How texts are lower-cased and split into words. */
  datatype Words = Words(lower: string -> string, split: string -> seq<string>) {
    function Score(query: string, content: string): nat {
      Hits(split(lower(query)), lower(content))
    }

    function Key(query: string): MemoryEntry -> real {
      (e: MemoryEntry) => Score(query, e.content) as real
    }

    /** The entries that score at all, in pool order. */
    function Relevant(pool: seq<MemoryEntry>, query: string): seq<MemoryEntry> {
      if pool == [] then []
      else
        var last := pool[|pool| - 1];
        Relevant(pool[..|pool| - 1], query) + if Score(query, last.content) > 0 then [last] else []
    }

    function Ranked(pool: seq<MemoryEntry>, query: string): seq<MemoryEntry> {
      Sort(Relevant(pool, query), Key(query))
    }
  }

  /** Python's `xs[:limit]`: a negative limit counts from the end. */
  function UpTo<T>(xs: seq<T>, limit: int): seq<T> {
    var end := if limit < 0 then |xs| + limit else limit;
    if end < 0 then [] else if end < |xs| then xs[..end] else xs
  }

  // ---------- What a recall is ----------

  /** The places of the words that occur in the text. */
  ghost function Occurring(words: seq<string>, text: string): set<nat> {
    set i: nat | i < |words| && exists p, s :: text == p + words[i] + s
  }

  lemma {:induction false} HitsCount(words: seq<string>, text: string)
    ensures Hits(words, text) == |Occurring(words, text)|
  {
    if words != [] {
      var n := |words| - 1;
      var before, all := Occurring(words[..n], text), Occurring(words, text);
      HitsCount(words[..n], text);
      ContainsIff(text, words[n]);
      forall i: nat ensures i in before <==> i in all && i < n {
        assert i < n ==> words[..n][i] == words[i];
      }
      assert all == before + if Contains(text, words[n]) then {n} else {};
    }
  }

  /** How many words of the query occur in the entry, case aside. */
  ghost function Relevance(words: Words, query: string, e: MemoryEntry): nat {
    |Occurring(words.split(words.lower(query)), words.lower(e.content))|
  }

  lemma ScoreIsRelevance(words: Words, query: string, e: MemoryEntry)
    ensures words.Score(query, e.content) == Relevance(words, query, e)
  {
    HitsCount(words.split(words.lower(query)), words.lower(e.content));
  }

  /** `ranked` lists the entries with some word of the query, those with more words first, and of those with
      equally many the earlier ones of the pool. */
  ghost predicate IsRanking(words: Words, pool: seq<MemoryEntry>, query: string, ranked: seq<MemoryEntry>, at: seq<nat>) {
    && IsRanked(pool, (e: MemoryEntry) => Relevance(words, query, e) as real, ranked, at)
    && forall i | 0 <= i < |pool| :: i in at <==> Relevance(words, query, pool[i]) > 0
  }

  /** What is found are the first ones of that ranking: at most `limit` of them, or all but the last `-limit`. */
  ghost predicate IsRecall(words: Words, pool: seq<MemoryEntry>, query: string, limit: int, found: seq<MemoryEntry>) {
    exists at: seq<nat> :: IsFirstOf(words, pool, query, limit, found, at)
  }

  ghost predicate IsFirstOf(words: Words, pool: seq<MemoryEntry>, query: string, limit: int, found: seq<MemoryEntry>,
                            at: seq<nat>) {
    && InRange(pool, at)
    && var ranked := Elements(pool, at);
       && IsRanking(words, pool, query, ranked, at)
       && if limit >= 0 then found == ranked[..if limit < |ranked| then limit else |ranked|]
          else if |ranked| + limit >= 0 then found == ranked[..|ranked| + limit]
          else found == []
  }

  // ---------- The adapter ----------

  predicate Numbered(entries: seq<MemoryEntry>, prefix: string, layer: string) {
    forall i {:trigger entries[i]} | 0 <= i < |entries| ::
      entries[i].entryId == prefix + Text(i) && entries[i].layer == layer
  }

  lemma PartsFound(p: string, m: nat, q: string, n: nat)
    requires p in {"ep-", "sem-", "proc-"} && q in {"ep-", "sem-", "proc-"}
    requires p + Text(m) == q + Text(n)
    ensures p == q && m == n
  {
    assert (p + Text(m))[0] == (q + Text(n))[0];
    assert (p + Text(m))[|p|..] == Text(m) && (q + Text(n))[|q|..] == Text(n);
    TextInjective(m, n);
  }

  lemma RelevantSnoc(words: Words, pool: seq<MemoryEntry>, e: MemoryEntry, query: string)
    ensures words.Relevant(pool + [e], query) ==
            words.Relevant(pool, query) + if words.Score(query, e.content) > 0 then [e] else []
  {
  }

  class HermesMemoryAdapter {
    const words: Words
    var episodic: seq<MemoryEntry>
    var semantic: seq<MemoryEntry>
    var procedural: seq<MemoryEntry>

    constructor (words: Words)
      ensures Valid() && this.words == words && Everything() == []
    {
      this.words := words;
      episodic, semantic, procedural := [], [], [];
    }

    /** Ids count up within a layer. */
    ghost predicate Valid()
      reads this
    {
      Numbered(episodic, "ep-", "episodic") && Numbered(semantic, "sem-", "semantic")
      && Numbered(procedural, "proc-", "procedural")
    }

    function Everything(): seq<MemoryEntry>
      reads this
    {
      episodic + semantic + procedural
    }

    /** What a layer name selects: no name means all layers, an unknown name none. */
    function Pool(layer: Option<string>): seq<MemoryEntry>
      reads this
    {
      (if layer == None || layer == Some("episodic") then episodic else [])
      + (if layer == None || layer == Some("semantic") then semantic else [])
      + (if layer == None || layer == Some("procedural") then procedural else [])
    }

    /** The caller's metadata go on top of the task id. */
    method StoreEpisodic(taskId: string, content: string, metadata: Metadata := map[]) returns (id: string)
      requires Valid()
      modifies this
      ensures Valid() && semantic == old(semantic) && procedural == old(procedural)
      ensures id == "ep-" + Text(|old(episodic)|)
      ensures exists e :: fresh(e) && episodic == old(episodic) + [e] && e.entryId == id
                              && e.Says(content, map["task_id" := Note(taskId)] + metadata)
    {
      var e := new MemoryEntry("ep-" + Text(|episodic|), "episodic", content, map["task_id" := Note(taskId)] + metadata);
      episodic := episodic + [e];
      id := e.entryId;
    }

    method StoreSemantic(fact: string, source: string := "") returns (id: string)
      requires Valid()
      modifies this
      ensures Valid() && episodic == old(episodic) && procedural == old(procedural)
      ensures id == "sem-" + Text(|old(semantic)|)
      ensures exists e :: fresh(e) && semantic == old(semantic) + [e] && e.entryId == id
                              && e.Says(fact, map["source" := Note(source)])
    {
      var e := new MemoryEntry("sem-" + Text(|semantic|), "semantic", fact, map["source" := Note(source)]);
      semantic := semantic + [e];
      id := e.entryId;
    }

    method StoreProcedural(skillName: string, steps: seq<string>, successRate: real := 1.0) returns (id: string)
      requires Valid()
      modifies this
      ensures Valid() && episodic == old(episodic) && semantic == old(semantic)
      ensures id == "proc-" + Text(|old(procedural)|)
      ensures exists e :: fresh(e) && procedural == old(procedural) + [e] && e.entryId == id
                              && e.Says(skillName, map["steps" := Steps(steps), "success_rate" := Rate(successRate)])
    {
      var e := new MemoryEntry("proc-" + Text(|procedural|), "procedural", skillName,
                               map["steps" := Steps(steps), "success_rate" := Rate(successRate)]);
      procedural := procedural + [e];
      id := e.entryId;
    }

    lemma PoolSelects(layer: string)
      ensures Pool(None) == episodic + semantic + procedural
      ensures Pool(Some("episodic")) == episodic && Pool(Some("semantic")) == semantic
      ensures Pool(Some("procedural")) == procedural
      ensures layer !in {"episodic", "semantic", "procedural"} ==> Pool(Some(layer)) == []
    {
    }

    /** The prefix and the number that make up the id of an entry. */
    function IdParts(i: nat): (string, nat)
      requires i < |Everything()|
      reads this
    {
      if i < |episodic| then ("ep-", i)
      else if i < |episodic| + |semantic| then ("sem-", i - |episodic|)
      else ("proc-", i - |episodic| - |semantic|)
    }

    /** No id was ever handed out twice, in one layer or in two. */
    lemma IdsDiffer(i: nat, j: nat)
      requires Valid() && i < j < |Everything()|
      ensures Everything()[i].entryId != Everything()[j].entryId
    {
      assert Everything()[i].entryId == IdParts(i).0 + Text(IdParts(i).1);
      assert Everything()[j].entryId == IdParts(j).0 + Text(IdParts(j).1);
      if Everything()[i].entryId == Everything()[j].entryId {
        PartsFound(IdParts(i).0, IdParts(i).1, IdParts(j).0, IdParts(j).1);
      }
    }

    /** Rates the pool in place and returns its best entries. An entry that scores nothing keeps the
        rating of an earlier recall. */
    method Recall(query: string, layer: Option<string> := None, limit: int := 5) returns (found: seq<MemoryEntry>)
      requires Valid()
      modifies Pool(layer)
      ensures Valid()
      ensures found == UpTo(words.Ranked(Pool(layer), query), limit)
      ensures IsRecall(words, Pool(layer), query, limit, found)
      ensures forall e <- Pool(layer) :: e.relevanceScore ==
                if Relevance(words, query, e) > 0 then Relevance(words, query, e) else old(e.relevanceScore)
    {
      var scored := RateAll(Pool(layer), query);
      found := UpTo(Sort(scored, words.Key(query)), limit);
      forall e | e in Pool(layer) ensures words.Score(query, e.content) == Relevance(words, query, e) {
        ScoreIsRelevance(words, query, e);
      }
      RankedIsRanking(words, Pool(layer), query, limit);
    }

    method RateAll(pool: seq<MemoryEntry>, query: string) returns (scored: seq<MemoryEntry>)
      modifies pool
      ensures scored == words.Relevant(pool, query)
      ensures forall e <- pool :: e.relevanceScore == NewRating(e, query, old(e.relevanceScore))
    {
      scored := [];
      for i := 0 to |pool|
        invariant scored == words.Relevant(pool[..i], query)
        invariant forall e <- pool :: e.relevanceScore ==
                    if e in pool[..i] then NewRating(e, query, old(e.relevanceScore)) else old(e.relevanceScore)
      {
        assert pool[..i + 1] == pool[..i] + [pool[i]];
        RelevantSnoc(words, pool[..i], pool[i], query);
        var hit := RateOne(pool[i], query);
        if hit {
          scored := scored + [pool[i]];
        }
      }
      assert pool[..|pool|] == pool;
    }

    method RateOne(e: MemoryEntry, query: string) returns (hit: bool)
      modifies e
      ensures e.relevanceScore == NewRating(e, query, old(e.relevanceScore))
      ensures hit <==> words.Score(query, e.content) > 0
    {
      var score := words.Score(query, e.content);
      hit := score > 0;
      if hit {
        e.SetScore(score);
      }
    }

    function NewRating(e: MemoryEntry, query: string, rating: nat): nat {
      var score := words.Score(query, e.content);
      if score > 0 then score else rating
    }
  }

  // ---------- Recall is a stable top-k ----------

  lemma {:induction false} RelevantKeeps(words: Words, pool: seq<MemoryEntry>, query: string) returns (at: seq<nat>)
    ensures Keeps(pool, words.Relevant(pool, query), at)
    ensures forall i | 0 <= i < |pool| :: i in at <==> Relevance(words, query, pool[i]) > 0
  {
    at := [];
    if pool != [] {
      var n := |pool| - 1;
      at := RelevantKeeps(words, pool[..n], query);
      assert pool == pool[..n] + [pool[n]];
      KeepsNext(pool[..n], words.Relevant(pool[..n], query), at, pool[n]);
      ScoreIsRelevance(words, query, pool[n]);
      if words.Score(query, pool[n].content) > 0 {
        at := at + [n];
      }
    }
  }

  lemma RankedIsRanking(words: Words, pool: seq<MemoryEntry>, query: string, limit: int)
    ensures IsRecall(words, pool, query, limit, UpTo(words.Ranked(pool, query), limit))
  {
    var from := RelevantKeeps(words, pool, query);
    var wanted := (e: MemoryEntry) => words.Score(query, e.content) > 0;
    forall i | 0 <= i < |pool| ensures words.Score(query, pool[i].content) == Relevance(words, query, pool[i]) {
      ScoreIsRelevance(words, query, pool[i]);
    }
    var at := KeptAndSorted(pool, wanted, words.Key(query), words.Relevant(pool, query), from);
    SameRanking(pool, words.Key(query), (e: MemoryEntry) => Relevance(words, query, e) as real,
                words.Ranked(pool, query), at);
    assert Elements(pool, at) == words.Ranked(pool, query);
    assert IsFirstOf(words, pool, query, limit, UpTo(words.Ranked(pool, query), limit), at);
  }

  /** With a limit that is not negative a recall is a stable top-k: as many entries as the limit allows, none
      of which is outscored by an omitted one, and of equal scores the first ones, in pool order. */
  lemma TopK(words: Words, pool: seq<MemoryEntry>, query: string, limit: nat, found: seq<MemoryEntry>) returns (at: seq<nat>)
    requires IsRecall(words, pool, query, limit, found)
    ensures IsBest(pool, (e: MemoryEntry) => Relevance(words, query, e) > 0,
                   (e: MemoryEntry) => Relevance(words, query, e) as real, found, at)
    ensures |found| <= limit
    ensures |found| < limit ==> HoldsAll(pool, (e: MemoryEntry) => Relevance(words, query, e) > 0, at)
  {
    var all :| IsFirstOf(words, pool, query, limit, found, all);
    var ranked, n := Elements(pool, all), |found|;
    forall k | 0 <= k < |all| ensures Relevance(words, query, pool[all[k]]) > 0 {
      assert all[k] in all;
    }
    FrontIsBest(pool, (e: MemoryEntry) => Relevance(words, query, e) > 0,
                (e: MemoryEntry) => Relevance(words, query, e) as real, ranked, all, n);
    at := all[..n];
  }
}
