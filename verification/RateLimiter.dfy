/** The injection rate limiter of the virtual input driver: `write` accepts an event only when enough
    time has passed since the last accepted one.  Machine widths are written out: the product
    `rate_limit_us * 1000` is a 32-bit unsigned one, the time difference a 64-bit one. */
module RateLimiter {
  import opened Arithmetic

  const TWO32: int := 0x1_0000_0000
  const TWO64: int := 0x1_0000_0000_0000_0000

  type U32 = x: int | 0 <= x < TWO32
  type U64 = x: int | 0 <= x < TWO64

  /** The gap the driver enforces, in nanoseconds, after 32-bit wrap-around. */
  function Gap(rateLimitUs: U32): U32 {
    (rateLimitUs * 1000) % TWO32
  }

  /** The gap the driver is configured for. */
  function NominalGap(rateLimitUs: U32): int {
    rateLimitUs * 1000
  }

  /** A zero limit switches the check off. */
  function EnforcedGap(rateLimitUs: U32): U32 {
    if rateLimitUs == 0 then 0 else Gap(rateLimitUs)
  }

  function Elapsed(now: U64, last: U64): U64 {
    (now - last) % TWO64
  }

  predicate Accepts(rateLimitUs: U32, last: U64, now: U64) {
    !(rateLimitUs > 0 && Elapsed(now, last) < Gap(rateLimitUs))
  }

  datatype WriteResult = Written | EInval | EFault | EBusy

  const EVENT_SIZE: nat := 24

  class InputDevice {
    const rateLimitUs: U32
    var lastInjectTime: U64
    /** The times of all well-formed write attempts so far, and of those that were injected. */
    ghost var attempts: seq<U64>
    ghost var injected: seq<U64>

    /** The device has followed the run of its attempts from the zeroed state. */
    ghost predicate Valid()
      reads this
    {
      && injected == Accepted(rateLimitUs, 0, attempts)
      && lastInjectTime == LastOf(0, injected)
    }

    /** The zeroed device, with the limit it is given; the module itself sets one millisecond. */
    constructor (rateLimitUs: U32 := 1000)
      ensures Valid() && this.rateLimitUs == rateLimitUs && lastInjectTime == 0 && attempts == []
    {
      this.rateLimitUs, lastInjectTime := rateLimitUs, 0;
      attempts, injected := [], [];
    }

    /** One write of `count` bytes at time `now`; `copied` tells whether the user buffer was readable. */
    method Write(count: nat, copied: bool, now: U64) returns (r: WriteResult)
      requires Valid()
      modifies this
      ensures Valid()
      ensures count < 24 ==> r == EInval
      ensures count >= 24 && !copied ==> r == EFault
      ensures count >= 24 && copied ==>
                r == if rateLimitUs > 0
                        && (now - old(lastInjectTime)) % 0x1_0000_0000_0000_0000 < (rateLimitUs * 1000) % 0x1_0000_0000
                     then EBusy else Written
      ensures count >= EVENT_SIZE && copied ==>
                r == if Accepts(rateLimitUs, old(lastInjectTime), now) then Written else EBusy
      ensures lastInjectTime == if r == Written then now else old(lastInjectTime)
      ensures attempts == if r == Written || r == EBusy then old(attempts) + [now] else old(attempts)
    {
      if count < EVENT_SIZE {
        return EInval;
      }
      if !copied {
        return EFault;
      }
      AcceptedSnoc(rateLimitUs, 0, attempts, now);
      attempts := attempts + [now];
      if rateLimitUs > 0 && Elapsed(now, lastInjectTime) < Gap(rateLimitUs) {
        return EBusy;
      }
      lastInjectTime := now;
      injected := injected + [now];
      return Written;
    }
  }

  // ---------- Runs ----------

  /** The times accepted out of a run of well-formed write attempts. */
  function Accepted(rate: U32, last: U64, ts: seq<U64>): seq<U64>
    decreases |ts|
  {
    if ts == [] then []
    else if Accepts(rate, last, ts[0]) then [ts[0]] + Accepted(rate, ts[0], ts[1..])
    else Accepted(rate, last, ts[1..])
  }

  function LastOf(last: U64, ts: seq<U64>): U64 {
    if ts == [] then last else ts[|ts| - 1]
  }

  /** One more attempt is judged by the last accepted one alone. */
  lemma {:induction false} AcceptedSnoc(rate: U32, last: U64, ts: seq<U64>, t: U64)
    ensures Accepted(rate, last, ts + [t]) ==
            Accepted(rate, last, ts) + if Accepts(rate, LastOf(last, Accepted(rate, last, ts)), t) then [t] else []
    decreases |ts|
  {
    if ts == [] {
      assert (ts + [t])[1..] == [];
    } else {
      AcceptedSnoc(rate, if Accepts(rate, last, ts[0]) then ts[0] else last, ts[1..], t);
      assert (ts + [t])[1..] == ts[1..] + [t];
    }
  }

  /** The monotone clock: attempts come no earlier than the last injection and in time order. */
  predicate Monotone(last: U64, ts: seq<U64>) {
    && (ts != [] ==> last <= ts[0])
    && forall i, j | 0 <= i < j < |ts| :: ts[i] <= ts[j]
  }

  /** Any two of the times are at least `gap` apart, and all are that far after `last`. */
  predicate Spaced(gap: int, last: int, ts: seq<U64>) {
    && (forall i | 0 <= i < |ts| :: ts[i] - last >= gap)
    && forall i, j | 0 <= i < j < |ts| :: ts[j] - ts[i] >= gap
  }

  /** The attempts that a mask selects. */
  function Chosen(ts: seq<U64>, mask: seq<bool>): seq<U64>
    requires |mask| == |ts|
  {
    if ts == [] then []
    else if mask[0] then [ts[0]] + Chosen(ts[1..], mask[1..])
    else Chosen(ts[1..], mask[1..])
  }

  lemma MonotoneTail(last: U64, ts: seq<U64>, from: U64)
    requires Monotone(last, ts) && ts != [] && from <= ts[0]
    ensures Monotone(from, ts[1..])
  {
  }

  lemma {:induction false} AcceptedFrom(rate: U32, last: U64, ts: seq<U64>)
    requires Monotone(last, ts)
    ensures Monotone(last, Accepted(rate, last, ts))
    ensures forall t <- Accepted(rate, last, ts) :: t in ts
    decreases |ts|
  {
    if ts != [] {
      var next := if Accepts(rate, last, ts[0]) then ts[0] else last;
      MonotoneTail(last, ts, next);
      AcceptedFrom(rate, next, ts[1..]);
    }
  }

  lemma SpacedCons(gap: int, last: int, t: U64, ts: seq<U64>)
    requires last <= t && t - last >= gap && Spaced(gap, t, ts)
    ensures Spaced(gap, last, [t] + ts)
  {
  }

  /** Rate bound, pairwise: accepted injections are at least the enforced gap apart. */
  lemma {:induction false} AcceptedSpaced(rate: U32, last: U64, ts: seq<U64>)
    requires Monotone(last, ts)
    ensures Spaced(EnforcedGap(rate), last, Accepted(rate, last, ts))
    decreases |ts|
  {
    if ts != [] {
      var next := if Accepts(rate, last, ts[0]) then ts[0] else last;
      MonotoneTail(last, ts, next);
      AcceptedSpaced(rate, next, ts[1..]);
      AcceptedFrom(rate, next, ts[1..]);
      if next == ts[0] && Accepts(rate, last, ts[0]) {
        SpacedCons(EnforcedGap(rate), last, ts[0], Accepted(rate, next, ts[1..]));
      }
    }
  }

  lemma {:induction false} ChosenFrom(ts: seq<U64>, mask: seq<bool>)
    requires |mask| == |ts|
    ensures forall t <- Chosen(ts, mask) :: t in ts
  {
    if ts != [] {
      ChosenFrom(ts[1..], mask[1..]);
    }
  }

  lemma SpacedTail(gap: int, last: int, ts: seq<U64>, from: int)
    requires Spaced(gap, last, ts) && ts != [] && from <= ts[0]
    ensures Spaced(gap, from, ts[1..])
  {
  }

  lemma EarlierThanPick(last: U64, ts: seq<U64>, pick: seq<U64>)
    requires Monotone(last, ts) && ts != [] && pick != [] && forall t <- pick :: t in ts[1..]
    ensures ts[0] <= pick[0]
  {
    assert pick[0] in pick;
    var j :| 0 <= j < |ts[1..]| && ts[1..][j] == pick[0];
    assert ts[0] <= ts[j + 1];
  }

  lemma ChosenHead(gap: int, last: int, ts: seq<U64>, mask: seq<bool>)
    requires |mask| == |ts| && ts != [] && Spaced(gap, last, Chosen(ts, mask))
    ensures mask[0] ==> ts[0] - last >= gap
  {
    if mask[0] {
      assert Chosen(ts, mask)[0] == ts[0];
    }
  }

  /** Greedy optimality: no choice of attempts that respects the gap is larger than the driver's. */
  lemma {:induction false} GreedyOptimal(rate: U32, last: U64, ts: seq<U64>, mask: seq<bool>)
    requires Monotone(last, ts) && |mask| == |ts|
    requires Spaced(EnforcedGap(rate), last, Chosen(ts, mask))
    ensures |Chosen(ts, mask)| <= |Accepted(rate, last, ts)|
    decreases |ts|
  {
    if ts != [] {
      var gap := EnforcedGap(rate);
      var rest, pick := ts[1..], Chosen(ts[1..], mask[1..]);
      ChosenFrom(rest, mask[1..]);
      if Accepts(rate, last, ts[0]) {
        MonotoneTail(last, ts, ts[0]);
        if mask[0] {
          assert Chosen(ts, mask)[1..] == pick;
          SpacedAfterFirst(gap, last, Chosen(ts, mask));
          GreedyOptimal(rate, ts[0], rest, mask[1..]);
        } else if pick != [] {
          // the driver took an attempt that the choice skipped: let the choice drop its first one
          EarlierThanPick(last, ts, pick);
          SpacedTail(gap, last, pick, ts[0]);
          var mask' := DropFirst(rest, mask[1..]);
          GreedyOptimal(rate, ts[0], rest, mask');
        }
      } else {
        ChosenHead(gap, last, ts, mask);
        MonotoneTail(last, ts, last);
        GreedyOptimal(rate, last, rest, mask[1..]);
      }
    }
  }

  lemma SpacedAfterFirst(gap: int, last: int, ts: seq<U64>)
    requires Spaced(gap, last, ts) && ts != []
    ensures Spaced(gap, ts[0], ts[1..])
  {
  }

  /** The mask that selects the same attempts but the first. */
  lemma {:induction false} DropFirst(ts: seq<U64>, mask: seq<bool>) returns (mask': seq<bool>)
    requires |mask| == |ts| && Chosen(ts, mask) != []
    ensures |mask'| == |ts| && Chosen(ts, mask') == Chosen(ts, mask)[1..]
  {
    var rest := mask[1..];
    if !mask[0] {
      rest := DropFirst(ts[1..], mask[1..]);
    }
    mask' := [false] + rest;
    assert mask'[1..] == rest;
  }

  /** The driver's own choice is one of those it is compared with. */
  lemma {:induction false} AcceptedIsChoice(rate: U32, last: U64, ts: seq<U64>) returns (mask: seq<bool>)
    ensures |mask| == |ts| && Chosen(ts, mask) == Accepted(rate, last, ts)
    decreases |ts|
  {
    if ts == [] {
      mask := [];
    } else {
      var ok := Accepts(rate, last, ts[0]);
      var rest := AcceptedIsChoice(rate, if ok then ts[0] else last, ts[1..]);
      mask := [ok] + rest;
      assert mask[1..] == rest;
    }
  }

  // ---------- Counting ----------

  lemma {:induction false} SpanOfSpaced(gap: int, ts: seq<U64>, last: int)
    requires Spaced(gap, last, ts) && ts != [] && gap >= 0
    ensures ts[|ts| - 1] - ts[0] >= (|ts| - 1) * gap
    decreases |ts|
  {
    if |ts| > 1 {
      SpacedAfterFirst(gap, last, ts);
      SpanOfSpaced(gap, ts[1..], ts[0]);
      Step(|ts| - 2, gap);
    }
  }

  /** The accepted times that fall into a window. */
  function Within(ts: seq<U64>, a: int, b: int): seq<U64> {
    if ts == [] then []
    else (if a <= ts[0] <= b then [ts[0]] else []) + Within(ts[1..], a, b)
  }

  lemma {:induction false} WithinSpaced(gap: int, last: int, ts: seq<U64>, a: int, b: int)
    requires Spaced(gap, last, ts)
    ensures Spaced(gap, last, Within(ts, a, b))
    ensures forall t <- Within(ts, a, b) :: a <= t <= b && t in ts
    decreases |ts|
  {
    if ts != [] {
      var w := Within(ts[1..], a, b);
      assert Spaced(gap, last, ts[1..]);
      WithinSpaced(gap, last, ts[1..], a, b);
      SpacedAfterFirst(gap, last, ts);
      WithinSpaced(gap, ts[0], ts[1..], a, b);
    }
  }

  lemma WindowOfSpaced(gap: int, last: int, ts: seq<U64>, a: int, b: int)
    requires Spaced(gap, last, ts) && gap > 0 && a <= b
    ensures |Within(ts, a, b)| <= (b - a) / gap + 1
  {
    var w := Within(ts, a, b);
    Divide(b - a, gap);
    QuotientBound(0, gap, b - a);
    if w != [] {
      WindowSpan(gap, last, ts, a, b);
      QuotientBound(|w| - 1, gap, b - a);
    }
  }

  lemma WindowSpan(gap: int, last: int, ts: seq<U64>, a: int, b: int)
    requires Spaced(gap, last, ts) && gap > 0 && Within(ts, a, b) != []
    ensures (|Within(ts, a, b)| - 1) * gap <= b - a
  {
    var w := Within(ts, a, b);
    WithinSpaced(gap, last, ts, a, b);
    SpanOfSpaced(gap, w, last);
    assert w[0] in w && w[|w| - 1] in w;
  }

  /** Rate bound, counted: a window from `a` to `b` holds at most `(b - a) / gap + 1` injections. */
  lemma WindowBound(rate: U32, last: U64, ts: seq<U64>, a: int, b: int)
    requires Monotone(last, ts) && rate > 0 && Gap(rate) > 0 && a <= b
    ensures |Within(Accepted(rate, last, ts), a, b)| <= (b - a) / Gap(rate) + 1
  {
    AcceptedSpaced(rate, last, ts);
    WindowOfSpaced(Gap(rate), last, Accepted(rate, last, ts), a, b);
  }

  // ---------- Refused writes ----------

  /** Refused writes leave no trace: without them the same injections are accepted. */
  lemma {:induction false} RefusalsDoNotDelay(rate: U32, last: U64, ts: seq<U64>)
    ensures Accepted(rate, last, Accepted(rate, last, ts)) == Accepted(rate, last, ts)
    decreases |ts|
  {
    if ts != [] {
      if Accepts(rate, last, ts[0]) {
        RefusalsDoNotDelay(rate, ts[0], ts[1..]);
      } else {
        RefusalsDoNotDelay(rate, last, ts[1..]);
      }
    }
  }

  // ---------- The 32-bit product ----------

  /** The configured gap is kept in all runs exactly when its product with 1000 does not wrap. */
  lemma NominalGapKeptIff(rate: U32)
    ensures NominalGap(rate) < TWO32
       <==> forall last: U64, ts: seq<U64> | Monotone(last, ts) :: Spaced(NominalGap(rate), last, Accepted(rate, last, ts))
  {
    if NominalGap(rate) < TWO32 {
      forall last: U64, ts: seq<U64> | Monotone(last, ts)
        ensures Spaced(NominalGap(rate), last, Accepted(rate, last, ts))
      {
        AcceptedSpaced(rate, last, ts);
      }
    } else {
      TooEarly(rate);
    }
  }

  /** When the product wraps, one write at the wrapped gap after boot is accepted too early. */
  lemma TooEarly(rate: U32)
    requires NominalGap(rate) >= TWO32
    ensures Monotone(0, [Gap(rate)]) && !Spaced(NominalGap(rate), 0, Accepted(rate, 0, [Gap(rate)]))
  {
    var ts: seq<U64> := [Gap(rate)];
    assert Accepts(rate, 0, ts[0]);
    assert Accepted(rate, 0, ts) == [ts[0]] + Accepted(rate, ts[0], ts[1..]);
    assert Accepted(rate, 0, ts)[0] == Gap(rate);
  }

  /** For one: a limit of 4294968 microseconds, a little over four seconds, lets events through
      after 704 nanoseconds. */
  lemma WrapExample()
    ensures NominalGap(4294968) == 4294968000 && Gap(4294968) == 704
    ensures Accepted(4294968, 0, [704, 1408]) == [704, 1408]
  {
  }
}
