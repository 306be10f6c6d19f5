/** Token and cost budgets: a task may consume as long as neither limit has been reached. */
module Budget {

  type TaskId = string

  datatype Account = Account(tokenLimit: int, costLimit: real, tokensUsed: int, costUsed: real)

  datatype Amount = Amount(tokens: int, cost: real)

  function TokensRemaining(a: Account): int {
    if a.tokenLimit - a.tokensUsed > 0 then a.tokenLimit - a.tokensUsed else 0
  }

  function CostRemaining(a: Account): real {
    if a.costLimit - a.costUsed > 0.0 then a.costLimit - a.costUsed else 0.0
  }

  predicate IsExhausted(a: Account) {
    TokensRemaining(a) == 0 || CostRemaining(a) <= 0.0
  }

  function Consumed(a: Account, x: Amount): Account {
    if IsExhausted(a) then a
    else a.(tokensUsed := a.tokensUsed + x.tokens, costUsed := a.costUsed + x.cost)
  }

  /** What one call of the manager does to the accounts of all tasks. */
  datatype Call = Create(task: TaskId, tokenLimit: int, costLimit: real) | Charge(task: TaskId, amount: Amount)

  type Ledger = map<TaskId, Account>

  function NewAccount(tokenLimit: int, costLimit: real): Account {
    Account(tokenLimit, costLimit, 0, 0.0)
  }

  function AfterCall(m: Ledger, c: Call): Ledger {
    match c
    case Create(t, tokenLimit, costLimit) => m[t := NewAccount(tokenLimit, costLimit)]
    case Charge(t, x) => if t in m then m[t := Consumed(m[t], x)] else m
  }

  class BudgetState {
    const taskId: TaskId
    const tokenLimit: int
    const costLimit: real
    var tokensUsed: int
    var costUsed: real

    constructor (taskId: TaskId, tokenLimit: int, costLimit: real)
      ensures this.taskId == taskId && View() == Account(tokenLimit, costLimit, 0, 0.0)
    {
      this.taskId, this.tokenLimit, this.costLimit, tokensUsed, costUsed := taskId, tokenLimit, costLimit, 0, 0.0;
    }

    function View(): Account
      reads this
    {
      Account(tokenLimit, costLimit, tokensUsed, costUsed)
    }
  }

  class BudgetManager {
    var budgets: map<TaskId, BudgetState>

    constructor ()
      ensures budgets == map[] && Valid()
    {
      budgets := map[];
    }

    /** Every budget is filed under its own task. */
    predicate Valid()
      reads this
    {
      forall t | t in budgets :: budgets[t].taskId == t
    }

    function Accounts(): (m: map<TaskId, Account>)
      reads this, budgets.Values
      ensures m.Keys == budgets.Keys && forall t | t in m :: m[t] == budgets[t].View()
    {
      map t | t in budgets :: budgets[t].View()
    }

    /** Files a fresh budget, in place of the task's earlier one if there is one. */
    method CreateBudget(taskId: TaskId, tokenLimit: int := 100000, costLimit: real := 10.0) returns (budget: BudgetState)
      requires Valid()
      modifies this
      ensures Valid() && fresh(budget) && budgets == old(budgets)[taskId := budget]
      ensures Accounts() == AfterCall(old(Accounts()), Create(taskId, tokenLimit, costLimit))
      ensures budget.View() == Account(tokenLimit, costLimit, 0, 0.0)
    {
      budget := new BudgetState(taskId, tokenLimit, costLimit);
      budgets := budgets[taskId := budget];
    }

    /** Charges a task; false when it has no budget or has exhausted it.  Other tasks are untouched. */
    method Consume(taskId: TaskId, tokens: int, cost: real := 0.0) returns (ok: bool)
      requires Valid()
      modifies if taskId in budgets then {budgets[taskId]} else {}
      ensures Valid()
      ensures ok <==> taskId in budgets && !IsExhausted(old(Accounts())[taskId])
      ensures taskId in budgets ==>
                var b := budgets[taskId];
                && (ok <==> old(b.tokensUsed) < b.tokenLimit && old(b.costUsed) < b.costLimit)
                && b.tokensUsed == old(b.tokensUsed) + (if ok then tokens else 0)
                && b.costUsed == old(b.costUsed) + (if ok then cost else 0.0)
      ensures Accounts() == AfterCall(old(Accounts()), Charge(taskId, Amount(tokens, cost)))
    {
      if taskId !in budgets {
        return false;
      }
      var budget := budgets[taskId];
      if IsExhausted(budget.View()) {
        return false;
      }
      budget.tokensUsed := budget.tokensUsed + tokens;
      budget.costUsed := budget.costUsed + cost;
      return true;
    }
  }

  // ---------- Runs on one budget ----------

  function AfterAll(a: Account, xs: seq<Amount>): Account
    decreases |xs|
  {
    if xs == [] then a else AfterAll(Consumed(a, xs[0]), xs[1..])
  }

  /** What the calls return, in order. */
  function Results(a: Account, xs: seq<Amount>): seq<bool>
    decreases |xs|
  {
    if xs == [] then [] else [!IsExhausted(a)] + Results(Consumed(a, xs[0]), xs[1..])
  }

  function TokensOf(xs: seq<Amount>): int {
    if xs == [] then 0 else xs[0].tokens + TokensOf(xs[1..])
  }

  function CostOf(xs: seq<Amount>): real {
    if xs == [] then 0.0 else xs[0].cost + CostOf(xs[1..])
  }

  /** How many of the calls are accepted. */
  function Accepted(a: Account, xs: seq<Amount>): (n: nat)
    ensures n <= |xs|
    decreases |xs|
  {
    if xs == [] || IsExhausted(a) then 0 else 1 + Accepted(Consumed(a, xs[0]), xs[1..])
  }

  lemma {:induction false} FrozenWhenExhausted(a: Account, xs: seq<Amount>)
    requires IsExhausted(a)
    ensures AfterAll(a, xs) == a
    ensures |Results(a, xs)| == |xs| && forall i | 0 <= i < |xs| :: !Results(a, xs)[i]
    decreases |xs|
  {
    if xs != [] {
      FrozenWhenExhausted(a, xs[1..]);
    }
  }

  /** Conservation: a run is a block of accepted calls followed by refused ones, and what is used in
      the end is what the accepted ones asked for, no more and no less. */
  lemma {:induction false} Conservation(a: Account, xs: seq<Amount>)
    ensures |Results(a, xs)| == |xs|
    ensures forall i | 0 <= i < |xs| :: Results(a, xs)[i] <==> i < Accepted(a, xs)
    ensures AfterAll(a, xs) == a.(tokensUsed := a.tokensUsed + TokensOf(xs[..Accepted(a, xs)]),
                                  costUsed := a.costUsed + CostOf(xs[..Accepted(a, xs)]))
    decreases |xs|
  {
    if IsExhausted(a) {
      FrozenWhenExhausted(a, xs);
    } else if xs != [] {
      var n := Accepted(a, xs);
      Conservation(Consumed(a, xs[0]), xs[1..]);
      assert xs[..n][1..] == xs[1..][..n - 1];
    }
  }

  /** Where the block ends: at the first call that finds the budget used up by those before it. */
  lemma {:induction false} AcceptedUntilExhausted(a: Account, xs: seq<Amount>, i: nat)
    requires i <= |xs|
    ensures i < Accepted(a, xs) ==> !IsExhausted(AfterAll(a, xs[..i]))
    ensures i == Accepted(a, xs) < |xs| ==> IsExhausted(AfterAll(a, xs[..i]))
    decreases |xs|
  {
    if i > 0 && !IsExhausted(a) {
      AcceptedUntilExhausted(Consumed(a, xs[0]), xs[1..], i - 1);
      assert xs[..i][1..] == xs[1..][..i - 1];
    }
  }

  /** Overshoot: with no call asking for more than `max`, the use never exceeds the limit by more than
      `max - 1`; and the cost stays below its limit and the largest cost together. */
  lemma {:induction false} Overshoot(a: Account, xs: seq<Amount>, max: int, maxCost: real)
    requires forall x <- xs :: x.tokens <= max && x.cost <= maxCost
    requires a.tokensUsed <= a.tokenLimit - 1 + max && a.costUsed < a.costLimit + maxCost
    ensures AfterAll(a, xs).tokensUsed <= a.tokenLimit - 1 + max
    ensures AfterAll(a, xs).costUsed < a.costLimit + maxCost
    decreases |xs|
  {
    if xs != [] {
      assert xs[0] in xs && forall x <- xs[1..] :: x in xs;
      Overshoot(Consumed(a, xs[0]), xs[1..], max, maxCost);
    }
  }

  /** For a fresh budget of at least one token. */
  lemma FreshOvershoot(tokenLimit: int, costLimit: real, xs: seq<Amount>, max: nat, maxCost: real)
    requires 1 <= tokenLimit && 0.0 < costLimit && 0.0 <= maxCost
    requires forall x <- xs :: x.tokens <= max && x.cost <= maxCost
    ensures var a := AfterAll(NewAccount(tokenLimit, costLimit), xs);
            a.tokensUsed <= tokenLimit - 1 + max && a.costUsed < costLimit + maxCost
  {
    Overshoot(NewAccount(tokenLimit, costLimit), xs, max, maxCost);
  }

  function Ones(n: nat): (xs: seq<Amount>)
    ensures |xs| == n && forall x <- xs :: x == Amount(1, 0.0)
  {
    if n == 0 then [] else [Amount(1, 0.0)] + Ones(n - 1)
  }

  /** One token at a time a budget can be used up to the last token, and one more call can follow. */
  lemma {:induction false} OnesThenOne(a: Account, n: nat, x: Amount)
    requires a.tokensUsed + n < a.tokenLimit && a.costUsed < a.costLimit
    ensures AfterAll(a, Ones(n) + [x]).tokensUsed == a.tokensUsed + n + x.tokens
    decreases n
  {
    if n == 0 {
      assert Ones(0) + [x] == [x] && [x][1..] == [];
      assert AfterAll(a, [x]) == AfterAll(Consumed(a, x), []);
    } else {
      var xs := Ones(n) + [x];
      assert xs[0] == Amount(1, 0.0) && xs[1..] == Ones(n - 1) + [x];
      OnesThenOne(Consumed(a, xs[0]), n - 1, x);
    }
  }

  /** The bound is reached on every budget with calls of every size: some run of calls that ask for at
      most `max` uses exactly `tokenLimit - 1 + max`. */
  lemma OvershootIsTight(tokenLimit: int, costLimit: real, max: int) returns (xs: seq<Amount>)
    requires 1 <= tokenLimit && 0.0 < costLimit && 1 <= max
    ensures forall x <- xs :: 1 <= x.tokens <= max && x.cost == 0.0
    ensures AfterAll(NewAccount(tokenLimit, costLimit), xs).tokensUsed == tokenLimit - 1 + max
  {
    xs := Ones(tokenLimit - 1) + [Amount(max, 0.0)];
    OnesThenOne(NewAccount(tokenLimit, costLimit), tokenLimit - 1, Amount(max, 0.0));
  }

  // ---------- Runs on all budgets ----------

  function AfterCalls(m: Ledger, calls: seq<Call>): Ledger {
    if calls == [] then m else AfterCall(AfterCalls(m, calls[..|calls| - 1]), calls[|calls| - 1])
  }

  /** The account a task's last budget began as, and what has been asked of it since. */
  datatype Own = NoBudget | Since(start: Account, asked: seq<Amount>)

  function OwnCalls(m: Ledger, calls: seq<Call>, t: TaskId): Own {
    if calls == [] then if t in m then Since(m[t], []) else NoBudget
    else
      var before := OwnCalls(m, calls[..|calls| - 1], t);
      match calls[|calls| - 1]
      case Create(t', tokenLimit, costLimit) => if t' == t then Since(NewAccount(tokenLimit, costLimit), []) else before
      case Charge(t', x) => if t' == t && before.Since? then Since(before.start, before.asked + [x]) else before
  }

  lemma {:induction false} AfterAllSnoc(a: Account, xs: seq<Amount>, x: Amount)
    ensures AfterAll(a, xs + [x]) == Consumed(AfterAll(a, xs), x)
    decreases |xs|
  {
    if xs == [] {
      assert [] + [x] == [x] && [x][1..] == [];
      assert AfterAll(a, [x]) == AfterAll(Consumed(a, x), []);
    } else {
      assert (xs + [x])[1..] == xs[1..] + [x];
      AfterAllSnoc(Consumed(a, xs[0]), xs[1..], x);
    }
  }

  /** However the calls of many tasks interleave, each account depends on the task's own calls since its
      last budget alone, and is what they make of a fresh one. */
  lemma {:induction false} AccountsAreSeparate(m: Ledger, calls: seq<Call>, t: TaskId)
    ensures t in AfterCalls(m, calls) <==> OwnCalls(m, calls, t).Since?
    ensures t in AfterCalls(m, calls) ==>
              var own := OwnCalls(m, calls, t); AfterCalls(m, calls)[t] == AfterAll(own.start, own.asked)
  {
    if calls != [] {
      var init, last := calls[..|calls| - 1], calls[|calls| - 1];
      AccountsAreSeparate(m, init, t);
      var before := OwnCalls(m, init, t);
      if last.Charge? && before.Since? {
        AfterAllSnoc(before.start, before.asked, last.amount);
      }
    }
  }

  /** Conservation on all budgets: what a task has used at any moment is what its accepted calls since its
      last budget asked for. */
  lemma LedgerConservation(m: Ledger, calls: seq<Call>, t: TaskId)
    requires t in AfterCalls(m, calls)
    ensures var own := OwnCalls(m, calls, t);
            && own.Since?
            && AfterCalls(m, calls)[t].tokensUsed ==
               own.start.tokensUsed + TokensOf(own.asked[..Accepted(own.start, own.asked)])
            && AfterCalls(m, calls)[t].costUsed ==
               own.start.costUsed + CostOf(own.asked[..Accepted(own.start, own.asked)])
  {
    AccountsAreSeparate(m, calls, t);
    var own := OwnCalls(m, calls, t);
    Conservation(own.start, own.asked);
  }
}
