/** The approval broker as a protocol: requesters that wait, deciders, timers, and requesters that
    resume.  A timer firing and the requester's resumption are separate steps, and so are a decision
    and the resumption it causes, because other steps can come between them. */
module Approval {

  type Id = string

  datatype Decision = Pending | Approved | Rejected | TimedOut

  /** What woke the waiting requester first. */
  datatype Wake = Asleep | ByEvent | ByTimer

  /** One request: `tracked` tells whether the broker knows it, `returned` whether the requester has
      it back, `eventSet` whether its event has been set. */
  datatype Req = Req(
    action: string, decision: Decision, tracked: bool, wake: Wake, timerFired: bool, returned: bool, eventSet: bool)

  type Broker = map<Id, Req>

  const AUTO_APPROVED: set<string> := {"read_file", "list_directory", "get_time", "screenshot"}

  datatype Step =
    | Request(id: Id, action: string)
    | Decide(id: Id, approved: bool)
    | Fire(id: Id)
    | Resume(id: Id, expired: bool)

  /** Whether `decide` on this id would return True. */
  predicate Accepts(s: Broker, id: Id) {
    id in s && s[id].tracked && s[id].decision == Pending
  }

  predicate Enabled(s: Broker, e: Step) {
    match e
    case Request(id, _) => id !in s
    case Decide(_, _) => true
    case Fire(id) => id in s && !s[id].returned && !s[id].timerFired
    // the wait ends normally only when the event came before the timer; once the timer has fired,
    // it may end in a timeout even if the event came first
    case Resume(id, expired) => id in s && !s[id].returned && if expired then s[id].timerFired else s[id].wake == ByEvent
  }

  function Verdict(approved: bool): Decision {
    if approved then Approved else Rejected
  }

  function Apply(s: Broker, e: Step): Broker
    requires Enabled(s, e)
  {
    match e
    case Request(id, action) =>
      if action in AUTO_APPROVED then s[id := Req(action, Approved, false, Asleep, false, true, false)]
      else s[id := Req(action, Pending, true, Asleep, false, false, false)]
    case Decide(id, approved) =>
      if !Accepts(s, id) then s
      else
        s[id := s[id].(decision := Verdict(approved), eventSet := true,
                       wake := if s[id].wake == Asleep then ByEvent else s[id].wake)]
    case Fire(id) =>
      s[id := s[id].(timerFired := true, wake := if s[id].wake == Asleep then ByTimer else s[id].wake)]
    case Resume(id, expired) =>
      s[id := s[id].(decision := if expired then TimedOut else s[id].decision, returned := true)]
  }

  predicate IsRun(s: Broker, es: seq<Step>)
    decreases |es|
  {
    es == [] || (Enabled(s, es[0]) && IsRun(Apply(s, es[0]), es[1..]))
  }

  function After(s: Broker, es: seq<Step>): Broker
    requires IsRun(s, es)
    decreases |es|
  {
    if es == [] then s else After(Apply(s, es[0]), es[1..])
  }

  // ---------- The broker ----------

  class ApprovalRequest {
    const requestId: Id
    const taskId: string
    const action: string
    const riskLevel: string
    const details: map<string, string>
    var decision: Decision
    var decidedAt: string

    constructor (requestId: Id, taskId: string, action: string, riskLevel: string, details: map<string, string>,
                 decision: Decision)
      ensures this.requestId == requestId && this.taskId == taskId && this.action == action
      ensures this.riskLevel == riskLevel && this.details == details && this.decision == decision && decidedAt == ""
    {
      this.requestId, this.taskId, this.action, this.riskLevel := requestId, taskId, action, riskLevel;
      this.details, this.decision, decidedAt := details, decision, "";
    }

    predicate Shows(id: Id, r: Req)
      reads this
    {
      requestId == id && action == r.action && decision == r.decision && r.tracked
    }
  }

  class ApprovalBroker {
    var pending: map<Id, ApprovalRequest>
    /** The ids whose event has been set. */
    var eventsSet: set<Id>
    ghost var state: Broker

    ghost predicate Valid()
      reads this, pending.Values
    {
      && (forall id :: id in pending <==> id in state && state[id].tracked)
      && (forall id {:trigger pending[id]} | id in pending :: pending[id].Shows(id, state[id]))
      && (forall id {:trigger id in eventsSet} :: id in eventsSet <==> id in state && state[id].eventSet)
    }

    constructor ()
      ensures Valid() && state == map[]
    {
      pending, eventsSet, state := map[], {}, map[];
    }

    /** The first half of a request, up to the wait; the fresh id comes from the caller. */
    method Submit(id: Id, taskId: string, action: string, riskLevel: string := "medium",
                  details: map<string, string> := map[])
      returns (req: ApprovalRequest, waits: bool)
      requires Valid() && id !in state
      modifies this
      ensures Valid() && state == Apply(old(state), Request(id, action))
      ensures waits <==> action !in {"read_file", "list_directory", "get_time", "screenshot"}
      ensures fresh(req) && req.requestId == id && req.taskId == taskId && req.action == action
      ensures req.decision == state[id].decision && req.riskLevel == if waits then riskLevel else "low"
      ensures req.details == if waits then details else map[]
      ensures pending == if waits then old(pending)[id := req] else old(pending)
    {
      if action in AUTO_APPROVED {
        req := new ApprovalRequest(id, taskId, action, "low", map[], Approved);
        state := state[id := Req(action, Approved, false, Asleep, false, true, false)];
        return req, false;
      }
      req := new ApprovalRequest(id, taskId, action, riskLevel, details, Pending);
      pending := pending[id := req];
      state := state[id := Req(action, Pending, true, Asleep, false, false, false)];
      return req, true;
    }

    method SubmitDecision(id: Id, approved: bool, now: string) returns (accepted: bool)
      requires Valid()
      modifies this, pending.Values
      ensures Valid() && pending == old(pending)
      ensures accepted == Accepts(old(state), id)
      ensures state == Apply(old(state), Decide(id, approved))
      ensures accepted <==> id in pending && old(pending[id].decision) == Pending
      ensures accepted ==> pending[id].decision == (if approved then Approved else Rejected)
      ensures accepted ==> pending[id].decidedAt == now && id in eventsSet
    {
      if id !in pending || pending[id].decision != Pending {
        return false;
      }
      var req := pending[id];
      req.decision := Verdict(approved);
      req.decidedAt := now;
      eventsSet := eventsSet + {id};
      state := Apply(state, Decide(id, approved));
      return true;
    }

    /** The timer of a waiting request fires.  It touches nothing of the broker's: what it causes is seen
        when the requester resumes. */
    ghost method FireTimer(id: Id)
      requires Valid() && Enabled(state, Fire(id))
      modifies this`state
      ensures Valid() && state == Apply(old(state), Fire(id))
    {
      state := Apply(state, Fire(id));
    }

    /** The second half of a request: the wait has ended, in a timeout or not. */
    method ResumeRequest(id: Id, expired: bool) returns (req: ApprovalRequest)
      requires Valid() && Enabled(state, Resume(id, expired)) && id in pending
      modifies this, pending.Values
      ensures Valid() && pending == old(pending)
      ensures state == Apply(old(state), Resume(id, expired))
      ensures req == pending[id] && req.decision == state[id].decision
      ensures req.decision == if expired then TimedOut else old(pending[id].decision)
    {
      req := pending[id];
      if expired {
        req.decision := TimedOut;
      }
      state := Apply(state, Resume(id, expired));
    }

    /** Every step of the protocol is one of the calls above or a timer. */
    method Perform(e: Step)
      requires Valid() && Inv(state) && Enabled(state, e)
      modifies this, pending.Values
      ensures Valid() && Inv(state) && state == Apply(old(state), e)
      ensures fresh(pending.Values - old(pending.Values))
    {
      StepInv(state, e);
      match e {
        case Request(id, action) =>
          var req, waits := Submit(id, "", action);
        case Decide(id, approved) =>
          var accepted := SubmitDecision(id, approved, "");
        case Fire(id) =>
          FireTimer(id);
        case Resume(id, expired) =>
          assert ReqOk(state[id]);
          var req := ResumeRequest(id, expired);
      }
    }

    /** So the broker can go through every run of the protocol, expired waits and all. */
    method PerformAll(es: seq<Step>)
      requires Valid() && Inv(state) && IsRun(state, es)
      modifies this, pending.Values
      ensures Valid() && state == After(old(state), es)
    {
      for i := 0 to |es|
        invariant Valid() && Inv(state) && fresh(pending.Values - old(pending.Values))
        invariant IsRun(state, es[i..]) && After(state, es[i..]) == After(old(state), es)
      {
        assert es[i..][0] == es[i] && es[i..][1..] == es[i + 1..];
        Perform(es[i]);
      }
    }
  }

  // ---------- What every interleaving keeps ----------

  /** The state of a request agrees with how it got there. */
  predicate ReqOk(r: Req) {
    && (!r.tracked ==> r.returned && r.decision == Approved && r.action in AUTO_APPROVED)
    && (r.tracked ==> r.action !in AUTO_APPROVED)
    && (r.eventSet ==> r.tracked && r.decision != Pending)
    && (r.tracked && (r.decision == Approved || r.decision == Rejected) ==> r.eventSet)
    && (r.wake == ByEvent ==> r.decision != Pending)
    && (r.tracked && r.decision == Pending ==> !r.returned && r.wake != ByEvent)
    && (r.tracked && !r.returned ==> r.decision != TimedOut)
    && (r.wake == ByTimer ==> r.timerFired) && (r.timerFired ==> r.wake != Asleep)
    && (r.tracked && r.wake == Asleep ==> r.decision == Pending && !r.returned)
    && (r.tracked && r.returned && r.wake == ByTimer ==> r.decision == TimedOut)
  }

  predicate Inv(s: Broker) {
    forall id | id in s :: ReqOk(s[id])
  }

  /** A returned request is settled: it is never pending, and no later step of any kind changes it. */
  predicate Settled(s: Broker, s': Broker) {
    forall id | id in s && s[id].returned ::
      s[id].decision != Pending && id in s' && s'[id].decision == s[id].decision && s'[id].returned
  }

  lemma StepInv(s: Broker, e: Step)
    requires Inv(s) && Enabled(s, e)
    ensures Inv(Apply(s, e)) && Settled(s, Apply(s, e))
  {
  }

  lemma {:induction false} RunInv(s: Broker, es: seq<Step>)
    requires Inv(s) && IsRun(s, es)
    ensures Inv(After(s, es)) && Settled(s, After(s, es))
    decreases |es|
  {
    if es == [] {
      forall id | id in s && s[id].returned ensures s[id].decision != Pending {
        assert ReqOk(s[id]);
      }
    } else {
      StepInv(s, es[0]);
      RunInv(Apply(s, es[0]), es[1..]);
    }
  }

  /** The number of `decide` calls on an id that return True along a run. */
  function AcceptedCount(s: Broker, es: seq<Step>, id: Id): nat
    requires IsRun(s, es)
    decreases |es|
  {
    if es == [] then 0
    else
      (if es[0].Decide? && es[0].id == id && Accepts(s, id) then 1 else 0)
      + AcceptedCount(Apply(s, es[0]), es[1..], id)
  }

  predicate Open(s: Broker, id: Id) {
    id !in s || Accepts(s, id)
  }

  /** Along any run at most one `decide` on a request returns True. */
  lemma {:induction false} DecidedAtMostOnce(s: Broker, es: seq<Step>, id: Id)
    requires IsRun(s, es)
    ensures AcceptedCount(s, es, id) <= if Open(s, id) then 1 else 0
    decreases |es|
  {
    if es != [] {
      DecidedAtMostOnce(Apply(s, es[0]), es[1..], id);
    }
  }

  /** A `decide` with this answer on this id returns True somewhere along the run. */
  predicate WasDecided(s: Broker, es: seq<Step>, id: Id, approved: bool)
    requires IsRun(s, es)
    decreases |es|
  {
    es != []
    && ((es[0] == Decide(id, approved) && Accepts(s, id)) || WasDecided(Apply(s, es[0]), es[1..], id, approved))
  }

  predicate WasExpired(es: seq<Step>, id: Id) {
    Resume(id, true) in es
  }

  /** How a request that is still open can end: by the answer it was given, or by expiry. */
  lemma {:induction false} EndOfRequest(s: Broker, es: seq<Step>, id: Id)
    requires Inv(s) && IsRun(s, es) && id in After(s, es)
    requires id in s ==> !s[id].returned
    ensures After(s, es)[id].tracked && After(s, es)[id].returned ==>
              (After(s, es)[id].decision == TimedOut <==> WasExpired(es, id))
    ensures forall a ::
              After(s, es)[id].tracked && After(s, es)[id].decision == Verdict(a)
              ==> WasDecided(s, es, id, a) || (id in s && s[id].decision == Verdict(a))
    ensures !After(s, es)[id].tracked ==> id in s || After(s, es)[id].action in AUTO_APPROVED
    decreases |es|
  {
    if es != [] {
      var s' := Apply(s, es[0]);
      StepInv(s, es[0]);
      RunInv(s', es[1..]);
      if id in s' && s'[id].returned {
        StaysReturned(s', es[1..], id);
      } else {
        EndOfRequest(s', es[1..], id);
      }
    }
  }

  lemma {:induction false} StaysReturned(s: Broker, es: seq<Step>, id: Id)
    requires Inv(s) && IsRun(s, es) && id in s && s[id].returned
    ensures id in After(s, es) && After(s, es)[id] == s[id]
    ensures !WasExpired(es, id)
    decreases |es|
  {
    if es != [] {
      assert ReqOk(s[id]);
      StepInv(s, es[0]);
      StaysReturned(Apply(s, es[0]), es[1..], id);
      assert es == [es[0]] + es[1..];
    }
  }

  /** The protocol theorem, for every interleaving from the empty broker: a returned request is not
      pending; it is approved only if its action is an automatic one or a `decide(approved=True)` on it
      returned True; and of the decided ones exactly those that expired come back timed out. */
  lemma ReturnedRequests(es: seq<Step>, id: Id)
    requires IsRun(map[], es) && id in After(map[], es) && After(map[], es)[id].returned
    ensures After(map[], es)[id].decision != Pending
    ensures After(map[], es)[id].decision == Approved ==>
              || After(map[], es)[id].action in {"read_file", "list_directory", "get_time", "screenshot"}
              || WasDecided(map[], es, id, true)
    ensures After(map[], es)[id].decision == Rejected ==> WasDecided(map[], es, id, false)
    ensures After(map[], es)[id].decision == TimedOut <==> WasExpired(es, id)
  {
    var t := After(map[], es);
    RunInv(map[], es);
    assert ReqOk(t[id]);
    EndOfRequest(map[], es, id);
    assert Verdict(true) == Approved && Verdict(false) == Rejected;
    if !t[id].tracked {
      UntrackedNeverResumes(map[], es, id);
    }
  }

  lemma {:induction false} UntrackedNeverResumes(s: Broker, es: seq<Step>, id: Id)
    requires Inv(s) && IsRun(s, es) && id in After(s, es) && !After(s, es)[id].tracked
    requires id in s ==> s[id].returned
    ensures !WasExpired(es, id)
    decreases |es|
  {
    if es != [] {
      var s' := Apply(s, es[0]);
      StepInv(s, es[0]);
      if id in s' {
        if s'[id].returned {
          StaysReturned(s', es[1..], id);
        } else {
          StaysTracked(s', es[1..], id);
        }
      } else {
        UntrackedNeverResumes(s', es[1..], id);
      }
      assert es == [es[0]] + es[1..];
    }
  }

  lemma {:induction false} StaysTracked(s: Broker, es: seq<Step>, id: Id)
    requires IsRun(s, es) && id in s
    ensures id in After(s, es) && After(s, es)[id].tracked == s[id].tracked
    decreases |es|
  {
    if es != [] {
      StaysTracked(Apply(s, es[0]), es[1..], id);
    }
  }

  // ---------- Whether an accepted decision reaches the requester ----------

  /** What becomes of a decision that `decide` has accepted, whatever happens next: it stands unless
      the requester resumes with an expired wait, and then it is replaced. */
  lemma {:induction false} DecisionFate(s: Broker, es: seq<Step>, id: Id, approved: bool)
    requires Inv(s) && IsRun(s, es)
    requires id in s && s[id].tracked && !s[id].returned && s[id].decision == Verdict(approved)
    ensures id in After(s, es)
    ensures After(s, es)[id].decision == if WasExpired(es, id) then TimedOut else Verdict(approved)
    decreases |es|
  {
    if es != [] {
      var s' := Apply(s, es[0]);
      StepInv(s, es[0]);
      assert es == [es[0]] + es[1..];
      if s'[id].returned {
        StaysReturned(s', es[1..], id);
      } else {
        DecisionFate(s', es[1..], id, approved);
      }
    }
  }

  /** An accepted decision is what the requester gets exactly when its wait does not expire. */
  lemma AcceptedDecision(s: Broker, id: Id, approved: bool, es: seq<Step>)
    requires Inv(s) && Accepts(s, id) && IsRun(Apply(s, Decide(id, approved)), es)
    ensures var t := After(Apply(s, Decide(id, approved)), es);
            id in t && (t[id].decision == Verdict(approved) <==> !WasExpired(es, id))
  {
    assert ReqOk(s[id]);
    StepInv(s, Decide(id, approved));
    DecisionFate(Apply(s, Decide(id, approved)), es, id, approved);
  }

  lemma {:induction false} ExpiryNeedsTimer(s: Broker, es: seq<Step>, id: Id)
    requires IsRun(s, es) && WasExpired(es, id)
    ensures (id in s && s[id].timerFired) || Fire(id) in es
    decreases |es|
  {
    assert es == [es[0]] + es[1..];
    if es[0] != Resume(id, true) {
      ExpiryNeedsTimer(Apply(s, es[0]), es[1..], id);
    }
  }

  /** An accepted decision stands when the timer had not fired by then and does not fire later. */
  lemma TimelyDecisionStands(s: Broker, id: Id, approved: bool, es: seq<Step>)
    requires Inv(s) && Accepts(s, id) && IsRun(Apply(s, Decide(id, approved)), es)
    requires !s[id].timerFired && Fire(id) !in es
    ensures var t := After(Apply(s, Decide(id, approved)), es);
            id in t && t[id].decision == Verdict(approved)
  {
    if WasExpired(es, id) {
      ExpiryNeedsTimer(Apply(s, Decide(id, approved)), es, id);
    }
    AcceptedDecision(s, id, approved, es);
  }

  /** In particular a decision accepted after the timer fired is always lost: `decide` returns True,
      and the requester, once it has the request back, finds it timed out. */
  lemma LateDecisionLost(s: Broker, id: Id, approved: bool, es: seq<Step>)
    requires Inv(s) && Accepts(s, id) && s[id].timerFired && IsRun(Apply(s, Decide(id, approved)), es)
    ensures var t := After(Apply(s, Decide(id, approved)), es);
            id in t && (t[id].returned ==> t[id].decision == TimedOut)
  {
    assert ReqOk(s[id]);
    StepInv(s, Decide(id, approved));
    WakeKept(Apply(s, Decide(id, approved)), es, id);
    RunInv(Apply(s, Decide(id, approved)), es);
    assert ReqOk(After(Apply(s, Decide(id, approved)), es)[id]);
  }

  lemma {:induction false} WakeKept(s: Broker, es: seq<Step>, id: Id)
    requires IsRun(s, es) && id in s && s[id].wake != Asleep
    ensures id in After(s, es) && After(s, es)[id].wake == s[id].wake && After(s, es)[id].tracked == s[id].tracked
    decreases |es|
  {
    if es != [] {
      WakeKept(Apply(s, es[0]), es[1..], id);
    }
  }

  /** One such run: the approval of a deletion is accepted and yet the requester times out. */
  lemma LostApprovalExample()
    ensures var es := [Request("r", "delete_file"), Fire("r"), Decide("r", true), Resume("r", true)];
            && IsRun(map[], es)
            && AcceptedCount(map[], es, "r") == 1
            && After(map[], es)["r"].returned && After(map[], es)["r"].decision == TimedOut
  {
  }
}
