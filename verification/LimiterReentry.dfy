/** How often one call enters redisAllow while any number of others race with it. */
module LimiterReentry {
  import opened SlidingWindow
  import opened LimiterCore
  import opened LimiterStore
  import opened LimiterSystem
  import opened LimiterThrottle

  predicate ProbingCall(calls: map<nat, Call>, id: nat) { id in calls && IsProbing(calls[id]) }

  predicate IsRecovery(a: Action, id: nat) { a == Of(id, Other(LockRecover)) }

  /** The recoveries the call makes between two points of a run; after each it re-enters redisAllow. */
  function Reentries(actions: seq<Action>, id: nat, a: nat, b: nat): nat
    requires a <= b <= |actions|
  {
    if a == b then 0 else Reentries(actions, id, a, b - 1) + One(IsRecovery(actions[b - 1], id))
  }

  /** The call is at redisAllow after the i-th step and was not before it. */
  predicate Enters(states: seq<System>, id: nat, i: nat)
    requires i + 1 < |states|
  {
    && id in states[i + 1].calls && states[i + 1].calls[id].pc == AtRedis
    && !(id in states[i].calls && states[i].calls[id].pc == AtRedis)
  }

  function Entries(states: seq<System>, id: nat, a: nat, b: nat): nat
    requires a <= b < |states|
  {
    if a == b then 0 else Entries(states, id, a, b - 1) + One(Enters(states, id, b - 1))
  }

  /** One step moves the call on: it starts a probe only as one is counted, recovers only while probing, and comes to
      redisAllow only from the entry or by recovering. */
  ghost predicate CallMoves(s: System, a: Action, s': System, id: nat) {
    && One(ProbingCall(s'.calls, id)) + One(IsRecovery(a, id)) <= One(ProbingCall(s.calls, id)) + (|s'.probes| - |s.probes|)
    && (IsRecovery(a, id) ==> ProbingCall(s.calls, id))
    && (id in s.calls && id in s'.calls && s'.calls[id].pc == AtRedis && s.calls[id].pc != AtRedis ==>
          s.calls[id].pc == Entry || IsRecovery(a, id))
    && (id in s.calls && id in s'.calls && s'.calls[id].pc == Entry ==> s.calls[id].pc == Entry)
  }

  lemma MoveMoves(p: Params, s: System, s1: System, id: nat, e: Event, step: Step, other: nat)
    requires id in s.calls && s1.calls == s.calls && s1.probes == s.probes && Move(p, s1, id, e).Some?
    requires step == Other(LockRecover) <==> e == LockRecover
    ensures CallMoves(s, Of(id, step), Move(p, s1, id, e).value, other)
  {
  }

  lemma QuietMoves(s: System, a: Action, s': System, id: nat)
    requires s'.probes == s.probes && (a.Of? ==> a.step != Other(LockRecover))
    requires forall x :: x in s'.calls ==> if x in s.calls then s'.calls[x].pc == s.calls[x].pc else s'.calls[x].pc == Entry
    ensures CallMoves(s, a, s', id)
  {
  }

  lemma OfMoves(p: Params, s: System, id: nat, step: Step, other: nat)
    requires id in s.calls && StepOf(p, s, id, step).Some?
    ensures CallMoves(s, Of(id, step), StepOf(p, s, id, step).value, other)
  {
    hide Keep, Move, Seen, AfterPrune, AfterAdd, AfterCard, AfterRenew, AfterReply, CallMoves;
    var stage := s.calls[id].stage;
    match step
    case Reply => MoveMoves(p, s, ReplyStep(p, s, stage.member, stage.n), id, Pipeline(true, stage.n <= p.limit), step, other);
    case Fail => MoveMoves(p, s, s, id, Pipeline(false, false), step, other);
    case Local =>
      MoveMoves(p, s, LocalStep(p, s, stage.now), id, Fallback(|Keep(s.log, stage.now - p.window)| < p.limit), step, other);
    case Gate(stamp) => MoveMoves(p, s, s.(clock := stamp), id, LockGate(s.clock, stamp), step, other);
    case Other(e) => MoveMoves(p, s, s, id, e, step, other);
    case _ => QuietMoves(s, Of(id, step), StepOf(p, s, id, step).value, other);
  }

  lemma StepMoves(p: Params, s: System, a: Action, id: nat)
    requires Act(p, s, a).Some?
    ensures CallMoves(s, a, Act(p, s, a).value, id)
  {
    hide StepOf, Seen, AfterPrune, AfterAdd, AfterRenew, CallMoves;
    if a.Of? {
      OfMoves(p, s, a.id, a.step, id);
    } else {
      QuietMoves(s, a, Act(p, s, a).value, id);
    }
  }

  lemma RunMoves(p: Params, states: seq<System>, actions: seq<Action>, i: nat, id: nat)
    requires Run(p, states, actions) && i < |actions|
    ensures CallMoves(states[i], actions[i], states[i + 1], id)
  {
    assert Follows(p, states, actions, i);
    StepMoves(p, states[i], actions[i], id);
  }

  /** Each recovery of the call uses up a probe that it started itself. */
  lemma {:induction false} ReentriesProbe(p: Params, states: seq<System>, actions: seq<Action>, id: nat, a: nat, b: nat)
    requires Run(p, states, actions) && a <= b <= |actions|
    ensures Reentries(actions, id, a, b) + One(ProbingCall(states[b].calls, id))
            <= |states[b].probes| - |states[a].probes| + One(ProbingCall(states[a].calls, id))
    decreases b
  {
    if a < b {
      hide Run;
      ReentriesProbe(p, states, actions, id, a, b - 1);
      RunMoves(p, states, actions, b - 1, id);
    }
  }

  /** While it is in flight the call enters redisAllow once from its entry, and again only by recovering. */
  lemma {:induction false} EntriesRecover(p: Params, states: seq<System>, actions: seq<Action>, id: nat, a: nat, b: nat)
    requires Run(p, states, actions) && a <= b <= |actions|
    requires forall i :: a <= i <= b ==> id in states[i].calls
    ensures Entries(states, id, a, b) + One(states[b].calls[id].pc == Entry)
            <= Reentries(actions, id, a, b) + One(states[a].calls[id].pc == Entry)
    decreases b
  {
    if a < b {
      hide Run;
      EntriesRecover(p, states, actions, id, a, b - 1);
      RunMoves(p, states, actions, b - 1, id);
      assert id in states[b - 1].calls && id in states[b].calls;
    }
  }

  /** The recursion is bounded whatever the other calls do: a call under way for a span of time enters redisAllow at
      most once, and once more for every probe it starts, and probes of all calls together are an interval apart. */
  lemma EntriesWithin(p: Params, states: seq<System>, actions: seq<Action>, id: nat, a: nat, b: nat, span: nat)
    requires Run(p, states, actions) && p.cfg.Valid() && a <= b <= |actions|
    requires forall i :: a <= i <= b ==> id in states[i].calls
    requires states[a].calls[id].pc == Entry && states[b].clock - states[a].clock <= span
    ensures Reentries(actions, id, a, b) <= 1 + span / p.cfg.interval
    ensures Entries(states, id, a, b) <= 2 + span / p.cfg.interval
  {
    assert |states| == |actions| + 1;
    hide Run;
    ReentriesProbe(p, states, actions, id, a, b);
    EntriesRecover(p, states, actions, id, a, b);
    ProbesWithin(p, states, actions, a, b, span);
  }
}
