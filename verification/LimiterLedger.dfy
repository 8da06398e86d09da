/** What single steps of concurrent calls mean: which answers the histories record, and what a ping of one call leads to
    while others race with it (internal/ratelimit/limiter.go:115-200). */
module LimiterLedger {
  import opened LimiterCore
  import opened LimiterStore
  import opened LimiterSystem
  import opened Options
  import opened SlidingWindow
  import Memory = MemoryLimiter

  // ----- every admission is recorded

  /** Nothing was admitted. */
  ghost predicate NoneAdmitted(s: System, s': System) {
    s'.store.admitted == s.store.admitted && s'.local == s.local && s'.failOpens == s.failOpens
  }

  ghost predicate Answers(s': System, id: nat, a: Answer) { id in s'.calls && s'.calls[id].pc == Answered(a) }

  /** The answers that admit a request of this key are recorded, each with its time, and no others. */
  ghost predicate Recorded(s: System, a: Action, s': System) {
    if a.Of? && a.id in s.calls && s.calls[a.id].stage.Renewed? && a.step == Reply then
      var m := s.calls[a.id].stage.member;
      && s'.local == s.local && s'.failOpens == s.failOpens
      && (Answers(s', a.id, FromRedis(true)) || Answers(s', a.id, FromRedis(false)))
      && s'.store.admitted == s.store.admitted + if Answers(s', a.id, FromRedis(true)) then {m} else {}
    else if a.Of? && a.id in s.calls && s.calls[a.id].stage.Read? && a.step == Local then
      && s'.store.admitted == s.store.admitted && s'.failOpens == s.failOpens
      && (Answers(s', a.id, FromMemory(true)) || Answers(s', a.id, FromMemory(false)))
      && s'.local == s.local + if Answers(s', a.id, FromMemory(true)) then [s.calls[a.id].stage.now] else []
    else if a.Of? && a.step == Other(LockFailure) then
      && s'.store.admitted == s.store.admitted && s'.local == s.local
      && s'.failOpens == s.failOpens + if Answers(s', a.id, FailOpen) then [Millis(s.clock)] else []
    else
      NoneAdmitted(s, s')
  }

  lemma MoveRecords(p: Params, s: System, id: nat, e: Event)
    requires id in s.calls && Move(p, s, id, e).Some?
    ensures var s' := Move(p, s, id, e).value;
            && s'.store == s.store && s'.local == s.local && id in s'.calls
            && (s.calls[id].pc == AtRedis && e == Pipeline(true, e.within) ==> s'.calls[id].pc == Answered(FromRedis(e.within)))
            && (s.calls[id].pc == AtFallback && e.Fallback? && !p.cfg.deny ==> s'.calls[id].pc == Answered(FromMemory(e.within)))
            && s'.failOpens == s.failOpens
               + if e == LockFailure && s'.calls[id].pc == Answered(FailOpen) then [Millis(s.clock)] else []
  {
  }

  lemma OfRecorded(p: Params, s: System, id: nat, step: Step)
    requires id in s.calls && StepOf(p, s, id, step).Some?
    ensures Recorded(s, Of(id, step), StepOf(p, s, id, step).value)
  {
    hide Move, Keep, Seen, Without;
    var stage := s.calls[id].stage;
    match step
    case Reply => MoveRecords(p, ReplyStep(p, s, stage.member, stage.n), id, Pipeline(true, stage.n <= p.limit));
    case Fail => MoveRecords(p, s, id, Pipeline(false, false));
    case Local => MoveRecords(p, LocalStep(p, s, stage.now), id, Fallback(|Keep(s.log, stage.now - p.window)| < p.limit));
    case Gate(stamp) => MoveRecords(p, s.(clock := stamp), id, LockGate(s.clock, stamp));
    case Other(e) => MoveRecords(p, s, id, e);
    case _ => SeenAdmitted(p, s);
  }

  lemma SeenAdmitted(p: Params, s: System)
    ensures Seen(p, s).admitted == s.store.admitted
  {
  }

  lemma StepRecorded(p: Params, s: System, a: Action)
    requires Act(p, s, a).Some?
    ensures Recorded(s, a, Act(p, s, a).value)
  {
    SeenAdmitted(p, s);
    hide StepOf, Seen, Recorded, Without;
    if a.Of? {
      OfRecorded(p, s, a.id, a.step);
    } else {
      QuietRecorded(s, a, Act(p, s, a).value);
    }
  }

  lemma QuietRecorded(s: System, a: Action, s': System)
    requires !a.Of? && NoneAdmitted(s, s')
    ensures Recorded(s, a, s')
  {
  }

  /** The fallback's section of a call does to this key's log what the in-process limiter does, and answers as it does. */
  lemma LocalAgrees(p: Params, s: System, id: nat, m: Memory.Keyspace<string>, key: string)
    requires id in s.calls && StepOf(p, s, id, Local).Some? && s.log == Memory.TimesOf(m, key)
    ensures var s', now := StepOf(p, s, id, Local).value, s.calls[id].stage.now;
            && s'.log == Memory.TimesOf(Memory.Record(m, key, now, p.window), key)
            && Answers(s', id, FromMemory(|s'.log| <= p.limit))
  {
    hide Keep;
  }

  // ----- what a ping leads to

  /** A probe starts exactly when none has started within the interval; otherwise the call gives Redis up. */
  lemma GateDecides(p: Params, s: System, id: nat, stamp: nat)
    requires id in s.calls && StepOf(p, s, id, Gate(stamp)).Some?
    ensures var s', due := StepOf(p, s, id, Gate(stamp)).value,
                           s.core.lastProbe.None? || s.clock - s.core.lastProbe.value >= p.cfg.interval;
            && s'.calls[id].pc == (if due then AtPing else AtFallback)
            && s'.core == if due then Core(s.core.failures, s.core.degraded, Some(stamp)) else s.core
  {
    hide Keep, Seen;
  }

  /** The last step the call has taken among the first n actions, if it has taken one since it began. */
  ghost function LastStep(actions: seq<Action>, id: nat, n: nat): Option<Step>
    requires n <= |actions|
  {
    if n == 0 then None
    else match actions[n - 1]
      case Of(x, step) => if x == id then Some(step) else LastStep(actions, id, n - 1)
      case Start(x) => if x == id then None else LastStep(actions, id, n - 1)
      case _ => LastStep(actions, id, n - 1)
  }

  /** A call is about to recover only right after its own ping has succeeded. */
  ghost predicate PingedFirst(s: System, id: nat, last: Option<Step>) {
    id in s.calls ==> (s.calls[id].pc == AtRecover <==> last == Some(Other(Ping(true))))
  }

  lemma MovePings(p: Params, s: System, id: nat, e: Event)
    requires id in s.calls && Move(p, s, id, e).Some?
    ensures var s' := Move(p, s, id, e).value;
            && s'.calls.Keys == s.calls.Keys && (forall x :: x in s.calls && x != id ==> s'.calls[x] == s.calls[x])
            && (s'.calls[id].pc == AtRecover <==> e == Ping(true))
            && (e == LockRecover ==> s.calls[id].pc == AtRecover && s'.calls[id].pc == AtRedis
                                     && s'.core == Core(0, false, s.core.lastProbe))
            && (e == Ping(false) ==> s'.core == s.core && s'.calls[id] == Call(AtFallback, Fresh))
  {
  }

  lemma OfPings(p: Params, s: System, id: nat, step: Step)
    requires id in s.calls && StepOf(p, s, id, step).Some?
    ensures var s' := StepOf(p, s, id, step).value;
            && (forall x :: x in s'.calls ==> x in s.calls && (x != id ==> s'.calls[x] == s.calls[x]))
            && (id in s'.calls ==> (s'.calls[id].pc == AtRecover <==> step == Other(Ping(true))))
  {
    hide Move, Keep, Seen, AfterPrune, AfterAdd, AfterCard, AfterRenew, AfterReply;
    var stage := s.calls[id].stage;
    match step
    case Reply => MovePings(p, ReplyStep(p, s, stage.member, stage.n), id, Pipeline(true, stage.n <= p.limit));
    case Fail => MovePings(p, s, id, Pipeline(false, false));
    case Local => MovePings(p, LocalStep(p, s, stage.now), id, Fallback(|Keep(s.log, stage.now - p.window)| < p.limit));
    case Gate(stamp) => MovePings(p, s.(clock := stamp), id, LockGate(s.clock, stamp));
    case Other(e) => MovePings(p, s, id, e);
    case _ =>
  }

  /** What any action does to the calls in flight, as far as recovering goes. */
  lemma StepPings(p: Params, s: System, a: Action, id: nat)
    requires Act(p, s, a).Some?
    ensures var s' := Act(p, s, a).value;
            id in s'.calls ==>
              if a == Start(id) then s'.calls[id].pc == Entry
              else id in s.calls && if a.Of? && a.id == id then s'.calls[id].pc == AtRecover <==> a.step == Other(Ping(true))
                                    else s'.calls[id] == s.calls[id]
  {
    hide StepOf, Seen, AfterPrune, AfterAdd, AfterRenew;
    if a.Of? { OfPings(p, s, a.id, a.step); }
  }

  lemma {:induction false} RunPings(p: Params, states: seq<System>, actions: seq<Action>, n: nat, id: nat)
    requires Run(p, states, actions) && n < |states|
    ensures PingedFirst(states[n], id, LastStep(actions, id, n))
  {
    hide Act;
    if n > 0 {
      RunPings(p, states, actions, n - 1, id);
      assert Follows(p, states, actions, n - 1);
      StepPings(p, states[n - 1], actions[n - 1], id);
    }
  }

  lemma TakenStep(p: Params, states: seq<System>, actions: seq<Action>, i: nat, id: nat, e: Event)
    requires Run(p, states, actions) && i < |actions| && actions[i] == Of(id, Other(e))
    ensures id in states[i].calls && Move(p, states[i], id, e) == Some(states[i + 1])
  {
    assert Follows(p, states, actions, i);
    hide Move;
  }

  /** Whatever other calls do: a call recovers the limiter only when its own last step was a successful ping; the
      limiter is then healthy, has counted no failure, and the call goes to Redis. */
  lemma RecoversAfterPing(p: Params, states: seq<System>, actions: seq<Action>, i: nat, id: nat)
    requires Run(p, states, actions) && i < |actions| && actions[i] == Of(id, Other(LockRecover))
    ensures LastStep(actions, id, i) == Some(Other(Ping(true)))
    ensures states[i + 1].core == Core(0, false, states[i].core.lastProbe)
    ensures id in states[i + 1].calls && states[i + 1].calls[id].pc == AtRedis
  {
    TakenStep(p, states, actions, i, id, LockRecover);
    MovePings(p, states[i], id, LockRecover);
    RunPings(p, states, actions, i, id);
  }

  /** The call is done with Redis: about to be refused in deny mode or served by the fallback otherwise, or so answered. */
  ghost predicate GivenUp(p: Params, c: Call) {
    c.pc == AtFallback || (c.pc.Answered? && if p.cfg.deny then c.pc.answer == Refused else c.pc.answer.FromMemory?)
  }

  lemma GivenUpStep(p: Params, s: System, id: nat, step: Step)
    requires id in s.calls && GivenUp(p, s.calls[id]) && StepOf(p, s, id, step).Some?
    ensures var s' := StepOf(p, s, id, step).value;
            s'.core == s.core && s'.store == s.store && (id in s'.calls ==> GivenUp(p, s'.calls[id]))
  {
    hide Keep, Seen, AfterPrune, AfterAdd, AfterCard, AfterRenew, AfterReply;
  }

  /** After a failed ping, while it is in flight, the call changes neither the limiter's state nor the key, and is refused
      in deny mode, or served by the fallback. */
  lemma {:induction false} FailedPingGivesUp(p: Params, states: seq<System>, actions: seq<Action>, i: nat, n: nat, id: nat)
    requires Run(p, states, actions) && i < n < |states| && actions[i] == Of(id, Other(Ping(false)))
    requires forall j :: i < j <= n ==> id in states[j].calls
    ensures states[i + 1].core == states[i].core
    ensures GivenUp(p, states[n].calls[id])
    ensures forall j :: i < j < n && actions[j].Of? && actions[j].id == id ==>
                          states[j + 1].core == states[j].core && states[j + 1].store == states[j].store
    decreases n
  {
    TakenStep(p, states, actions, i, id, Ping(false));
    MovePings(p, states[i], id, Ping(false));
    hide StepOf, Move;
    if n > i + 1 {
      FailedPingGivesUp(p, states, actions, i, n - 1, id);
      var s, a := states[n - 1], actions[n - 1];
      assert Follows(p, states, actions, n - 1);
      StepPings(p, s, a, id);
      if a.Of? && a.id == id { GivenUpStep(p, s, id, a.step); }
    }
  }
}
