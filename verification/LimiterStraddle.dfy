/** How late a pipeline must be for a deadline to wipe its admission: every straddler was read no earlier than its
    deadline less the longest delay of a command. */
module LimiterStraddle {
  import opened Arithmetic
  import opened SlidingWindow
  import opened LimiterCore
  import opened LimiterStore
  import opened LimiterSystem
  import opened LimiterRedis

  /** If a deadline wiped the member, its reading was at most the delay before that deadline. */
  ghost predicate NotLater(st: Store, delay: nat, m: nat, score: int) {
    m in st.straddling ==> st.straddling[m] < |st.lapses| && st.lapses[st.straddling[m]] <= score + delay
  }

  ghost predicate LateStage(st: Store, delay: nat, stage: Stage) {
    stage.Renewed? ==> NotLater(st, delay, stage.member, stage.now)
  }

  ghost predicate LateInv(s: System) {
    && (forall m :: m in s.store.admitted && m in s.store.scores ==> NotLater(s.store, s.delay, m, s.store.scores[m]))
    && (forall id :: id in s.calls ==> LateStage(s.store, s.delay, s.calls[id].stage))
  }

  ghost predicate SameLapses(st: Store, st': Store) {
    st'.straddling == st.straddling && st'.lapses == st.lapses
  }

  lemma CommandLapses(p: Params, st: Store, m: nat, now: int, c: int)
    ensures SameLapses(st, AfterPrune(st, p.window, now)) && SameLapses(st, AfterAdd(st, m, now))
    ensures SameLapses(st, AfterCard(st, p.limit, m, now)) && SameLapses(st, AfterRenew(st, c, p.window))
    ensures SameLapses(st, AfterReply(st, m)) && SameLapses(st, st)
  {
    hide Without;
  }

  lemma PipelineLapses(p: Params, s: System, m: nat, now: int)
    ensures SameLapses(Seen(p, s), PipelineAt(p, s, m, now))
  {
    hide Seen, Without;
  }

  /** Every straddler's deadline has passed. */
  lemma LapsesPast(p: Params, s: System, m: nat)
    requires RedisInv(p, s) && m in Seen(p, s).straddling
    ensures var st := Seen(p, s); st.straddling[m] < |st.lapses| && st.lapses[st.straddling[m]] <= Millis(s.clock)
  {
    SeenInv(p, s);
    hide Seen;
    assert StraddleInv(Seen(p, s)) && LapsesInv(p.window, Millis(s.clock), Seen(p, s));
  }

  /** What a deadline that takes effect does to what it wiped before: nothing. */
  lemma LiveExtends(p: Params, s: System, m: nat)
    requires SetInv(p.window, s.store) && StraddleInv(s.store)
    requires FlightInv(p.window, Millis(s.clock), s.store, Flying(s.calls), Renewing(s.calls))
    requires m in s.store.straddling || m in s.store.admitted || m in Renewing(s.calls)
    ensures var st, st' := s.store, Seen(p, s);
            (m in st'.straddling ==> m in st.straddling && st'.straddling[m] == st.straddling[m] < |st.lapses|)
            && st.lapses <= st'.lapses
  {
    hide Without, Flying, Renewing;
  }

  /** A deadline that takes effect spares what was renewed: admissions, and pipelines past their EXPIRE. */
  lemma SeenLate(p: Params, s: System)
    requires RedisInv(p, s) && LateInv(s)
    ensures LateInv(s.(store := Seen(p, s)))
  {
    var st, st' := s.store, Seen(p, s);
    SameScores(p, s);
    SeenAdmitted(p, s);
    assert SetInv(p.window, st) && StraddleInv(st);
    assert FlightInv(p.window, Millis(s.clock), st, Flying(s.calls), Renewing(s.calls));
    hide SetInv, GrantInv, StraddleInv, FlightInv, DeadlineInv, Flying, Seen;
    forall m | m in st.admitted && m in st.scores ensures NotLater(st', s.delay, m, st.scores[m]) {
      assert NotLater(st, s.delay, m, st.scores[m]);
      LiveExtends(p, s, m);
    }
    forall id | id in s.calls ensures LateStage(st', s.delay, s.calls[id].stage) {
      OwnMember(s.calls, id);
      assert LateStage(st, s.delay, s.calls[id].stage);
      if s.calls[id].stage.Renewed? { LiveExtends(p, s, s.calls[id].stage.member); }
    }
  }

  /** A step keeps the relation if what it adds to the admissions and to the renewed pipelines is not later. */
  lemma LateNext(s: System, s': System)
    requires LateInv(s) && SameLapses(s.store, s'.store) && s.delay <= s'.delay
    requires forall m :: m in s'.store.admitted && m in s'.store.scores ==>
                           (m in s.store.admitted && m in s.store.scores && s.store.scores[m] == s'.store.scores[m])
                           || NotLater(s'.store, s'.delay, m, s'.store.scores[m])
    requires forall id :: id in s'.calls ==> (id in s.calls && s'.calls[id].stage == s.calls[id].stage)
                                              || LateStage(s'.store, s'.delay, s'.calls[id].stage)
    ensures LateInv(s')
  {
    forall m | m in s'.store.admitted && m in s'.store.scores ensures NotLater(s'.store, s'.delay, m, s'.store.scores[m]) {
      if m in s.store.admitted && m in s.store.scores { assert NotLater(s.store, s.delay, m, s.store.scores[m]); }
    }
    forall id | id in s'.calls ensures LateStage(s'.store, s'.delay, s'.calls[id].stage) {
      if id in s.calls { assert LateStage(s.store, s.delay, s.calls[id].stage); }
    }
  }

  /** The commands before the EXPIRE renew nothing and admit nothing. */
  lemma LateEarly(p: Params, s: System, id: nat, step: Step)
    requires RedisInv(p, s) && LateInv(s) && id in s.calls && StepOf(p, s, id, step).Some?
    requires step.Prune? || step.Add? || step.Card?
    ensures LateInv(StepOf(p, s, id, step).value)
  {
    var s', stage := StepOf(p, s, id, step).value, s.calls[id].stage;
    SeenLate(p, s);
    SameScores(p, s);
    SeenAdmitted(p, s);
    assert SetInv(p.window, s.store);
    hide Seen, LateInv, Without, SetInv, GrantInv, DeadlineInv;
    CommandLapses(p, Seen(p, s), if step.Add? then step.member else if step.Card? then stage.member else 0, stage.now, 0);
    AdmittedScored(p, s);
    LateNext(s.(store := Seen(p, s)), s');
  }

  lemma SeenAdmitted(p: Params, s: System)
    ensures Seen(p, s).admitted == s.store.admitted
  {
  }

  lemma AdmittedScored(p: Params, s: System)
    requires RedisInv(p, s)
    ensures s.store.admitted <= s.store.scores.Keys
  {
    assert SetInv(p.window, s.store);
  }

  lemma LateRenew(p: Params, s: System, id: nat)
    requires RedisInv(p, s) && LateInv(s) && id in s.calls && StepOf(p, s, id, Renew).Some?
    ensures LateInv(StepOf(p, s, id, Renew).value)
  {
    var s', stage := StepOf(p, s, id, Renew).value, s.calls[id].stage;
    SeenLate(p, s);
    SameScores(p, s);
    SeenAdmitted(p, s);
    if stage.member in Seen(p, s).straddling { LapsesPast(p, s, stage.member); }
    hide Seen, LateInv, RedisInv;
    CommandLapses(p, Seen(p, s), 0, 0, Millis(s.clock));
    LateNext(s.(store := Seen(p, s)), s');
  }

  lemma LateReply(p: Params, s: System, id: nat)
    requires RedisInv(p, s) && LateInv(s) && id in s.calls && StepOf(p, s, id, Reply).Some?
    ensures LateInv(StepOf(p, s, id, Reply).value)
  {
    var s', stage := StepOf(p, s, id, Reply).value, s.calls[id].stage;
    assert StageInv(p, s.clock, s.store, stage) && LateStage(s.store, s.delay, stage);
    hide LateInv, RedisInv, Advance;
    CommandLapses(p, s.store, stage.member, 0, 0);
    LateNext(s, s');
  }

  lemma LateOther(p: Params, s: System, id: nat, step: Step)
    requires LateInv(s) && id in s.calls && StepOf(p, s, id, step).Some?
    requires !step.Prune? && !step.Add? && !step.Card? && !step.Renew? && !step.Reply?
    ensures LateInv(StepOf(p, s, id, step).value)
  {
    hide LateInv, Advance, Keep, Seen;
    LateNext(s, StepOf(p, s, id, step).value);
  }

  lemma LateStray(p: Params, s: System, a: Action)
    requires RedisInv(p, s) && LateInv(s) && Act(p, s, a).Some? && (a.StrayPrune? || a.StrayAdd? || a.StrayRenew?)
    ensures LateInv(Act(p, s, a).value)
  {
    SeenLate(p, s);
    SameScores(p, s);
    SeenAdmitted(p, s);
    AdmittedScored(p, s);
    hide Seen, LateInv, RedisInv, Without, PipelineAt;
    var m, now := if a.StrayAdd? then a.member else 0, if a.StrayRenew? then 0 else a.now;
    CommandLapses(p, Seen(p, s), m, now, Millis(s.clock));
    LateNext(s.(store := Seen(p, s)), Act(p, s, a).value);
  }

  lemma LatePipeline(p: Params, s: System, a: Action)
    requires RedisInv(p, s) && LateInv(s) && Act(p, s, a).Some? && a.StrayPipeline?
    ensures LateInv(Act(p, s, a).value)
  {
    SeenLate(p, s);
    SameScores(p, s);
    SeenAdmitted(p, s);
    AdmittedScored(p, s);
    hide Seen, LateInv, RedisInv, PipelineAt;
    PipelineLapses(p, s, a.member, a.now);
    LateNext(s.(store := Seen(p, s)), Act(p, s, a).value);
  }

  lemma LateStep(p: Params, s: System, a: Action)
    requires RedisInv(p, s) && LateInv(s) && Act(p, s, a).Some?
    ensures LateInv(Act(p, s, a).value)
  {
    hide LateInv, RedisInv, StepOf, Seen, AfterPrune, AfterAdd, AfterRenew;
    match a
    case Tick(t) => LateNext(s, s.(clock := t));
    case Start(id) => LateNext(s, Act(p, s, a).value);
    case Of(id, step) =>
      if step.Prune? || step.Add? || step.Card? {
        LateEarly(p, s, id, step);
      } else if step.Renew? {
        LateRenew(p, s, id);
      } else if step.Reply? {
        LateReply(p, s, id);
      } else {
        LateOther(p, s, id, step);
      }
    case Evict(now) => LateNext(s, Act(p, s, a).value);
    case StrayPipeline(m, now) => LatePipeline(p, s, a);
    case _ => LateStray(p, s, a);
  }

  lemma {:induction false} LateHolds(p: Params, states: seq<System>, actions: seq<Action>, n: nat)
    requires Run(p, states, actions) && n < |states|
    ensures LateInv(states[n])
  {
    if n > 0 {
      hide Act, LateInv, RedisInv;
      LateHolds(p, states, actions, n - 1);
      RedisHolds(p, states, actions, n - 1);
      assert Follows(p, states, actions, n - 1);
      LateStep(p, states[n - 1], actions[n - 1]);
    }
  }

  /** Prompt pipelines wiped within one window were wiped by one deadline. */
  lemma OneLapse(p: Params, s: System, m: nat, x: nat)
    requires RedisInv(p, s) && LateInv(s) && s.delay <= SLACK
    requires m in s.store.straddling && x in s.store.straddling && m in s.store.admitted && x in s.store.admitted
    requires m in s.store.scores && x in s.store.scores && 0 - p.window < s.store.scores[x] - s.store.scores[m] < p.window
    ensures s.store.straddling[m] == s.store.straddling[x]
  {
    var st := s.store;
    assert StraddleInv(st) && LapsesInv(p.window, Millis(s.clock), st);
    assert NotLater(st, s.delay, m, st.scores[m]) && NotLater(st, s.delay, x, st.scores[x]);
    var i, j := st.straddling[m], st.straddling[x];
    if i < j { LapsesApart(p.window, Millis(s.clock), st, i, j); }
    if j < i { LapsesApart(p.window, Millis(s.clock), st, j, i); }
  }

  /** So a prompt window holds at most one wiped admission for every pipeline under way. */
  lemma PromptStraddlers(p: Params, k: nat, s: System, lo: int, hi: int)
    requires RedisInv(p, s) && LateInv(s) && s.delay <= SLACK && FewEach(s.store, k) && hi - lo < p.window
    requires s.store.admitted <= s.store.scores.Keys
    ensures |InSpan(s.store.admitted * s.store.lost, s.store.scores, lo, hi)| <= k
  {
    var wiped := InSpan(s.store.admitted * s.store.lost, s.store.scores, lo, hi);
    assert FlightInv(p.window, Millis(s.clock), s.store, Flying(s.calls), Renewing(s.calls));
    if m :| m in wiped {
      forall x | x in wiped ensures x in At(s.store.straddling, s.store.straddling[m]) {
        OneLapse(p, s, m, x);
      }
      SubsetSize(wiped, At(s.store.straddling, s.store.straddling[m]));
    } else {
      assert wiped == {};
    }
  }
}
