/** What every run of the job protocol keeps: single processing, ownership and integrity of results, wakeups
    that are not lost, and the depth gate. */
module JobGuarantees {
  import opened Arithmetic
  import opened JobCodec
  import opened JobProtocol
  import opened Options

  /** Which part of the state each side touches. */
  lemma Frame(d: nat, s: System, a: Action)
    requires Act(d, s, a).Some?
    ensures var s' := Act(d, s, a).value;
            && (ByProducer(a) ==> s.stream <= s'.stream)
            && (ByProducer(a) ==> s' == s.(cleared := s'.cleared, stream := s'.stream, submitted := s'.submitted))
            && (ByWaiter(a) ==> s' == s.(results := s'.results, waiters := s'.waiters, expired := s'.expired))
            && (!ByProducer(a) && !ByWaiter(a) ==>
                  s'.cleared == s.cleared && s'.stream == s.stream && s'.submitted == s.submitted && s'.expired == s.expired)
  {
    hide ParseJob, Deliver, Fields, JobOf, Envelope, Answer;
  }

  // ----- single processing -----

  ghost predicate Busy(k: Worker) { k != Idle }

  /** Every entry handed out went to one worker, once, in order; no two workers hold the same entry; and an
      acknowledged entry is held by nobody and was told to the waiters unless its processing panicked. */
  ghost predicate WorkInv(s: System) {
    && s.cursor == |s.deliveries| <= |s.stream|
    && (forall i :: 0 <= i < |s.deliveries| ==> s.deliveries[i].0 == i)
    && (forall w :: w in s.workers && Busy(s.workers[w]) ==>
          s.workers[w].msg < s.cursor && s.deliveries[s.workers[w].msg].1 == w && s.workers[w].msg !in s.acked)
    && (forall m :: m in s.acked ==> m < s.cursor && (m in s.told || m in s.panicked))
    && (forall w :: w in s.workers && s.workers[w].Told? ==> s.workers[w].msg in s.told)
  }

  lemma WorkStep(d: nat, s: System, a: Action)
    requires WorkInv(s) && Act(d, s, a).Some?
    ensures WorkInv(Act(d, s, a).value)
  {
    if ByProducer(a) || ByWaiter(a) {
      hide Act;
      Frame(d, s, a);
    } else if a.Read? || a.StartWorker? {
      WorkTaken(s, a);
    } else if a.Ack? || a.Panic? || a.Crash? {
      WorkLeft(s, a);
    } else {
      WorkMoved(s, a);
    }
  }

  lemma WorkTaken(s: System, a: Action)
    requires WorkInv(s) && (a.Read? || a.StartWorker?) && WorkerAct(s, a).Some?
    ensures WorkInv(WorkerAct(s, a).value)
  {
  }

  lemma WorkLeft(s: System, a: Action)
    requires WorkInv(s) && (a.Ack? || a.Panic? || a.Crash?) && WorkerAct(s, a).Some?
    ensures WorkInv(WorkerAct(s, a).value)
  {
  }

  lemma WorkMoved(s: System, a: Action)
    requires WorkInv(s) && (a.Process? || a.Set? || a.Publish?) && WorkerAct(s, a).Some?
    ensures WorkInv(WorkerAct(s, a).value)
  {
    WorkerKeeps(s, a);
    hide WorkerAct;
  }

  /** Such a step moves its worker on with the entry it holds. */
  lemma WorkerKeeps(s: System, a: Action)
    requires (a.Process? || a.Set? || a.Publish?) && WorkerAct(s, a).Some?
    ensures var s' := WorkerAct(s, a).value;
            && a.w in s.workers && Busy(s.workers[a.w])
            && s'.deliveries == s.deliveries && s'.cursor == s.cursor && s'.stream == s.stream && s'.acked == s.acked
            && s'.panicked == s.panicked && s.told <= s'.told
            && s'.workers == s.workers[a.w := s'.workers[a.w]] && Busy(s'.workers[a.w])
            && s'.workers[a.w].msg == s.workers[a.w].msg
            && (s'.workers[a.w].Told? ==> s'.workers[a.w].msg in s'.told)
  {
    hide ParseJob, Deliver, JobOf, Envelope;
  }

  /** At most once: in every run each entry is delivered to at most one worker, never handed out again,
      and acknowledged only after its PUBLISH was attempted, or because its processing panicked. */
  lemma {:induction false} AtMostOnce(d: nat, states: seq<System>, actions: seq<Action>, n: nat)
    requires Run(d, states, actions) && n < |states|
    ensures WorkInv(states[n])
    ensures forall i, j :: 0 <= i < j < |states[n].deliveries| ==> states[n].deliveries[i].0 != states[n].deliveries[j].0
    ensures forall m :: m in states[n].acked && m !in states[n].panicked ==> m in states[n].told
  {
    if n > 0 {
      AtMostOnce(d, states, actions, n - 1);
      assert Follows(d, states, actions, n - 1);
      WorkStep(d, states[n - 1], actions[n - 1]);
    }
  }

  // ----- the depth gate -----

  ghost predicate DepthInv(d: nat, k: nat, s: System) {
    && |s.stream| <= d + k - 1
    && (s.cleared != map[] ==> |s.stream| + |s.cleared| <= d + k - 1)
  }

  lemma DepthStep(d: nat, k: nat, s: System, a: Action)
    requires DepthInv(d, k, s) && 1 <= k && Act(d, s, a).Some? && |Act(d, s, a).value.cleared| <= k
    ensures DepthInv(d, k, Act(d, s, a).value)
    ensures |s.stream| <= |Act(d, s, a).value.stream|
  {
    if !ByProducer(a) {
      hide Act;
      Frame(d, s, a);
    } else {
      hide ParseJob, Deliver, Fields, JobOf, WorkerAct, WaiterAct;
      if a.Add? || a.Drop? { OneLess(s.cleared, a.call); }
    }
  }

  lemma DepthMeans(d: nat, k: nat, s: System)
    requires DepthInv(d, k, s)
    ensures |s.stream| <= d + k - 1
  {
  }

  /** The check-then-add gate: with never more than k calls between their XLEN and their XADD, the stream
      holds at most maxDepth + k - 1 entries, and maxDepth when calls do not overlap. */
  lemma {:induction false} DepthBound(d: nat, k: nat, states: seq<System>, actions: seq<Action>, n: nat)
    requires Run(d, states, actions) && n < |states| && 1 <= k
    requires forall i :: 0 <= i < |states| ==> |states[i].cleared| <= k
    ensures |states[n].stream| <= d + k - 1
    ensures DepthInv(d, k, states[n])
  {
    hide Act;
    if n > 0 {
      DepthBound(d, k, states, actions, n - 1);
      assert Follows(d, states, actions, n - 1);
      assert |states[n].cleared| <= k;
      hide DepthInv;
      DepthStep(d, k, states[n - 1], actions[n - 1]);
      DepthMeans(d, k, states[n]);
    }
  }

  /** Acknowledging removes nothing: a stream that has once reached maxDepth refuses every later job. */
  lemma {:induction false} FullForGood(d: nat, states: seq<System>, actions: seq<Action>, i: nat, n: nat, call: nat, job: Job)
    requires Run(d, states, actions) && i <= n < |states| && d <= |states[i].stream|
    ensures d <= |states[n].stream| && Act(d, states[n], Clear(call, job)) == None
    decreases n
  {
    if i < n {
      FullForGood(d, states, actions, i, n - 1, call, job);
      assert Follows(d, states, actions, n - 1);
      StreamGrows(d, states[n - 1], actions[n - 1]);
    }
  }

  lemma StreamGrows(d: nat, s: System, a: Action)
    requires Act(d, s, a).Some?
    ensures s.stream <= Act(d, s, a).value.stream
  {
    hide Act;
    Frame(d, s, a);
  }

  // ----- ownership and integrity -----

  /** The payload is the envelope of a processed entry for this job: its own user, its own worker's result. */
  ghost predicate Genuine(s: System, jobId: string, payload: Payload) {
    exists m :: Made(s, m, jobId, payload)
  }

  ghost predicate Made(s: System, m: nat, jobId: string, payload: Payload) {
    m < |s.stream| && m in s.computed && JobOf(s, m).jobId == jobId && payload == Envelope(s, m)
  }

  ghost predicate WaiterInv(s: System, w: Waiter) {
    && (forall i :: 0 <= i < |w.inbox| ==> Genuine(s, w.job, w.inbox[i]))
    && (w.pc.Done? && (w.pc.outcome.Result? || w.pc.outcome == NotFound) ==> Answered(s, w.job, w.user, w.pc.outcome))
  }

  /** The outcome is what a genuine payload of the job means to the user. */
  ghost predicate Answered(s: System, jobId: string, user: string, outcome: Outcome) {
    exists payload :: Genuine(s, jobId, payload) && outcome == Answer(payload, user)
  }

  ghost predicate ResultsInv(s: System) {
    && (forall j :: j in s.results ==> Genuine(s, j, s.results[j]))
    && (forall id :: id in s.waiters ==> WaiterInv(s, s.waiters[id]))
  }

  /** Entries are only appended and results only added, except that an entry being processed gets its result. */
  lemma MadeStays(d: nat, s: System, a: Action, m: nat, jobId: string, payload: Payload)
    requires WorkInv(s) && FreshWork(s) && Act(d, s, a).Some? && Made(s, m, jobId, payload)
    ensures Made(Act(d, s, a).value, m, jobId, payload)
  {
    hide ParseJob, Deliver, Fields;
  }

  /** An entry still waiting to be processed has no result yet. */
  ghost predicate FreshWork(s: System) {
    && (forall w :: w in s.workers && s.workers[w].Holding? ==> s.workers[w].msg !in s.computed)
    && (forall m :: m in s.computed ==> m < s.cursor)
  }

  lemma FreshStep(d: nat, s: System, a: Action)
    requires WorkInv(s) && FreshWork(s) && Act(d, s, a).Some?
    ensures FreshWork(Act(d, s, a).value)
  {
    if ByProducer(a) || ByWaiter(a) {
      hide Act, WorkInv;
      Frame(d, s, a);
    } else if a.Read? || a.Process? {
      FreshTaken(s, a);
    } else {
      FreshMoved(s, a);
    }
  }

  lemma FreshTaken(s: System, a: Action)
    requires WorkInv(s) && FreshWork(s) && (a.Read? || a.Process?) && WorkerAct(s, a).Some?
    ensures FreshWork(WorkerAct(s, a).value)
  {
  }

  lemma FreshMoved(s: System, a: Action)
    requires FreshWork(s) && !ByProducer(a) && !ByWaiter(a) && !a.Read? && !a.Process? && WorkerAct(s, a).Some?
    ensures FreshWork(WorkerAct(s, a).value)
  {
    hide ParseJob, Deliver, JobOf, Envelope;
  }

  lemma GenuineStays(d: nat, s: System, a: Action, jobId: string, payload: Payload)
    requires WorkInv(s) && FreshWork(s) && Act(d, s, a).Some? && Genuine(s, jobId, payload)
    ensures Genuine(Act(d, s, a).value, jobId, payload)
  {
    var m :| Made(s, m, jobId, payload);
    MadeStays(d, s, a, m, jobId, payload);
  }

  lemma AnswerGenuine(s: System, jobId: string, payload: Payload, user: string)
    requires Genuine(s, jobId, payload)
    ensures Answered(s, jobId, user, Answer(payload, user))
  {
  }

  lemma WaiterStays(d: nat, s: System, a: Action, w: Waiter)
    requires WorkInv(s) && FreshWork(s) && Act(d, s, a).Some? && WaiterInv(s, w)
    ensures WaiterInv(Act(d, s, a).value, w)
  {
    hide Act, WorkInv, FreshWork, Genuine, Answer;
    var s' := Act(d, s, a).value;
    forall i | 0 <= i < |w.inbox| ensures Genuine(s', w.job, w.inbox[i]) {
      GenuineStays(d, s, a, w.job, w.inbox[i]);
    }
    if w.pc.Done? && (w.pc.outcome.Result? || w.pc.outcome == NotFound) {
      var payload :| Genuine(s, w.job, payload) && w.pc.outcome == Answer(payload, w.user);
      GenuineStays(d, s, a, w.job, payload);
    }
  }

  /** A waiter's own step keeps it answered from genuine payloads. */
  lemma WaiterActs(s: System, a: Action, id: nat)
    requires ResultsInv(s) && ByWaiter(a) && WaiterAct(s, a).Some? && id in WaiterAct(s, a).value.waiters
    ensures WaiterInv(s, WaiterAct(s, a).value.waiters[id])
  {
    hide ParseJob, Genuine, Answer, Answered;
    if id in s.waiters {
      var w := s.waiters[id];
      assert WaiterInv(s, w);
      if a.Get? && a.id == id && w.job in s.results {
        AnswerGenuine(s, w.job, s.results[w.job], w.user);
      } else if a.Receive? && a.id == id {
        AnswerGenuine(s, w.job, w.inbox[0], w.user);
      }
    }
  }

  /** A worker's step sends a waiter nothing but its own envelope, and a producer's nothing at all. */
  lemma WaiterTold(d: nat, s: System, a: Action, id: nat)
    requires !ByWaiter(a) && Act(d, s, a).Some? && id in Act(d, s, a).value.waiters
    ensures id in s.waiters
    ensures var s', w := Act(d, s, a).value, s.waiters[id];
            || s'.waiters[id] == w
            || exists m :: m < |s'.stream| && m in s'.computed && JobOf(s', m).jobId == w.job
                           && s'.waiters[id] == w.(inbox := w.inbox + [Envelope(s', m)])
  {
    hide ParseJob, Fields, Answer;
    if a.Publish? && a.ok {
      var m, s' := s.workers[a.w].msg, Act(d, s, a).value;
      assert JobOf(s', m) == JobOf(s, m) && Envelope(s', m) == Envelope(s, m);
    }
  }

  lemma InboxGrows(s: System, w: Waiter, payload: Payload)
    requires WaiterInv(s, w) && Genuine(s, w.job, payload)
    ensures WaiterInv(s, w.(inbox := w.inbox + [payload]))
  {
    hide Genuine, Answered;
  }

  lemma WaiterHolds(s: System, id: nat)
    requires ResultsInv(s) && id in s.waiters
    ensures WaiterInv(s, s.waiters[id])
  {
  }

  /** What an action does to one waiter: nothing, a delivery of the worker's own envelope, or its own step. */
  lemma WaiterChanges(d: nat, s: System, a: Action, id: nat)
    requires WorkInv(s) && FreshWork(s) && ResultsInv(s) && Act(d, s, a).Some? && id in Act(d, s, a).value.waiters
    ensures WaiterInv(Act(d, s, a).value, Act(d, s, a).value.waiters[id])
  {
    hide WorkInv, FreshWork, ResultsInv, WaiterInv, Genuine, JobOf, Envelope, WaiterAct, WorkerAct, ProducerAct;
    var s' := Act(d, s, a).value;
    if ByWaiter(a) {
      WaiterActs(s, a, id);
      WaiterStays(d, s, a, s'.waiters[id]);
    } else {
      hide Act;
      WaiterTold(d, s, a, id);
      WaiterHolds(s, id);
      var w := s.waiters[id];
      WaiterStays(d, s, a, w);
      if s'.waiters[id] != w {
        var m :| m < |s'.stream| && m in s'.computed && JobOf(s', m).jobId == w.job
                 && s'.waiters[id] == w.(inbox := w.inbox + [Envelope(s', m)]);
        MadeHere(s', m);
        InboxGrows(s', w, Envelope(s', m));
      }
    }
  }

  lemma MadeHere(s: System, m: nat)
    requires m < |s.stream| && m in s.computed
    ensures Genuine(s, JobOf(s, m).jobId, Envelope(s, m))
  {
    assert Made(s, m, JobOf(s, m).jobId, Envelope(s, m));
  }

  lemma StoredGenuine(d: nat, s: System, a: Action, j: string)
    requires WorkInv(s) && FreshWork(s) && ResultsInv(s) && Act(d, s, a).Some? && j in Act(d, s, a).value.results
    ensures Genuine(Act(d, s, a).value, j, Act(d, s, a).value.results[j])
  {
    hide ParseJob, Fields, WorkInv, FreshWork, Genuine, Deliver;
    if j in s.results { GenuineStays(d, s, a, j, s.results[j]); }
    if a.Set? && a.ok { MadeHere(Act(d, s, a).value, s.workers[a.w].msg); }
  }

  lemma ResultsStep(d: nat, s: System, a: Action)
    requires WorkInv(s) && FreshWork(s) && ResultsInv(s) && Act(d, s, a).Some?
    ensures ResultsInv(Act(d, s, a).value)
  {
    hide Act, WorkInv, FreshWork, Genuine, WaiterInv;
    var s' := Act(d, s, a).value;
    forall j | j in s'.results ensures Genuine(s', j, s'.results[j]) {
      StoredGenuine(d, s, a, j);
    }
    forall id | id in s'.waiters ensures WaiterInv(s', s'.waiters[id]) {
      WaiterChanges(d, s, a, id);
    }
  }

  /** Entry by entry the stream decodes to what was submitted, and job IDs are fresh. */
  ghost predicate SubmittedInv(s: System) {
    && |s.submitted| == |s.stream|
    && (forall m :: 0 <= m < |s.stream| ==> JobOf(s, m) == s.submitted[m])
    && (forall i, j :: 0 <= i < j < |s.submitted| ==> s.submitted[i].jobId != s.submitted[j].jobId)
  }

  lemma SubmittedStep(d: nat, s: System, a: Action)
    requires SubmittedInv(s) && Act(d, s, a).Some?
    ensures SubmittedInv(Act(d, s, a).value)
  {
    hide ParseJob, Fields, Deliver;
    if a.Add? {
      ParseInvertsFields(s.cleared[a.call], a.jobId, a.at);
    }
  }

  lemma {:induction false} AllInv(d: nat, states: seq<System>, actions: seq<Action>, n: nat)
    requires Run(d, states, actions) && n < |states|
    ensures WorkInv(states[n]) && FreshWork(states[n]) && ResultsInv(states[n]) && SubmittedInv(states[n])
  {
    hide Act, WorkInv, FreshWork, ResultsInv, SubmittedInv;
    if n == 0 {
      InitInv();
    } else {
      AllInv(d, states, actions, n - 1);
      var s, a := states[n - 1], actions[n - 1];
      assert Follows(d, states, actions, n - 1);
      WorkStep(d, s, a);
      FreshStep(d, s, a);
      ResultsStep(d, s, a);
      SubmittedStep(d, s, a);
    }
  }

  lemma InitInv()
    ensures WorkInv(INIT) && FreshWork(INIT) && ResultsInv(INIT) && SubmittedInv(INIT)
  {
  }

  /** End to end: a waiter that is answered hears of the one job enqueued under its ID, read back field by field as
      it was submitted. To the user who submitted it the answer is exactly what the worker computed for it; to
      anyone else it is "not found". */
  lemma OwnedResult(d: nat, states: seq<System>, actions: seq<Action>, n: nat, id: nat) returns (m: nat)
    requires Run(d, states, actions) && n < |states| && id in states[n].waiters && states[n].waiters[id].pc.Done?
    requires states[n].waiters[id].pc.outcome.Result? || states[n].waiters[id].pc.outcome == NotFound
    ensures var s, w := states[n], states[n].waiters[id];
            && m < |s.submitted| && s.submitted[m].jobId == w.job
            && m < |s.stream| && JobOf(s, m) == s.submitted[m] && m in s.computed
            && w.pc.outcome == (if s.submitted[m].userId == w.user then Result(s.computed[m]) else NotFound)
            && forall i :: 0 <= i < |s.submitted| && s.submitted[i].jobId == w.job ==> i == m
  {
    AllInv(d, states, actions, n);
    var s, w := states[n], states[n].waiters[id];
    assert WaiterInv(s, w);
    var payload :| Genuine(s, w.job, payload) && w.pc.outcome == Answer(payload, w.user);
    m :| Made(s, m, w.job, payload);
  }

  /** So whoever submitted a job is never told that it was not found. */
  lemma OwnerNeverRefused(d: nat, states: seq<System>, actions: seq<Action>, n: nat, id: nat, m: nat)
    requires Run(d, states, actions) && n < |states| && id in states[n].waiters && m < |states[n].submitted|
    requires states[n].waiters[id].job == states[n].submitted[m].jobId
    requires states[n].waiters[id].user == states[n].submitted[m].userId
    ensures states[n].waiters[id].pc != Done(NotFound)
  {
    if states[n].waiters[id].pc == Done(NotFound) {
      var i := OwnedResult(d, states, actions, n, id);
      assert false;
    }
  }

  // ----- no lost wakeup -----

  /** The SET of an entry was done and its result has not timed out. */
  ghost predicate Kept(s: System, m: nat)
    requires m < |s.stream|
  {
    m in s.stored && JobOf(s, m).jobId !in s.expired
  }

  /** Nothing is published before its SET, and what was stored is there until it expires. */
  ghost predicate SetsInv(s: System) {
    && (forall m :: m in s.stored || m in s.published ==> m < |s.stream|)
    && (forall w :: w in s.workers && (s.workers[w].Holding? || s.workers[w].Computed?) ==> s.workers[w].msg !in s.published)
    && (forall m :: m in s.published ==> m < s.cursor)
    && (forall m :: m in s.stored && Kept(s, m) ==> JobOf(s, m).jobId in s.results)
  }

  ghost predicate WakeInv(s: System) {
    && SetsInv(s)
    && (forall id :: id in s.waiters ==> Woken(s, s.waiters[id]))
  }

  /** A waiter that went to sleep with its subscription active has been sent whatever was stored and published. */
  ghost predicate Woken(s: System, w: Waiter)
    requires forall m :: m in s.stored || m in s.published ==> m < |s.stream|
  {
    && (w.activeAtGet ==> w.active)
    && (w.pc == Waiting && w.activeAtGet && w.inbox == [] ==>
          forall m :: m in s.published && m in s.stored && JobOf(s, m).jobId == w.job ==> !Kept(s, m))
  }

  lemma SetsStep(d: nat, s: System, a: Action)
    requires WorkInv(s) && SetsInv(s) && Act(d, s, a).Some?
    ensures SetsInv(Act(d, s, a).value)
  {
    if ByProducer(a) {
      hide Act, ParseJob;
      Frame(d, s, a);
    } else if ByWaiter(a) {
      hide ParseJob, ProducerAct, WorkerAct, Answer;
    } else {
      SetsStepByWorker(s, a);
    }
  }

  lemma SetsStepByWorker(s: System, a: Action)
    requires WorkInv(s) && SetsInv(s) && !ByProducer(a) && !ByWaiter(a) && WorkerAct(s, a).Some?
    ensures SetsInv(WorkerAct(s, a).value)
  {
    if a.Set? || a.Publish? {
      SetsStepTelling(s, a);
    } else {
      hide ParseJob, Deliver, Envelope, JobOf;
    }
  }

  lemma SetsStepTelling(s: System, a: Action)
    requires WorkInv(s) && SetsInv(s) && (a.Set? || a.Publish?) && WorkerAct(s, a).Some?
    ensures SetsInv(WorkerAct(s, a).value)
  {
    if a.Set? { SetsStepBySet(s, a); } else { SetsStepByPublish(s, a); }
  }

  lemma SetsStepBySet(s: System, a: Action)
    requires WorkInv(s) && SetsInv(s) && a.Set? && WorkerAct(s, a).Some?
    ensures SetsInv(WorkerAct(s, a).value)
  {
    hide ParseJob, Envelope;
  }

  lemma SetsStepByPublish(s: System, a: Action)
    requires WorkInv(s) && SetsInv(s) && a.Publish? && WorkerAct(s, a).Some?
    ensures SetsInv(WorkerAct(s, a).value)
  {
    hide ParseJob, Deliver, Envelope;
  }

  lemma WokenStep(d: nat, s: System, a: Action, id: nat)
    requires WorkInv(s) && WakeInv(s) && Act(d, s, a).Some? && id in Act(d, s, a).value.waiters
    requires SetsInv(Act(d, s, a).value)
    ensures Woken(Act(d, s, a).value, Act(d, s, a).value.waiters[id])
  {
    if id in s.waiters { assert Woken(s, s.waiters[id]); }
    if ByProducer(a) {
      hide Act, ParseJob, WorkInv;
      Frame(d, s, a);
    } else if ByWaiter(a) {
      WokenStepByWaiter(s, a, id);
    } else {
      hide ProducerAct, WaiterAct, WorkerAct, Woken, SetsInv;
      WokenStepByWorker(s, a, id);
    }
  }

  lemma WokenStepByWaiter(s: System, a: Action, id: nat)
    requires SetsInv(s) && ByWaiter(a) && WaiterAct(s, a).Some? && id in WaiterAct(s, a).value.waiters
    requires id in s.waiters ==> Woken(s, s.waiters[id])
    requires SetsInv(WaiterAct(s, a).value)
    ensures Woken(WaiterAct(s, a).value, WaiterAct(s, a).value.waiters[id])
  {
    hide ParseJob, Answer;
  }

  lemma WokenStepByWorker(s: System, a: Action, id: nat)
    requires WorkInv(s) && SetsInv(s) && !ByProducer(a) && !ByWaiter(a) && WorkerAct(s, a).Some?
    requires id in s.waiters && Woken(s, s.waiters[id]) && SetsInv(WorkerAct(s, a).value)
    ensures id in WorkerAct(s, a).value.waiters && Woken(WorkerAct(s, a).value, WorkerAct(s, a).value.waiters[id])
  {
    hide ParseJob, Envelope;
  }

  lemma WakeStep(d: nat, s: System, a: Action)
    requires WorkInv(s) && WakeInv(s) && Act(d, s, a).Some?
    ensures WakeInv(Act(d, s, a).value)
  {
    hide Act, WorkInv, Woken;
    SetsStep(d, s, a);
    forall id | id in Act(d, s, a).value.waiters ensures Woken(Act(d, s, a).value, Act(d, s, a).value.waiters[id]) {
      WokenStep(d, s, a, id);
    }
  }

  lemma {:induction false} WakeHolds(d: nat, states: seq<System>, actions: seq<Action>, n: nat)
    requires Run(d, states, actions) && n < |states|
    ensures WakeInv(states[n])
  {
    if n > 0 {
      hide Act, WorkInv, WakeInv;
      WakeHolds(d, states, actions, n - 1);
      AtMostOnce(d, states, actions, n - 1);
      assert Follows(d, states, actions, n - 1);
      WakeStep(d, states[n - 1], actions[n - 1]);
    }
  }

  /** No lost wakeup: once the worker has stored and published a job's result and it has not timed out, a
      waiter for that job has given up, or was answered with this result, or will be: its GET would find it, or,
      if it is already waiting and its subscription was active when the GET was answered, it has a message. */
  lemma NoLostWakeup(d: nat, states: seq<System>, actions: seq<Action>, n: nat, m: nat, id: nat)
    requires Run(d, states, actions) && n < |states| && id in states[n].waiters
    requires m in states[n].stored && m in states[n].published
    ensures m < |states[n].stream|
    ensures var s, w := states[n], states[n].waiters[id];
            JobOf(s, m).jobId == w.job && w.job !in s.expired ==>
              match w.pc
              case BeforeGet => w.job in s.results
              case Waiting => w.activeAtGet ==> w.inbox != []
              case Done(o) => o == Timeout || o == Gone || (m in s.computed && o == Answer(Envelope(s, m), w.user))
  {
    WakeHolds(d, states, actions, n);
    var s, w := states[n], states[n].waiters[id];
    assert Woken(s, w);
    if JobOf(s, m).jobId == w.job && w.pc.Done? && w.pc.outcome != Timeout && w.pc.outcome != Gone {
      var i := OwnedResult(d, states, actions, n, id);
      AllInv(d, states, actions, n);
      assert SubmittedInv(s) && JobOf(s, m) == s.submitted[m];
    }
  }

  // ----- what does not hold -----

  /** Appending one enabled action to a run. */
  lemma Extend(d: nat, states: seq<System>, actions: seq<Action>, a: Action)
    requires Run(d, states, actions) && Act(d, states[|actions|], a).Some?
    ensures Run(d, states + [Act(d, states[|actions|], a).value], actions + [a])
  {
    hide Act;
    var states', actions' := states + [Act(d, states[|actions|], a).value], actions + [a];
    forall i | 0 <= i < |actions'| ensures Follows(d, states', actions', i) {
      if i < |actions| { assert Follows(d, states, actions, i); }
    }
  }

  /** A job is appended and handed to a worker. */
  lemma HandedOut(job: Job, jobId: string, at: string) returns (states: seq<System>, actions: seq<Action>)
    ensures Run(1, states, actions)
    ensures states[|actions|] == INIT.(stream := [Fields(job, jobId, at)], cursor := 1, workers := map[0 := Holding(0)],
                                       submitted := [job.(jobId := jobId)], deliveries := [(0, 0)])
  {
    hide ParseJob, Fields, WaiterAct;
    states, actions := [INIT], [];
    Extend(1, states, actions, Clear(0, job));
    states, actions := states + [Act(1, states[0], Clear(0, job)).value], actions + [Clear(0, job)];
    Extend(1, states, actions, Add(0, jobId, at));
    states, actions := states + [Act(1, states[1], Add(0, jobId, at)).value], actions + [Add(0, jobId, at)];
    Extend(1, states, actions, StartWorker(0));
    states, actions := states + [Act(1, states[2], StartWorker(0)).value], actions + [StartWorker(0)];
    Extend(1, states, actions, Read(0));
    states, actions := states + [Act(1, states[3], Read(0)).value], actions + [Read(0)];
  }

  /** Meanwhile its waiter sends SUBSCRIBE and misses with its GET. */
  lemma MissedGet(job: Job, jobId: string, at: string) returns (states: seq<System>, actions: seq<Action>)
    ensures Run(1, states, actions)
    ensures var s := states[|actions|];
            && s.stream == [Fields(job, jobId, at)] && s.workers == map[0 := Holding(0)] && s.results == map[]
            && s.waiters == map[0 := Waiter(jobId, job.userId, Waiting, false, false, [])]
            && s.computed == map[] && s.stored == {} && s.published == {} && s.expired == {} && s.acked == {}
  {
    hide ParseJob, Fields, ProducerAct, WorkerAct;
    states, actions := HandedOut(job, jobId, at);
    var s := states[|actions|];
    Extend(1, states, actions, Subscribe(0, jobId, job.userId));
    var s1 := Act(1, s, Subscribe(0, jobId, job.userId)).value;
    states, actions := states + [s1], actions + [Subscribe(0, jobId, job.userId)];
    Extend(1, states, actions, Get(0));
    states, actions := states + [Act(1, s1, Get(0)).value], actions + [Get(0)];
  }

  /** Two things the design suggests and the code does not give. A subscription that becomes active only after
      the GET can miss the wakeup: the result is stored and published, and the waiter sleeps on. And a
      stream whose every entry has been acknowledged can still refuse new jobs as full. */
  lemma LateSubscriptionSleeps(job: Job, jobId: string, at: string, r: string) returns (states: seq<System>, actions: seq<Action>)
    ensures Run(1, states, actions)
    ensures var s := states[|actions|];
            && 0 in s.waiters && s.waiters[0].job == jobId && s.waiters[0].pc == Waiting && s.waiters[0].inbox == []
            && |s.stream| == 1 && JobOf(s, 0).jobId == jobId && 0 in s.stored && 0 in s.published && s.expired == {}
            && s.acked == {0} && Act(1, s, Clear(1, job)) == None
  {
    states, actions := MissedGet(job, jobId, at);
    ParseInvertsFields(job, jobId, at);
    hide ParseJob, Fields;
    var n := |actions|;
    var s0 := states[n];
    Extend(1, states, actions, Process(0, r));
    var s1 := Act(1, s0, Process(0, r)).value;
    states, actions := states + [s1], actions + [Process(0, r)];
    Extend(1, states, actions, Set(0, true));
    var s2 := Act(1, s1, Set(0, true)).value;
    states, actions := states + [s2], actions + [Set(0, true)];
    Extend(1, states, actions, Publish(0, true));
    var s3 := Act(1, s2, Publish(0, true)).value;
    states, actions := states + [s3], actions + [Publish(0, true)];
    Extend(1, states, actions, Activate(0));
    var s4 := Act(1, s3, Activate(0)).value;
    states, actions := states + [s4], actions + [Activate(0)];
    Extend(1, states, actions, Ack(0));
    states, actions := states + [Act(1, s4, Ack(0)).value], actions + [Ack(0)];
  }
}
