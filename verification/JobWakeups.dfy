/** Exactly which waiters a job's message wakes (internal/sse/hub.go:50-84, internal/queue/worker.go:97-104). */
module JobWakeups {
  import opened JobCodec
  import opened JobProtocol
  import opened JobGuarantees
  import opened Options

  /** No entry is published while its worker has yet to publish it. */
  ghost predicate UnpublishedInv(s: System) {
    && (forall w :: w in s.workers && Unpublished(s.workers[w]) ==> s.workers[w].msg !in s.published)
    && (forall m :: m in s.published ==> m < s.cursor)
  }

  predicate Unpublished(k: Worker) { k.Holding? || k.Computed? || k.AfterSet? }

  /** A message in a waiter's channel is that of a published entry of its job. */
  ghost predicate InboxInv(s: System) {
    forall id :: id in s.waiters && s.waiters[id].inbox != [] ==> SomePublished(s, s.waiters[id].job)
  }

  ghost predicate SomePublished(s: System, job: string) {
    exists m :: m in s.published && m < |s.stream| && JobOf(s, m).jobId == job
  }

  lemma UnpublishedStep(d: nat, s: System, a: Action)
    requires WorkInv(s) && UnpublishedInv(s) && Act(d, s, a).Some?
    ensures UnpublishedInv(Act(d, s, a).value)
  {
    if ByProducer(a) || ByWaiter(a) {
      hide Act, WorkInv;
      Frame(d, s, a);
    } else {
      UnpublishedByWorker(s, a);
    }
  }

  lemma UnpublishedByWorker(s: System, a: Action)
    requires WorkInv(s) && UnpublishedInv(s) && !ByProducer(a) && !ByWaiter(a) && WorkerAct(s, a).Some?
    ensures UnpublishedInv(WorkerAct(s, a).value)
  {
    hide ParseJob, Deliver, JobOf, Envelope;
  }

  lemma PublishedStays(d: nat, s: System, a: Action, job: string)
    requires SomePublished(s, job) && Act(d, s, a).Some?
    ensures SomePublished(Act(d, s, a).value, job)
  {
    var m :| m in s.published && m < |s.stream| && JobOf(s, m).jobId == job;
    PublishedGrows(d, s, a);
    var s' := Act(d, s, a).value;
    assert s'.stream[m] == s.stream[m];
    assert JobOf(s', m).jobId == job;
  }

  lemma PublishedGrows(d: nat, s: System, a: Action)
    requires Act(d, s, a).Some?
    ensures s.published <= Act(d, s, a).value.published && s.stream <= Act(d, s, a).value.stream
  {
    hide ParseJob, Deliver, JobOf, Envelope, Fields, Answer;
  }

  /** The entry whose result the action publishes. */
  function Sent(s: System, a: Action): Option<nat> {
    if a.Publish? && a.ok && a.w in s.workers && s.workers[a.w].AfterSet? && s.workers[a.w].msg < |s.stream|
    then Some(s.workers[a.w].msg) else None
  }

  /** The action sends a message to this waiter. */
  predicate Delivers(s: System, a: Action, id: nat) {
    && Sent(s, a).Some? && id in s.waiters && s.waiters[id].active
    && JobOf(s, Sent(s, a).value).jobId == s.waiters[id].job
  }

  /** What one action does to one waiter: its channel fills only by a delivery and empties only as it finishes. */
  ghost predicate ChannelMoves(s: System, a: Action, s': System, id: nat) {
    && (id in s.waiters ==> id in s'.waiters && s'.waiters[id].job == s.waiters[id].job)
    && (id in s.waiters && s.waiters[id].pc.Done? ==> s'.waiters[id].pc.Done?)
    && (id !in s.waiters && id in s'.waiters ==> s'.waiters[id].inbox == [])
    && (id in s.waiters && s.waiters[id].inbox == [] && s'.waiters[id].inbox != [] ==> Delivers(s, a, id))
    && (Delivers(s, a, id) ==> s'.waiters[id].inbox != [])
    && (id in s.waiters && s.waiters[id].inbox != [] && s'.waiters[id].inbox == [] ==> s'.waiters[id].pc.Done?)
    && (Sent(s, a).Some? ==> Sent(s, a).value in s'.published)
  }

  lemma StepChannel(d: nat, s: System, a: Action, id: nat)
    requires Act(d, s, a).Some?
    ensures ChannelMoves(s, a, Act(d, s, a).value, id)
  {
    if ByProducer(a) {
      hide Act, ParseJob;
      Frame(d, s, a);
    } else if ByWaiter(a) {
      hide ParseJob, ProducerAct, WorkerAct, Answer;
    } else {
      WorkerChannel(s, a, id);
    }
  }

  lemma WorkerChannel(s: System, a: Action, id: nat)
    requires !ByProducer(a) && !ByWaiter(a) && WorkerAct(s, a).Some?
    ensures ChannelMoves(s, a, WorkerAct(s, a).value, id)
  {
    hide ParseJob, Envelope;
  }

  lemma InboxStep(d: nat, s: System, a: Action)
    requires InboxInv(s) && Act(d, s, a).Some?
    ensures InboxInv(Act(d, s, a).value)
  {
    hide Act, SomePublished;
    var s' := Act(d, s, a).value;
    forall id | id in s'.waiters && s'.waiters[id].inbox != [] ensures SomePublished(s', s'.waiters[id].job) {
      StepChannel(d, s, a, id);
      if s.waiters[id].inbox != [] {
        PublishedStays(d, s, a, s.waiters[id].job);
      } else {
        DeliveredPublished(d, s, a, id);
      }
    }
  }

  lemma DeliveredPublished(d: nat, s: System, a: Action, id: nat)
    requires Act(d, s, a).Some? && Delivers(s, a, id) && Sent(s, a).value in Act(d, s, a).value.published
    ensures SomePublished(Act(d, s, a).value, s.waiters[id].job)
  {
    var m, s' := Sent(s, a).value, Act(d, s, a).value;
    PublishedGrows(d, s, a);
    assert s'.stream[m] == s.stream[m];
    assert JobOf(s', m).jobId == s.waiters[id].job;
  }

  lemma {:induction false} MessagesHold(d: nat, states: seq<System>, actions: seq<Action>, n: nat)
    requires Run(d, states, actions) && n < |states|
    ensures WorkInv(states[n]) && SubmittedInv(states[n]) && UnpublishedInv(states[n]) && InboxInv(states[n])
  {
    AllInv(d, states, actions, n);
    if n > 0 {
      hide Act, WorkInv, SubmittedInv, UnpublishedInv, InboxInv;
      MessagesHold(d, states, actions, n - 1);
      assert Follows(d, states, actions, n - 1);
      UnpublishedStep(d, states[n - 1], actions[n - 1]);
      InboxStep(d, states[n - 1], actions[n - 1]);
    }
  }

  /** Two entries of one job are one. */
  lemma OneEntry(s: System, m: nat, x: nat)
    requires SubmittedInv(s) && m < |s.stream| && x < |s.stream| && JobOf(s, m).jobId == JobOf(s, x).jobId
    ensures m == x
  {
    assert JobOf(s, m) == s.submitted[m] && JobOf(s, x) == s.submitted[x];
  }

  // ----- the message of one job

  /** Since the job's result was published: its unfinished waiter has a message exactly if it was to be woken then. */
  ghost predicate Settled(s: System, m: nat, id: nat, job: string, woken: bool) {
    && m < |s.stream| && m in s.published && JobOf(s, m).jobId == job
    && (id !in s.waiters ==> !woken)
    && (id in s.waiters && s.waiters[id].job == job && !s.waiters[id].pc.Done? ==> (s.waiters[id].inbox != [] <==> woken))
  }

  lemma SettledStays(d: nat, s: System, a: Action, m: nat, id: nat, job: string, woken: bool)
    requires SubmittedInv(s) && UnpublishedInv(s) && Settled(s, m, id, job, woken) && Act(d, s, a).Some?
    ensures Settled(Act(d, s, a).value, m, id, job, woken)
  {
    hide Act;
    var s' := Act(d, s, a).value;
    StepChannel(d, s, a, id);
    PublishedGrows(d, s, a);
    assert s'.stream[m] == s.stream[m] && JobOf(s', m) == JobOf(s, m);
    if Delivers(s, a, id) && s.waiters[id].job == job {
      OneEntry(s, m, Sent(s, a).value);
      assert false;
    }
  }

  lemma SettledFirst(d: nat, s: System, a: Action, m: nat, id: nat)
    requires SubmittedInv(s) && UnpublishedInv(s) && InboxInv(s) && Act(d, s, a).Some? && Sent(s, a) == Some(m)
    ensures Settled(Act(d, s, a).value, m, id, JobOf(s, m).jobId,
                    id in s.waiters && s.waiters[id].active)
  {
    hide Act;
    var s' := Act(d, s, a).value;
    StepChannel(d, s, a, id);
    PublishedGrows(d, s, a);
    assert s'.stream[m] == s.stream[m] && JobOf(s', m) == JobOf(s, m);
    if id in s.waiters && s.waiters[id].job == JobOf(s, m).jobId && s.waiters[id].inbox != [] {
      assert SomePublished(s, s.waiters[id].job);
      var x :| x in s.published && x < |s.stream| && JobOf(s, x).jobId == s.waiters[id].job;
      OneEntry(s, m, x);
      assert false;
    }
  }

  lemma {:induction false} SettledSince(d: nat, states: seq<System>, actions: seq<Action>, i: nat, n: nat, m: nat, id: nat)
    requires Run(d, states, actions) && i < n <= |actions| && Sent(states[i], actions[i]) == Some(m)
    ensures Settled(states[n], m, id, JobOf(states[i], m).jobId, id in states[i].waiters && states[i].waiters[id].active)
    decreases n
  {
    hide Act, SubmittedInv, UnpublishedInv, InboxInv, WorkInv, Settled;
    MessagesHold(d, states, actions, n - 1);
    assert Follows(d, states, actions, n - 1);
    if n == i + 1 {
      SettledFirst(d, states[i], actions[i], m, id);
    } else {
      SettledSince(d, states, actions, i, n - 1, m, id);
      SettledStays(d, states[n - 1], actions[n - 1], m, id, JobOf(states[i], m).jobId,
                   id in states[i].waiters && states[i].waiters[id].active);
    }
  }

  /** Woken exactly: once a job's result has been published, a waiter of the job that is still waiting has a message
      in its channel if and only if its subscription was active at that moment. */
  lemma WokenExactly(d: nat, states: seq<System>, actions: seq<Action>, i: nat, n: nat, m: nat, id: nat)
    requires Run(d, states, actions) && i < n <= |actions| && Sent(states[i], actions[i]) == Some(m)
    requires id in states[n].waiters && states[n].waiters[id].job == JobOf(states[i], m).jobId
    requires states[n].waiters[id].pc == Waiting
    ensures states[n].waiters[id].inbox != [] <==> id in states[i].waiters && states[i].waiters[id].active
  {
    hide Run;
    SettledSince(d, states, actions, i, n, m, id);
  }
}
