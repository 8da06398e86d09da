/** Enqueueing and processing as the code runs them, step by step over the state the protocol shares
    (internal/queue/stream.go:45-67, internal/queue/worker.go:72-105). */
module JobHandlers {
  import opened JobCodec
  import opened JobProtocol
  import opened Options

  /** What became of an XADD: refused, lost on the way, or applied with or without its answer coming back. */
  datatype AddFault = Applied | AnswerLost | NotSent

  datatype Enqueued = Ok(jobId: string) | QueueFull | Failed

  /** How processing one job ends; an error is also a result, a panic is none. */
  datatype Processed = Produced(result: string) | Panicked

  /** The state after a series of actions, each enabled in its turn. */
  function After(maxDepth: nat, s: System, actions: seq<Action>): Option<System>
    decreases |actions|
  {
    if actions == [] then Some(s)
    else match Act(maxDepth, s, actions[0])
      case None => None
      case Some(next) => After(maxDepth, next, actions[1..])
  }

  lemma {:induction false} AfterAppend(maxDepth: nat, s: System, actions: seq<Action>, a: Action)
    requires After(maxDepth, s, actions).Some? && Act(maxDepth, After(maxDepth, s, actions).value, a).Some?
    ensures After(maxDepth, s, actions + [a]) == Act(maxDepth, After(maxDepth, s, actions).value, a)
    decreases |actions|
  {
    hide Act;
    if actions == [] {
      assert [] + [a] == [a] && [a][1..] == [];
    } else {
      AfterAppend(maxDepth, Act(maxDepth, s, actions[0]).value, actions[1..], a);
      assert (actions + [a])[1..] == actions[1..] + [a];
    }
  }

  /** The steps of a worker on one message, in the order it takes them. */
  function Steps(w: nat, processed: Processed, setOk: bool, publishOk: bool): seq<Action> {
    match processed
    case Panicked => [Panic(w)]
    case Produced(result) => [Process(w, result), Set(w, setOk), Publish(w, publishOk), Ack(w)]
  }

  lemma FourSteps(maxDepth: nat, s: System, s1: System, s2: System, s3: System, s4: System, a: Action, b: Action, c: Action, e: Action)
    requires Act(maxDepth, s, a) == Some(s1) && Act(maxDepth, s1, b) == Some(s2)
    requires Act(maxDepth, s2, c) == Some(s3) && Act(maxDepth, s3, e) == Some(s4)
    ensures After(maxDepth, s, [a, b, c, e]) == Some(s4)
  {
    hide Act;
    assert After(maxDepth, s, []) == Some(s) && [] + [a] == [a] && [a] + [b] + [c] + [e] == [a, b, c, e];
    AfterAppend(maxDepth, s, [], a);
    AfterAppend(maxDepth, s, [a], b);
    AfterAppend(maxDepth, s, [a] + [b], c);
    AfterAppend(maxDepth, s, [a] + [b] + [c], e);
  }

  class Redis {
    var state: System
    const maxDepth: nat

    constructor (maxDepth: nat)
      ensures state == INIT && this.maxDepth == maxDepth
    {
      state := INIT;
      this.maxDepth := maxDepth;
    }

    /** One atomic action of the protocol. */
    method Do(a: Action)
      requires Act(maxDepth, state, a).Some?
      modifies this
      ensures Act(maxDepth, old(state), a) == Some(state)
    {
      state := Act(maxDepth, state, a).value;
    }

    /** Enqueue with no other call between its XLEN and its XADD: it adds exactly its own entry, and never
        beyond the limit. An error does not tell whether the entry was added. */
    method Enqueue(call: nat, job: Job, jobId: string, at: string, lengthKnown: bool, fault: AddFault) returns (r: Enqueued)
      requires call !in state.cleared
      requires forall m :: 0 <= m < |state.stream| ==> JobOf(state, m).jobId != jobId
      modifies this
      ensures var added := lengthKnown && |old(state).stream| < maxDepth && fault != NotSent;
              && (added ==> state == old(state).(stream := old(state).stream + [Fields(job, jobId, at)],
                                                 submitted := old(state).submitted + [job.(jobId := jobId)]))
              && (!added ==> state == old(state))
      ensures |old(state).stream| <= maxDepth ==> |state.stream| <= maxDepth
      ensures r == QueueFull <==> lengthKnown && |old(state).stream| >= maxDepth
      ensures r.Ok? <==> lengthKnown && |old(state).stream| < maxDepth && fault == Applied
      ensures r.Ok? ==> r.jobId == jobId
    {
      hide Fields, ParseJob, WorkerAct, WaiterAct;
      if !lengthKnown { return Failed; }
      var depth := |state.stream|;
      if depth >= maxDepth { return QueueFull; }
      Do(Clear(call, job));
      assert state.cleared - {call} == old(state).cleared;
      if fault == NotSent {
        Do(Drop(call));
      } else {
        forall m | 0 <= m < |state.stream| ensures JobOf(state, m).jobId != jobId {
          assert JobOf(state, m) == JobOf(old(state), m);
        }
        Do(Add(call, jobId, at));
      }
      return if fault == Applied then Ok(jobId) else Failed;
    }

    method SetResult(w: nat, ok: bool)
      requires w in state.workers && state.workers[w].Computed?
      requires state.workers[w].msg < |state.stream| && state.workers[w].msg in state.computed
      modifies this
      ensures Act(maxDepth, old(state), Set(w, ok)) == Some(state)
      ensures var s, msg := old(state), old(state).workers[w].msg;
              state == s.(workers := s.workers[w := AfterSet(msg)],
                          results := if ok then s.results[JobOf(s, msg).jobId := Envelope(s, msg)] else s.results,
                          stored := if ok then s.stored + {msg} else s.stored)
    {
      hide JobOf, Envelope, ProducerAct, WaiterAct;
      Do(Set(w, ok));
    }

    method PublishResult(w: nat, ok: bool)
      requires w in state.workers && state.workers[w].AfterSet?
      requires state.workers[w].msg < |state.stream| && state.workers[w].msg in state.computed
      modifies this
      ensures Act(maxDepth, old(state), Publish(w, ok)) == Some(state)
      ensures var s, msg := old(state), old(state).workers[w].msg;
              state == s.(workers := s.workers[w := Told(msg)],
                          waiters := if ok then Deliver(s.waiters, JobOf(s, msg).jobId, Envelope(s, msg)) else s.waiters,
                          told := s.told + {msg}, published := if ok then s.published + {msg} else s.published)
    {
      hide JobOf, Envelope, Deliver, ProducerAct, WaiterAct;
      Do(Publish(w, ok));
    }

    method AckMessage(w: nat)
      requires w in state.workers && state.workers[w].Told? && state.workers[w].msg < |state.stream|
      modifies this
      ensures Act(maxDepth, old(state), Ack(w)) == Some(state)
      ensures var s := old(state); state == s.(workers := s.workers[w := Idle], acked := s.acked + {s.workers[w].msg})
    {
      hide ProducerAct, WaiterAct;
      Do(Ack(w));
    }

    /** One message: its result is stored under its job's ID, then sent to that job's subscribers, each even if the
        other fails, then the message is acknowledged; and a message whose processing panics is acknowledged too. */
    method ProcessMessage(w: nat, process: Job -> Processed, setOk: bool, publishOk: bool)
      requires w in state.workers && state.workers[w].Holding? && state.workers[w].msg < |state.stream|
      modifies this
      ensures var msg := old(state).workers[w].msg;
              var job := JobOf(old(state), msg);
              && state.acked == old(state).acked + {msg}
              && state.stream == old(state).stream && state.cursor == old(state).cursor
              && state.told == (if process(job).Panicked? then old(state).told else old(state).told + {msg})
              && state.stored == (if process(job).Produced? && setOk then old(state).stored + {msg} else old(state).stored)
              && state.published == (if process(job).Produced? && publishOk then old(state).published + {msg} else old(state).published)
              && match process(job)
                 case Panicked => w !in state.workers && state.results == old(state).results && state.waiters == old(state).waiters
                 case Produced(result) =>
                   var payload := Stored(job.userId, result);
                   && state.workers == old(state).workers[w := Idle]
                   && state.computed == old(state).computed[msg := result]
                   && state.results == (if setOk then old(state).results[job.jobId := payload] else old(state).results)
                   && state.waiters == (if publishOk then Deliver(old(state).waiters, job.jobId, payload) else old(state).waiters)
      ensures var job := JobOf(old(state), old(state).workers[w].msg);
              After(maxDepth, old(state), Steps(w, process(job), setOk, publishOk)) == Some(state)
    {
      hide ParseJob, Deliver, ProducerAct, WaiterAct, Fields;
      var job := JobOf(state, state.workers[w].msg);
      match process(job)
      case Panicked =>
        Do(Panic(w));
        assert [Panic(w)][1..] == [];
      case Produced(result) =>
        ghost var s0 := state;
        Do(Process(w, result));
        hide Act, WorkerAct, ByProducer, ByWaiter, After;
        ghost var s1 := state;
        assert Envelope(s1, old(state).workers[w].msg) == Stored(job.userId, result);
        SetResult(w, setOk);
        ghost var s2 := state;
        PublishResult(w, publishOk);
        ghost var s3 := state;
        AckMessage(w);
        FourSteps(maxDepth, s0, s1, s2, s3, state, Process(w, result), Set(w, setOk), Publish(w, publishOk), Ack(w));
    }
  }
}
