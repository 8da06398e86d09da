/** The asynchronous job protocol over Redis, as interleaved atomic steps: producers check the stream's
    depth and append, workers of one consumer group read, process, SET, PUBLISH and acknowledge, and waiters
    subscribe, GET and wait (internal/queue/stream.go, internal/queue/worker.go, internal/sse/hub.go). */
module JobProtocol {
  import opened JobCodec
  import opened Options

  /** A value stored or published: an envelope naming its owner, or bytes that do not decode. */
  datatype Payload = Stored(user: string, result: string) | Garbage

  function ResultForUser(payload: Payload, user: string): Option<string> {
    match payload
    case Stored(owner, result) => if owner == user then Some(result) else None
    case Garbage => None
  }

  datatype Worker = Idle | Holding(msg: nat) | Computed(msg: nat) | AfterSet(msg: nat) | Told(msg: nat)

  datatype Outcome = Result(data: string) | NotFound | Timeout | Gone

  datatype WaiterPc = BeforeGet | Waiting | Done(outcome: Outcome)

  datatype Waiter = Waiter(job: string, user: string, pc: WaiterPc,
                           active: bool,       // Redis has processed the SUBSCRIBE
                           activeAtGet: bool,  // and had done so when the GET was answered, which a failed one never was
                           inbox: seq<Payload>)

  datatype System = System(
    stream: seq<Values>,
    cursor: nat,                  // entries handed out to the group
    cleared: map<nat, Job>,       // Enqueue calls between their XLEN and their XADD
    workers: map<nat, Worker>,
    acked: set<nat>,
    results: map<string, Payload>,
    waiters: map<nat, Waiter>,
    // what has happened so far
    submitted: seq<Job>,          // what was enqueued, entry by entry, under the IDs given
    deliveries: seq<(nat, nat)>,  // entry and worker, in order
    computed: map<nat, string>,   // entry to the result its worker produced
    stored: set<nat>,             // entries whose SET succeeded
    told: set<nat>,               // entries whose PUBLISH was attempted
    published: set<nat>,          // entries whose PUBLISH succeeded
    panicked: set<nat>,           // entries whose processing panicked
    expired: set<string>)         // jobs whose stored result has timed out

  const INIT := System([], 0, map[], map[], {}, map[], map[], [], [], map[], {}, {}, {}, {}, {})

  datatype Action =
    | Clear(call: nat, job: Job)                           // XLEN answered below the limit
    | Add(call: nat, jobId: string, at: string)            // XADD
    | Drop(call: nat)                                      // XADD never reached Redis
    | StartWorker(w: nat)
    | Read(w: nat)
    | Process(w: nat, result: string)
    | Panic(w: nat)                                        // in processing: the deferred XACK runs, the worker dies
    | Set(w: nat, ok: bool)
    | Publish(w: nat, ok: bool)
    | Ack(w: nat)
    | Crash(w: nat)
    | Expire(jobId: string)
    | Subscribe(id: nat, jobId: string, user: string)
    | Activate(id: nat)
    | Get(id: nat)
    | GetFails(id: nat)                                    // the waiter goes on to wait as if nothing was stored
    | Receive(id: nat)
    | GiveUp(id: nat, outcome: Outcome)

  function JobOf(s: System, msg: nat): Job
    requires msg < |s.stream|
  {
    ParseJob(s.stream[msg])
  }

  function Answer(payload: Payload, user: string): Outcome {
    match ResultForUser(payload, user)
    case Some(data) => Result(data)
    case None => NotFound
  }

  /** PUBLISH reaches exactly the active subscribers of the job's channel. */
  function Deliver(waiters: map<nat, Waiter>, job: string, payload: Payload): map<nat, Waiter> {
    map id | id in waiters ::
      if waiters[id].job == job && waiters[id].active then waiters[id].(inbox := waiters[id].inbox + [payload]) else waiters[id]
  }

  function Envelope(s: System, msg: nat): Payload
    requires msg < |s.stream| && msg in s.computed
  {
    Stored(JobOf(s, msg).userId, s.computed[msg])
  }

  function ProducerAct(maxDepth: nat, s: System, a: Action): Option<System>
    requires a.Clear? || a.Add? || a.Drop?
  {
    if a.Clear? then
      if |s.stream| < maxDepth && a.call !in s.cleared then Some(s.(cleared := s.cleared[a.call := a.job])) else None
    else if a.call !in s.cleared then None
    else if a.Drop? then Some(s.(cleared := s.cleared - {a.call}))
    else if forall m :: 0 <= m < |s.stream| ==> JobOf(s, m).jobId != a.jobId then
      Some(s.(cleared := s.cleared - {a.call}, stream := s.stream + [Fields(s.cleared[a.call], a.jobId, a.at)],
              submitted := s.submitted + [s.cleared[a.call].(jobId := a.jobId)]))
    else None
  }

  function WorkerAct(s: System, a: Action): Option<System>
    requires a.StartWorker? || a.Read? || a.Process? || a.Panic? || a.Set? || a.Publish? || a.Ack? || a.Crash?
  {
    if a.StartWorker? then
      if a.w !in s.workers then Some(s.(workers := s.workers[a.w := Idle])) else None
    else if a.w !in s.workers then None
    else
      var k := s.workers[a.w];
      if a.Crash? then Some(s.(workers := s.workers - {a.w}))
      else if a.Read? then
        if k == Idle && s.cursor < |s.stream|
        then Some(s.(workers := s.workers[a.w := Holding(s.cursor)], cursor := s.cursor + 1,
                     deliveries := s.deliveries + [(s.cursor, a.w)]))
        else None
      else if k == Idle || k.msg >= |s.stream| then None
      else if a.Process? then
        if k.Holding? then Some(s.(workers := s.workers[a.w := Computed(k.msg)], computed := s.computed[k.msg := a.result]))
        else None
      else if a.Panic? then
        if k.Holding? then Some(s.(workers := s.workers - {a.w}, acked := s.acked + {k.msg}, panicked := s.panicked + {k.msg}))
        else None
      else if a.Ack? then
        if k.Told? then Some(s.(workers := s.workers[a.w := Idle], acked := s.acked + {k.msg})) else None
      else if k.msg !in s.computed then None
      else if a.Set? then
        if k.Computed? then
          var s1 := s.(workers := s.workers[a.w := AfterSet(k.msg)]);
          Some(if a.ok then s1.(results := s.results[JobOf(s, k.msg).jobId := Envelope(s, k.msg)], stored := s.stored + {k.msg})
               else s1)
        else None
      else
        if k.AfterSet? then
          var s1 := s.(workers := s.workers[a.w := Told(k.msg)], told := s.told + {k.msg});
          Some(if a.ok then s1.(waiters := Deliver(s.waiters, JobOf(s, k.msg).jobId, Envelope(s, k.msg)),
                                published := s.published + {k.msg})
               else s1)
        else None
  }

  function WaiterAct(s: System, a: Action): Option<System>
    requires a.Expire? || a.Subscribe? || a.Activate? || a.Get? || a.GetFails? || a.Receive? || a.GiveUp?
  {
    if a.Expire? then
      if a.jobId in s.results
      then Some(s.(results := s.results - {a.jobId}, expired := s.expired + {a.jobId})) else None
    else if a.Subscribe? then
      if a.id !in s.waiters
      then Some(s.(waiters := s.waiters[a.id := Waiter(a.jobId, a.user, BeforeGet, false, false, [])])) else None
    else if a.id !in s.waiters then None
    else
      var w := s.waiters[a.id];
      if a.Activate? then Some(s.(waiters := s.waiters[a.id := w.(active := true)]))
      else if a.Get? then
        if w.pc != BeforeGet then None
        else Some(s.(waiters := s.waiters[a.id := w.(activeAtGet := w.active,
                                                     pc := if w.job in s.results then Done(Answer(s.results[w.job], w.user)) else Waiting)]))
      else if a.GetFails? then
        if w.pc != BeforeGet then None else Some(s.(waiters := s.waiters[a.id := w.(activeAtGet := false, pc := Waiting)]))
      else if w.pc != Waiting then None
      else if a.Receive? then
        if w.inbox == [] then None
        else Some(s.(waiters := s.waiters[a.id := w.(pc := Done(Answer(w.inbox[0], w.user)), inbox := w.inbox[1..])]))
      else if a.outcome == Timeout || a.outcome == Gone then
        Some(s.(waiters := s.waiters[a.id := w.(pc := Done(a.outcome))]))
      else None
  }

  predicate ByProducer(a: Action) { a.Clear? || a.Add? || a.Drop? }

  predicate ByWaiter(a: Action) { a.Expire? || a.Subscribe? || a.Activate? || a.Get? || a.GetFails? || a.Receive? || a.GiveUp? }

  /** One atomic action; None when it is not enabled. */
  function Act(maxDepth: nat, s: System, a: Action): Option<System> {
    if ByProducer(a) then ProducerAct(maxDepth, s, a)
    else if ByWaiter(a) then WaiterAct(s, a)
    else WorkerAct(s, a)
  }

  ghost predicate Run(maxDepth: nat, states: seq<System>, actions: seq<Action>) {
    && |states| == |actions| + 1 && states[0] == INIT
    && forall i :: 0 <= i < |actions| ==> Follows(maxDepth, states, actions, i)
  }

  ghost predicate Follows(maxDepth: nat, states: seq<System>, actions: seq<Action>, i: nat)
    requires i < |actions| && i + 1 < |states|
  {
    Act(maxDepth, states[i], actions[i]) == Some(states[i + 1])
  }
}
