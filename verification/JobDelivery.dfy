/** From the protocol to the client: what the response to a waiter's request reads as (internal/sse/hub.go:41-108). */
module JobDelivery {
  import opened Options
  import opened JobProtocol
  import opened JobGuarantees
  import opened EventStream
  import opened JobResponse

  /** How a waiter's steps end its wait. */
  lemma WaitEnds(d: nat, s: System, id: nat)
    requires id in s.waiters
    ensures s.waiters[id].pc == BeforeGet && s.waiters[id].job in s.results ==>
              Act(d, s, Get(id)).Some?
              && forall wake :: Act(d, s, Get(id)).value.waiters[id].pc
                                == Done(OutcomeOf(Some(s.results[s.waiters[id].job]), wake, s.waiters[id].user))
    ensures s.waiters[id].pc == BeforeGet && s.waiters[id].job !in s.results ==>
              Act(d, s, Get(id)).Some? && Act(d, s, Get(id)).value.waiters[id].pc == Waiting
    ensures s.waiters[id].pc == Waiting && s.waiters[id].inbox != [] ==>
              Act(d, s, Receive(id)).Some?
              && Act(d, s, Receive(id)).value.waiters[id].pc
                 == Done(OutcomeOf(None, Message(s.waiters[id].inbox[0]), s.waiters[id].user))
    ensures s.waiters[id].pc == Waiting ==>
              && Act(d, s, GiveUp(id, Timeout)).Some?
              && Act(d, s, GiveUp(id, Timeout)).value.waiters[id].pc == Done(OutcomeOf(None, TimedOut, s.waiters[id].user))
              && Act(d, s, GiveUp(id, Gone)).Some?
              && Act(d, s, GiveUp(id, Gone)).value.waiters[id].pc == Done(OutcomeOf(None, Cancelled, s.waiters[id].user))
  {
    hide Answer;
  }

  /** The body of the response whose wait ended so. */
  function Body(jobId: string, depth: nat, outcome: Outcome): string {
    AllWritten([Announcement(jobId, depth)] + Ending(true, outcome))
  }

  /** The wait ended without an answer, or with the result the worker computed for this very job if it is the user's
      own, and with "not found" if it is someone else's. */
  ghost predicate Deserved(s: System, w: Waiter, outcome: Outcome) {
    outcome == Timeout || outcome == Gone || exists m :: AnsweredFrom(s, w, outcome, m)
  }

  ghost predicate AnsweredFrom(s: System, w: Waiter, outcome: Outcome, m: nat) {
    && m < |s.submitted| && s.submitted[m].jobId == w.job && m in s.computed
    && outcome == if s.submitted[m].userId == w.user then Result(s.computed[m]) else NotFound
  }

  ghost function Submission(s: System, w: Waiter, outcome: Outcome): (m: nat)
    requires Deserved(s, w, outcome) && outcome != Timeout && outcome != Gone
    ensures AnsweredFrom(s, w, outcome, m)
  {
    var m: nat :| AnsweredFrom(s, w, outcome, m);
    m
  }

  lemma EndsDeserved(d: nat, states: seq<System>, actions: seq<Action>, n: nat, id: nat)
    requires Run(d, states, actions) && n < |states| && id in states[n].waiters && states[n].waiters[id].pc.Done?
    ensures Deserved(states[n], states[n].waiters[id], states[n].waiters[id].pc.outcome)
  {
    hide Run;
    var s, w := states[n], states[n].waiters[id];
    if w.pc.outcome != Timeout && w.pc.outcome != Gone {
      var m := OwnedResult(d, states, actions, n, id);
      assert AnsweredFrom(s, w, w.pc.outcome, m);
    }
  }

  /** What the client of a finished waiter reads, in every run: the announcement of its job with the queue's depth, and
      then the result for its own job, "not found" for another's, the timeout, or nothing if it has gone. Results are
      taken to be one line each, as JSON is. */
  lemma ClientReads(d: nat, states: seq<System>, actions: seq<Action>, n: nat, id: nat, depth: nat, outcome: Outcome)
    returns (digits: string, m: nat)
    requires Run(d, states, actions) && n < |states| && id in states[n].waiters && states[n].waiters[id].pc == Done(outcome)
    requires OneLine(states[n].waiters[id].job)
    requires forall m :: m in states[n].computed ==> OneLine(states[n].computed[m])
    ensures IsNumber(digits) && Value(digits) == depth
    ensures var s, w := states[n], states[n].waiters[id];
            var queued := Event("queued", "{\"job_id\":\"" + w.job + "\",\"queue_position\":" + digits + "}");
            var read := Parse(Body(w.job, depth, outcome), EMPTY);
            && (outcome == Gone ==> read == [queued])
            && (outcome == Timeout ==> read == [queued, Event("error", "{\"code\":4,\"message\":\"timeout\"}")])
            && (outcome != Gone && outcome != Timeout ==>
                  && m < |s.submitted| && s.submitted[m].jobId == w.job && m in s.computed
                  && read == [queued, if s.submitted[m].userId == w.user then Event("result", s.computed[m])
                                      else Event("error", "{\"code\":5,\"message\":\"not found\"}")])
  {
    var s, w := states[n], states[n].waiters[id];
    EndsDeserved(d, states, actions, n, id);
    assert outcome.Result? ==> OneLine(outcome.data);
    m := if outcome == Timeout || outcome == Gone then 0 else Submission(s, w, outcome);
    digits := Decimal(depth);
    DecimalReads(depth);
    hide Run, Parse, AllWritten, Decimal, OneLine, Deserved;
    ResponseReads(w.job, depth, true, outcome);
  }
}
