/** How a job's request is answered: enqueue, announce, wait (internal/handlers/route.go:60-147,
    internal/sse/hub.go:41-112). */
module JobResponse {
  import opened JobProtocol
  import opened EventStream
  import opened Options

  /** What Enqueue answers: the job's ID and the queue's depth read afterwards, a full queue, or a failure. */
  datatype Enqueued = Queued(jobId: string, depth: nat) | Full | Failed

  /** What ends the wait: a message on the channel, the timeout, or the client gone. */
  datatype Wake = Message(payload: Payload) | TimedOut | Cancelled

  function Decimal(n: nat): string {
    if n < 10 then [('0' as int + n) as char] else Decimal(n / 10) + [('0' as int + n % 10) as char]
  }

  /** The number that digits stand for. */
  function Value(digits: string): int {
    if digits == "" then 0 else 10 * Value(digits[..|digits| - 1]) + (digits[|digits| - 1] as int - '0' as int)
  }

  /** Digits without a leading zero. */
  predicate IsNumber(s: string) {
    s != "" && (forall i :: 0 <= i < |s| ==> '0' <= s[i] <= '9') && (|s| > 1 ==> s[0] != '0')
  }

  lemma {:induction false} DecimalReads(n: nat)
    ensures IsNumber(Decimal(n)) && Value(Decimal(n)) == n && (n > 0 ==> Decimal(n)[0] != '0')
  {
    if n < 10 {
      assert Decimal(n)[..0] == "";
    } else {
      DecimalReads(n / 10);
      var front, s := Decimal(n / 10), Decimal(n);
      assert s[..|s| - 1] == front && s[0] == front[0];
    }
  }

  const ID_LABEL := "{\"job_id\":\""
  const DEPTH_LABEL := "\",\"queue_position\":"
  const NOT_FOUND := "{\"code\":5,\"message\":\"not found\"}"
  const TIMED_OUT := "{\"code\":4,\"message\":\"timeout\"}"
  const NO_STREAMING := "{\"code\":13,\"message\":\"streaming not supported\"}"

  function Announcement(jobId: string, depth: nat): Event {
    Event("queued", ID_LABEL + jobId + DEPTH_LABEL + Decimal(depth) + "}")
  }

  function OutcomeOf(existing: Option<Payload>, wake: Wake, user: string): Outcome {
    if existing.Some? then Answer(existing.value, user)
    else match wake
      case Message(payload) => Answer(payload, user)
      case TimedOut => Timeout
      case Cancelled => Gone
  }

  /** The terminal event of each outcome; a client that has gone gets none. */
  function Terminal(outcome: Outcome): seq<Event> {
    match outcome
    case Result(data) => [Event("result", data)]
    case NotFound => [Event("error", NOT_FOUND)]
    case Timeout => [Event("error", TIMED_OUT)]
    case Gone => []
  }

  const UNSUPPORTED := Event("error", NO_STREAMING)

  /** What follows the announcement: at most one event. */
  function Ending(flushes: bool, outcome: Outcome): seq<Event> {
    if flushes then Terminal(outcome) else [UNSUPPORTED]
  }

  function AllWritten(events: seq<Event>): string {
    if events == [] then "" else Written(events[0]) + AllWritten(events[1..])
  }

  lemma OneWritten(e: Event)
    ensures AllWritten([e]) == Written(e)
  {
    assert Written(e) + "" == Written(e);
  }

  lemma FirstWritten(e: Event, rest: seq<Event>)
    ensures AllWritten([e] + rest) == Written(e) + AllWritten(rest)
  {
    hide Written;
  }

  /** What each ending of the wait puts in the body. */
  lemma Unsent(existing: Option<Payload>, wake: Wake, user: string)
    ensures AllWritten([UNSUPPORTED]) == Written(UNSUPPORTED) && AllWritten([]) == ""
    ensures var last := Terminal(OutcomeOf(existing, wake, user)); last != [] ==> AllWritten(last) == Written(last[0])
  {
    hide Written;
    OneWritten(UNSUPPORTED);
    var last := Terminal(OutcomeOf(existing, wake, user));
    if last != [] { OneWritten(last[0]); }
  }

  class Response {
    var status: int
    var body: string
    const flushes: bool

    constructor (flushes: bool)
      ensures status == 200 && body == "" && this.flushes == flushes
    {
      status, body := 200, "";
      this.flushes := flushes;
    }

    method WriteEvent(name: string, data: string)
      modifies this`body
      ensures body == old(body) + Written(Event(name, data))
      ensures Written(Event(name, data)) == "event: " + name + "\ndata: " + data + "\n\n"
    {
      body := body + "event: " + name + "\ndata: " + data + "\n\n";
    }

    method WaitForResult(existing: Option<Payload>, wake: Wake, user: string)
      modifies this`body
      ensures body == old(body) + AllWritten(Ending(flushes, OutcomeOf(existing, wake, user)))
      ensures !flushes ==> body == old(body) + Written(Event("error", "{\"code\":13,\"message\":\"streaming not supported\"}"))
      ensures flushes ==>
                match if existing.Some? then Message(existing.value) else wake
                case Message(Stored(owner, result)) =>
                  body == old(body) + Written(if owner == user then Event("result", result)
                                              else Event("error", "{\"code\":5,\"message\":\"not found\"}"))
                case Message(Garbage) => body == old(body) + Written(Event("error", "{\"code\":5,\"message\":\"not found\"}"))
                case TimedOut => body == old(body) + Written(Event("error", "{\"code\":4,\"message\":\"timeout\"}"))
                case Cancelled => body == old(body)
    {
      hide Written, AllWritten;
      Unsent(existing, wake, user);
      if !flushes {
        WriteEvent("error", NO_STREAMING);
        return;
      }
      var payload: Payload;
      if existing.Some? {
        payload := existing.value;
      } else {
        match wake {
          case Message(p) => payload := p;
          case TimedOut =>
            WriteEvent("error", TIMED_OUT);
            return;
          case Cancelled => return;
        }
      }
      var data := ResultForUser(payload, user);
      if data.Some? {
        WriteEvent("result", data.value);
      } else {
        WriteEvent("error", NOT_FOUND);
      }
    }

    method StreamJob(enqueued: Enqueued, existing: Option<Payload>, wake: Wake, user: string)
      requires body == ""
      modifies this
      ensures status == match enqueued case Queued(_, _) => 200 case Full => 429 case Failed => 500
      ensures enqueued.Queued? ==>
                body == AllWritten([Announcement(enqueued.jobId, enqueued.depth)]
                                   + Ending(flushes, OutcomeOf(existing, wake, user)))
      ensures enqueued == Full ==> body == "queue full\n"
      ensures enqueued == Failed ==> body == "internal error\n"
    {
      hide Written, AllWritten, Ending, OutcomeOf, Decimal;
      match enqueued
      case Full => status := 429; body := "queue full\n";
      case Failed => status := 500; body := "internal error\n";
      case Queued(jobId, depth) =>
        status := 200;
        WriteEvent("queued", Announcement(jobId, depth).data);
        WaitForResult(existing, wake, user);
        FirstWritten(Announcement(jobId, depth), Ending(flushes, OutcomeOf(existing, wake, user)));
    }
  }

  lemma {:induction false} DecimalOneLine(n: nat)
    ensures OneLine(Decimal(n))
  {
    if n >= 10 { DecimalOneLine(n / 10); }
  }

  lemma NamesOneLine()
    ensures OneLine("queued") && OneLine("result") && OneLine("error") && OneLine(ID_LABEL) && OneLine(DEPTH_LABEL)
  {
  }

  lemma NotFoundOneLine(s: string)
    requires s == NOT_FOUND
    ensures OneLine(s)
  {
  }

  lemma TimedOutOneLine(s: string)
    requires s == TIMED_OUT
    ensures OneLine(s)
  {
  }

  lemma NoStreamingOneLine(s: string)
    requires s == NO_STREAMING
    ensures OneLine(s)
  {
    CodeOneLine(s[..21]);
    MessageOneLine(s[21..]);
    OneLineBoth(s[..21], s[21..]);
    assert s == s[..21] + s[21..];
  }

  lemma CodeOneLine(s: string)
    requires s == "{\"code\":13,\"message\":"
    ensures OneLine(s)
  {
  }

  lemma MessageOneLine(s: string)
    requires s == "\"streaming not supported\"}"
    ensures OneLine(s)
  {
  }

  lemma OneLineBoth(a: string, b: string)
    requires OneLine(a) && OneLine(b)
    ensures OneLine(a + b)
  {
  }

  lemma EndingOneLine(flushes: bool, outcome: Outcome)
    requires Ending(flushes, outcome) != []
    ensures var e := Ending(flushes, outcome)[0];
            && e.name != "" && OneLine(e.name)
            && (OneLine(e.data) <==> (flushes && outcome.Result? ==> OneLine(outcome.data)))
  {
    NamesOneLine();
    hide OneLine;
    var data := Ending(flushes, outcome)[0].data;
    if !flushes {
      NoStreamingOneLine(data);
    } else if outcome.NotFound? {
      NotFoundOneLine(data);
    } else if outcome.Timeout? {
      TimedOutOneLine(data);
    }
  }

  lemma AnnouncementOneLine(jobId: string, depth: nat)
    requires OneLine(jobId)
    ensures var e := Announcement(jobId, depth); e.name != "" && OneLine(e.name) && OneLine(e.data)
  {
    NamesOneLine();
    DecimalOneLine(depth);
    hide Decimal;
  }

  /** The events the server sent are the events the client reads, exactly when a delivered result is one line. */
  lemma ResponseReads(jobId: string, depth: nat, flushes: bool, outcome: Outcome)
    requires OneLine(jobId)
    ensures var sent := [Announcement(jobId, depth)] + Ending(flushes, outcome);
            Parse(AllWritten(sent), EMPTY) == sent <==> (flushes && outcome.Result? ==> OneLine(outcome.data))
  {
    var first, last := Announcement(jobId, depth), Ending(flushes, outcome);
    AnnouncementOneLine(jobId, depth);
    WrittenIsRead(first, AllWritten(last));
    FirstWritten(first, last);
    if last != [] {
      OneWritten(last[0]);
      EndingOneLine(flushes, outcome);
      ReadBackExactly(last[0]);
      hide *;
      assert last == [last[0]];
    } else {
      NothingRead("", EMPTY);
    }
  }
}
