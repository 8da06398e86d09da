/** The service token's refresh loop (internal/servicetoken/manager.go). Times are nanoseconds. */
module ServiceToken {
  import opened Arithmetic
  import opened Options

  const SECOND := 1_000_000_000
  const MARGIN := 180 * SECOND
  const HOUR := 3600 * SECOND

  /** What a fetch answers; a panic inside it answers an error. No expiry is Go's zero time. */
  datatype Reply = Token(token: string, expiry: Option<int>) | Failure

  datatype State = State(token: string, expiry: Option<int>, staleLogged: bool, lastStaleLog: int)

  const START := State("", None, false, 0)

  /** How long the loop sleeps before the next refresh. */
  function Sleep(retryDelay: int, expiry: Option<int>, now: int): int {
    if expiry.Some? && expiry.value - now - MARGIN > 0 then expiry.value - now - MARGIN else retryDelay
  }

  predicate Expired(expiry: Option<int>, now: int) {
    expiry.None? || now > expiry.value
  }

  /** A stale token is reported when it has not been, or not within the hour. */
  predicate Reports(s: State, now: int) {
    Expired(s.expiry, now) && (!s.staleLogged || now - s.lastStaleLog >= HOUR)
  }

  function Noted(s: State, now: int): State {
    if Reports(s, now) then s.(staleLogged := true, lastStaleLog := now) else s
  }

  /** The state after a refresh; no reply is one that did not come within the timeout. */
  function Refreshed(s: State, reply: Option<Reply>, now: int): State {
    if reply.Some? && reply.value.Token? then s.(token := reply.value.token, expiry := reply.value.expiry, staleLogged := false)
    else Noted(s, now)
  }

  /** A refresh: how long it took, and what it brought. */
  datatype Attempt = Attempt(took: nat, reply: Option<Reply>)

  /** When the attempts of a run of the loop end; the loop sees the given state at the given time. */
  function Ends(retryDelay: int, s: State, now: int, attempts: seq<Attempt>): (ends: seq<int>)
    ensures |ends| == |attempts|
    decreases |attempts|
  {
    if attempts == [] then []
    else
      var end := now + Sleep(retryDelay, s.expiry, now) + attempts[0].took;
      [end] + Ends(retryDelay, Refreshed(s, attempts[0].reply, end), end, attempts[1..])
  }

  /** The states the attempts of a run leave. */
  function States(retryDelay: int, s: State, now: int, attempts: seq<Attempt>): (states: seq<State>)
    ensures |states| == |attempts|
    decreases |attempts|
  {
    if attempts == [] then []
    else
      var end := now + Sleep(retryDelay, s.expiry, now) + attempts[0].took;
      var next := Refreshed(s, attempts[0].reply, end);
      [next] + States(retryDelay, next, end, attempts[1..])
  }

  class Manager {
    var token: string
    var expiry: Option<int>
    var staleLogged: bool
    var lastStaleLog: int
    const retryDelay: int

    function Current(): State
      reads this
    {
      State(token, expiry, staleLogged, lastStaleLog)
    }

    constructor (retryDelay: int)
      ensures Current() == START && this.retryDelay == retryDelay
    {
      token, expiry, staleLogged, lastStaleLog := "", None, false, 0;
      this.retryDelay := retryDelay;
    }

    method NextSleep(now: int) returns (ttl: int)
      ensures ttl == Sleep(retryDelay, expiry, now)
      ensures expiry.Some? && expiry.value - now > 180_000_000_000 ==> ttl == expiry.value - now - 180_000_000_000
      ensures expiry.None? || expiry.value - now <= 180_000_000_000 ==> ttl == retryDelay
    {
      ttl := retryDelay;
      if expiry.Some? {
        var until := expiry.value - now - MARGIN;
        if until > 0 { ttl := until; }
      }
    }

    method NoteStale(now: int) returns (reported: bool)
      modifies this
      ensures Current() == Noted(old(Current()), now) && reported == Reports(old(Current()), now)
      ensures reported <==> (old(expiry).None? || now > old(expiry).value)
                            && (!old(staleLogged) || now - old(lastStaleLog) >= 3_600_000_000_000)
      ensures token == old(token) && expiry == old(expiry)
      ensures reported ==> staleLogged && lastStaleLog == now
      ensures !reported ==> staleLogged == old(staleLogged) && lastStaleLog == old(lastStaleLog)
    {
      reported := false;
      if expiry.Some? && now <= expiry.value { return; }
      if !staleLogged || now - lastStaleLog >= HOUR {
        staleLogged := true;
        lastStaleLog := now;
        reported := true;
      }
    }

    method Refresh(reply: Option<Reply>, now: int) returns (reported: bool)
      modifies this
      ensures Current() == Refreshed(old(Current()), reply, now)
      ensures reported == (NoToken(reply) && Reports(old(Current()), now))
      ensures reply.Some? && reply.value.Token? ==>
                token == reply.value.token && expiry == reply.value.expiry && !staleLogged && !reported
    {
      reported := false;
      match reply
      case Some(Token(fetched, until)) =>
        token, expiry := fetched, until;
        staleLogged := false;
      case _ =>
        reported := NoteStale(now);
    }

    /** The refresh loop, up to a shutdown after the given attempts: when they ended, and when the token was reported stale. */
    method Run(start: int, attempts: seq<Attempt>) returns (ends: seq<int>, reports: seq<int>)
      modifies this
      ensures ends == Ends(retryDelay, old(Current()), start, attempts)
      ensures reports == Reported(retryDelay, old(Current()), start, attempts)
      ensures Current() == Last(old(Current()), States(retryDelay, old(Current()), start, attempts))
    {
      ends, reports := [], [];
      var now := start;
      ghost var s0 := Current();
      hide Midway, Refreshed, Reports, Sleep;
      MidwayFirst(retryDelay, s0, start, attempts);
      for i := 0 to |attempts|
        invariant Midway(retryDelay, s0, start, attempts, Current(), now, attempts[i..], ends, reports)
      {
        assert attempts[i..][0] == attempts[i] && attempts[i..][1..] == attempts[i + 1..];
        MidwayNext(retryDelay, s0, start, attempts, Current(), now, attempts[i..], ends, reports);
        var ttl := NextSleep(now);
        now := now + ttl + attempts[i].took;
        var reported := Refresh(attempts[i].reply, now);
        ends := ends + [now];
        reports := reports + if reported then [now] else [];
      }
      MidwayLast(retryDelay, s0, start, attempts, Current(), now, ends, reports);
    }
  }

  /** So much of a run is behind, and `rest` is to come. */
  ghost predicate Midway(retryDelay: int, s0: State, start: int, attempts: seq<Attempt>, s: State, now: int, rest: seq<Attempt>,
                         ends: seq<int>, reports: seq<int>) {
    && Ends(retryDelay, s0, start, attempts) == ends + Ends(retryDelay, s, now, rest)
    && Reported(retryDelay, s0, start, attempts) == reports + Reported(retryDelay, s, now, rest)
    && Last(s0, States(retryDelay, s0, start, attempts)) == Last(s, States(retryDelay, s, now, rest))
  }

  lemma MidwayFirst(retryDelay: int, s: State, start: int, attempts: seq<Attempt>)
    ensures Midway(retryDelay, s, start, attempts, s, start, attempts[0..], [], [])
  {
    assert attempts[0..] == attempts;
  }

  lemma MidwayLast(retryDelay: int, s0: State, start: int, attempts: seq<Attempt>, s: State, now: int, ends: seq<int>, reports: seq<int>)
    requires Midway(retryDelay, s0, start, attempts, s, now, attempts[|attempts|..], ends, reports)
    ensures ends == Ends(retryDelay, s0, start, attempts) && reports == Reported(retryDelay, s0, start, attempts)
    ensures s == Last(s0, States(retryDelay, s0, start, attempts))
  {
    hide Refreshed, Reports, Sleep;
    assert attempts[|attempts|..] == [];
  }

  lemma MidwayNext(retryDelay: int, s0: State, start: int, attempts: seq<Attempt>, s: State, now: int, rest: seq<Attempt>,
                   ends: seq<int>, reports: seq<int>)
    requires rest != [] && Midway(retryDelay, s0, start, attempts, s, now, rest, ends, reports)
    ensures var end := now + Sleep(retryDelay, s.expiry, now) + rest[0].took;
            Midway(retryDelay, s0, start, attempts, Refreshed(s, rest[0].reply, end), end, rest[1..], ends + [end],
                   reports + if NoToken(rest[0].reply) && Reports(s, end) then [end] else [])
  {
    NextAttempt(retryDelay, s, now, rest);
    hide Ends, Reported, States, Refreshed, Reports, Sleep, Last;
  }

  /** One attempt of a run, and the rest. */
  lemma NextAttempt(retryDelay: int, s: State, now: int, attempts: seq<Attempt>)
    requires attempts != []
    ensures var reply := attempts[0].reply;
            var end := now + Sleep(retryDelay, s.expiry, now) + attempts[0].took;
            var next := Refreshed(s, reply, end);
            && Ends(retryDelay, s, now, attempts) == [end] + Ends(retryDelay, next, end, attempts[1..])
            && Reported(retryDelay, s, now, attempts)
               == (if NoToken(reply) && Reports(s, end) then [end] else []) + Reported(retryDelay, next, end, attempts[1..])
            && Last(s, States(retryDelay, s, now, attempts)) == Last(next, States(retryDelay, next, end, attempts[1..]))
  {
    hide Refreshed, Reports, Sleep;
  }

  function Last(s: State, states: seq<State>): State {
    if states == [] then s else states[|states| - 1]
  }

  // ---- attempts before the token expires

  predicate NoToken(reply: Option<Reply>) { !(reply.Some? && reply.value.Token?) }

  predicate Failed(a: Attempt) { NoToken(a.reply) }

  /** Every attempt fails, and with exact timers takes at most the refresh timeout. */
  ghost predicate AllFail(attempts: seq<Attempt>, timeout: nat) {
    forall i :: 0 <= i < |attempts| ==> Failed(attempts[i]) && attempts[i].took <= timeout
  }

  ghost predicate AllTimeOut(attempts: seq<Attempt>, timeout: nat) {
    forall i :: 0 <= i < |attempts| ==> attempts[i] == Attempt(timeout, None)
  }

  lemma Distribute(i: nat, step: nat)
    ensures (i + 1) * step == i * step + step
  {
  }

  /** An expiry within the margin stays so, and then every attempt starts one retry delay after the last. */
  lemma {:induction false} LateAttempts(retryDelay: nat, timeout: nat, s: State, now: int, attempts: seq<Attempt>, i: nat)
    requires s.expiry.Some? && s.expiry.value - now <= MARGIN
    requires AllFail(attempts, timeout) && i < |attempts|
    ensures Ends(retryDelay, s, now, attempts)[i] <= now + (i + 1) * (retryDelay + timeout)
    ensures AllTimeOut(attempts, timeout) ==> Ends(retryDelay, s, now, attempts)[i] == now + (i + 1) * (retryDelay + timeout)
    decreases |attempts|
  {
    var end := now + retryDelay + attempts[0].took;
    TailFails(attempts, timeout);
    if i > 0 {
      Later(retryDelay, s, now, attempts, i, end);
      LateAttempts(retryDelay, timeout, Refreshed(s, attempts[0].reply, end), end, attempts[1..], i - 1);
      hide *;
      Distribute(i, retryDelay + timeout);
    }
  }

  lemma TailFails(attempts: seq<Attempt>, timeout: nat)
    requires AllFail(attempts, timeout) && attempts != []
    ensures Failed(attempts[0]) && attempts[0].took <= timeout && AllFail(attempts[1..], timeout)
    ensures AllTimeOut(attempts, timeout) ==> attempts[0].took == timeout && AllTimeOut(attempts[1..], timeout)
  {
  }

  lemma Later(retryDelay: nat, s: State, now: int, attempts: seq<Attempt>, i: nat, end: int)
    requires 0 < i < |attempts| && end == now + Sleep(retryDelay, s.expiry, now) + attempts[0].took
    ensures Ends(retryDelay, s, now, attempts)[i]
         == Ends(retryDelay, Refreshed(s, attempts[0].reply, end), end, attempts[1..])[i - 1]
  {
  }

  /** When attempt i is over at the latest, and exactly when all of them time out: a token with more than the
      margin left is first refreshed at the margin, any other after one retry delay. */
  lemma AttemptEnds(retryDelay: nat, timeout: nat, s: State, now: int, attempts: seq<Attempt>, i: nat)
    requires s.expiry.Some? && AllFail(attempts, timeout) && i < |attempts|
    ensures var end := Ends(retryDelay, s, now, attempts)[i];
            var latest := if s.expiry.value - now > MARGIN then s.expiry.value - MARGIN + timeout + i * (retryDelay + timeout)
                          else now + (i + 1) * (retryDelay + timeout);
            end <= latest && (AllTimeOut(attempts, timeout) ==> end == latest)
  {
    TailFails(attempts, timeout);
    if s.expiry.value - now > MARGIN {
      var end := s.expiry.value - MARGIN + attempts[0].took;
      if i > 0 {
        Later(retryDelay, s, now, attempts, i, end);
        LateAttempts(retryDelay, timeout, Refreshed(s, attempts[0].reply, end), end, attempts[1..], i - 1);
      }
    } else {
      LateAttempts(retryDelay, timeout, s, now, attempts, i);
    }
  }

  /** How many failing attempts are sure to be over before the token expires. */
  function SureAttempts(retryDelay: nat, timeout: nat, left: int): nat
    requires retryDelay + timeout > 0
  {
    if left > MARGIN then if timeout > MARGIN then 0 else (MARGIN - timeout) / (retryDelay + timeout) + 1
    else if left < 0 then 0
    else left / (retryDelay + timeout)
  }

  lemma DivideExact(i: nat, n: nat, d: nat)
    requires d > 0
    ensures i * d <= n <==> i <= n / d
  {
    if i * d <= n {
      DivideBound(i, d, n);
    } else if i <= n / d {
      Scale(i, n / d, d);
      assert false;
    }
  }

  /** So many attempts are over by the expiry whatever happens, and no more when every one times out. */
  lemma AttemptsBeforeExpiry(retryDelay: nat, timeout: nat, s: State, now: int, attempts: seq<Attempt>, i: nat)
    requires retryDelay + timeout > 0
    requires s.expiry.Some? && AllFail(attempts, timeout) && i < |attempts|
    ensures i < SureAttempts(retryDelay, timeout, s.expiry.value - now)
            ==> Ends(retryDelay, s, now, attempts)[i] <= s.expiry.value
    ensures AllTimeOut(attempts, timeout)
            ==> (Ends(retryDelay, s, now, attempts)[i] <= s.expiry.value
                 <==> i < SureAttempts(retryDelay, timeout, s.expiry.value - now))
  {
    hide Ends, AllFail, AllTimeOut;
    AttemptEnds(retryDelay, timeout, s, now, attempts, i);
    var left, step := s.expiry.value - now, retryDelay + timeout;
    if left > MARGIN {
      if timeout <= MARGIN { DivideExact(i, MARGIN - timeout, step); }
    } else if left >= 0 {
      DivideExact(i + 1, left, step);
    }
  }

  // ---- reports of a stale token

  /** When the attempts of a run report a stale token. */
  function Reported(retryDelay: int, s: State, now: int, attempts: seq<Attempt>): seq<int>
    decreases |attempts|
  {
    if attempts == [] then []
    else
      var end := now + Sleep(retryDelay, s.expiry, now) + attempts[0].took;
      var rest := Reported(retryDelay, Refreshed(s, attempts[0].reply, end), end, attempts[1..]);
      if Failed(attempts[0]) && Reports(s, end) then [end] + rest else rest
  }

  /** While refresh keeps failing, reports are at least an hour apart. */
  lemma {:induction false} ReportsSpaced(retryDelay: nat, s: State, now: int, attempts: seq<Attempt>, i: nat)
    requires forall a :: a in attempts ==> Failed(a)
    requires i < |Reported(retryDelay, s, now, attempts)|
    ensures var times := Reported(retryDelay, s, now, attempts);
            && (s.staleLogged ==> times[0] - s.lastStaleLog >= 3_600_000_000_000)
            && (i > 0 ==> times[i] - times[i - 1] >= 3_600_000_000_000)
    decreases |attempts|
  {
    var end := now + Sleep(retryDelay, s.expiry, now) + attempts[0].took;
    var next := Refreshed(s, attempts[0].reply, end);
    assert attempts[0] in attempts;
    if !Reports(s, end) {
      ReportsSpaced(retryDelay, next, end, attempts[1..], i);
    } else if i > 0 {
      ReportsSpaced(retryDelay, next, end, attempts[1..], i - 1);
    }
  }

  /** Nor is a failing attempt after the expiry ever an hour or more past a report made before or at its end. */
  lemma {:induction false} NeverSilent(retryDelay: nat, s: State, now: int, attempts: seq<Attempt>, k: nat) returns (report: int)
    requires forall a :: a in attempts ==> Failed(a)
    requires k < |attempts| && Expired(s.expiry, Ends(retryDelay, s, now, attempts)[k])
    requires s.staleLogged ==> s.lastStaleLog <= now
    ensures report in Reported(retryDelay, s, now, attempts) || (s.staleLogged && report == s.lastStaleLog)
    ensures 0 <= Ends(retryDelay, s, now, attempts)[k] - report < 3_600_000_000_000
    decreases |attempts|
  {
    var end := now + Sleep(retryDelay, s.expiry, now) + attempts[0].took;
    var next := Refreshed(s, attempts[0].reply, end);
    assert attempts[0] in attempts;
    if k == 0 {
      report := next.lastStaleLog;
    } else {
      report := NeverSilent(retryDelay, next, end, attempts[1..], k - 1);
    }
  }

  /** Nothing is reported but at the end of a failed attempt, and never before the token then stored has expired. */
  lemma {:induction false} ReportedStale(retryDelay: nat, s: State, now: int, attempts: seq<Attempt>, i: nat) returns (k: nat)
    requires i < |Reported(retryDelay, s, now, attempts)|
    ensures k < |attempts| && Failed(attempts[k])
    ensures Reported(retryDelay, s, now, attempts)[i] == Ends(retryDelay, s, now, attempts)[k]
    ensures var held := States(retryDelay, s, now, attempts)[k].expiry;
            held.None? || Ends(retryDelay, s, now, attempts)[k] > held.value
    decreases |attempts|
  {
    var end := now + Sleep(retryDelay, s.expiry, now) + attempts[0].took;
    var next := Refreshed(s, attempts[0].reply, end);
    var here := Failed(attempts[0]) && Reports(s, end);
    if here && i == 0 {
      k := 0;
    } else {
      k := ReportedStale(retryDelay, next, end, attempts[1..], if here then i - 1 else i);
      k := k + 1;
    }
  }

  /** What an attempt fetched is what the loop holds after it, and while later attempts fail. */
  lemma {:induction false} FetchedIsHeld(retryDelay: nat, s: State, now: int, attempts: seq<Attempt>, j: nat, k: nat)
    requires j <= k < |attempts| && attempts[j].reply.Some? && attempts[j].reply.value.Token?
    requires forall i :: j < i <= k ==> Failed(attempts[i])
    ensures States(retryDelay, s, now, attempts)[k].token == attempts[j].reply.value.token
    ensures States(retryDelay, s, now, attempts)[k].expiry == attempts[j].reply.value.expiry
    decreases |attempts|
  {
    var end := now + Sleep(retryDelay, s.expiry, now) + attempts[0].took;
    var next := Refreshed(s, attempts[0].reply, end);
    if j > 0 {
      FetchedIsHeld(retryDelay, next, end, attempts[1..], j - 1, k - 1);
    } else if k > 0 {
      FailuresKeep(retryDelay, next, end, attempts[1..], k - 1);
    }
  }

  lemma {:induction false} FailuresKeep(retryDelay: nat, s: State, now: int, attempts: seq<Attempt>, k: nat)
    requires k < |attempts| && forall i :: 0 <= i <= k ==> Failed(attempts[i])
    ensures States(retryDelay, s, now, attempts)[k].token == s.token
    ensures States(retryDelay, s, now, attempts)[k].expiry == s.expiry
    decreases |attempts|
  {
    var end := now + Sleep(retryDelay, s.expiry, now) + attempts[0].took;
    if k > 0 { FailuresKeep(retryDelay, Refreshed(s, attempts[0].reply, end), end, attempts[1..], k - 1); }
  }

  /** Later than the expiry, if there is one. */
  predicate Past(expiry: Option<int>, end: int) { expiry.None? || end > expiry.value }

  /** The k-th end is the first past the expiry among those after the j-th. */
  ghost predicate FirstPast(ends: seq<int>, expiry: Option<int>, j: int, k: int) {
    && j < k < |ends| && 0 <= k && Past(expiry, ends[k]) && forall i :: j < i < k && 0 <= i ==> !Past(expiry, ends[i])
  }

  lemma TailPast(end: int, rest: seq<int>, expiry: Option<int>, j: int, k: int)
    requires FirstPast([end] + rest, expiry, j, k) && 0 < k
    ensures FirstPast(rest, expiry, j - 1, k - 1)
  {
    var ends := [end] + rest;
    forall i | j - 1 < i < k - 1 && 0 <= i ensures !Past(expiry, rest[i]) {
      assert rest[i] == ends[i + 1];
    }
  }

  lemma TailFailed(attempts: seq<Attempt>, j: int, k: nat)
    requires j <= k < |attempts| && 0 < k && forall i :: j < i <= k && 0 <= i ==> Failed(attempts[i])
    ensures forall i :: j - 1 < i <= k - 1 && 0 <= i ==> Failed(attempts[1..][i])
  {
  }

  /** A fetched token ends the stale episode: the first failed attempt to end after its expiry is reported at once. */
  lemma {:induction false} NewEpisodeReported(retryDelay: nat, s: State, now: int, attempts: seq<Attempt>, j: nat, k: nat)
    requires j < k < |attempts| && attempts[j].reply.Some? && attempts[j].reply.value.Token?
    requires forall i :: j < i <= k ==> Failed(attempts[i])
    requires FirstPast(Ends(retryDelay, s, now, attempts), attempts[j].reply.value.expiry, j, k)
    ensures Ends(retryDelay, s, now, attempts)[k] in Reported(retryDelay, s, now, attempts)
    decreases |attempts|
  {
    var end := now + Sleep(retryDelay, s.expiry, now) + attempts[0].took;
    var next := Refreshed(s, attempts[0].reply, end);
    NextAttempt(retryDelay, s, now, attempts);
    TailPast(end, Ends(retryDelay, next, end, attempts[1..]), attempts[j].reply.value.expiry, j, k);
    TailFailed(attempts, j, k);
    hide Ends, Reported, FirstPast, Sleep, States, Last, Failed;
    if j > 0 {
      NewEpisodeReported(retryDelay, next, end, attempts[1..], j - 1, k - 1);
    } else {
      UnreportedReports(retryDelay, next, end, attempts[1..], k - 1);
    }
  }

  lemma {:induction false} UnreportedReports(retryDelay: nat, s: State, now: int, attempts: seq<Attempt>, k: nat)
    requires !s.staleLogged && k < |attempts| && forall i :: 0 <= i <= k ==> Failed(attempts[i])
    requires FirstPast(Ends(retryDelay, s, now, attempts), s.expiry, -1, k)
    ensures Ends(retryDelay, s, now, attempts)[k] in Reported(retryDelay, s, now, attempts)
    decreases |attempts|
  {
    var end := now + Sleep(retryDelay, s.expiry, now) + attempts[0].took;
    var next := Refreshed(s, attempts[0].reply, end);
    NextAttempt(retryDelay, s, now, attempts);
    assert Failed(attempts[0]);
    if k > 0 {
      assert Ends(retryDelay, s, now, attempts)[0] == end;
      TailPast(end, Ends(retryDelay, next, end, attempts[1..]), s.expiry, -1, k);
      TailFailed(attempts, -1, k);
      EarlyPast(Ends(retryDelay, next, end, attempts[1..]), s.expiry, k - 1);
      hide Ends, Reported, FirstPast, Sleep, States, Last;
      UnreportedReports(retryDelay, next, end, attempts[1..], k - 1);
    }
  }

  lemma EarlyPast(ends: seq<int>, expiry: Option<int>, k: int)
    requires FirstPast(ends, expiry, -2, k)
    ensures FirstPast(ends, expiry, -1, k)
  {
  }

  // ---- abandoned fetches

  /** A fetch of one refresh; one that answered did so while its refresh was waiting, or later. */
  datatype Fetch = Running | Answered(reply: Reply, inTime: bool)

  /** The loop and the fetches it has started, one per refresh; the last is the one it waits for. */
  datatype System = System(waiting: bool, fetches: seq<Fetch>, state: State,
                           source: Option<nat>)  // the fetch whose answer is stored

  datatype Action = Begin | Answer(fetch: nat, reply: Reply) | Receive(at: int) | Abandon(at: int)

  const INIT := System(false, [], START, None)

  function Act(s: System, a: Action): Option<System> {
    match a
    case Begin =>
      if s.waiting then None else Some(s.(waiting := true, fetches := s.fetches + [Running]))
    case Answer(f, reply) =>
      if f < |s.fetches| && s.fetches[f] == Running
      then Some(s.(fetches := s.fetches[f := Answered(reply, s.waiting && f == |s.fetches| - 1)]))
      else None
    case Receive(at) =>
      if s.waiting && s.fetches != [] && s.fetches[|s.fetches| - 1].Answered? then
        var reply := s.fetches[|s.fetches| - 1].reply;
        Some(s.(waiting := false, state := Refreshed(s.state, Some(reply), at),
                source := if reply.Token? then Some(|s.fetches| - 1) else s.source))
      else None
    case Abandon(at) =>
      if s.waiting then Some(s.(waiting := false, state := Refreshed(s.state, None, at))) else None
  }

  ghost predicate Run(states: seq<System>, actions: seq<Action>) {
    && |states| == |actions| + 1 && states[0] == INIT
    && forall i :: 0 <= i < |actions| ==> Follows(states, actions, i)
  }

  ghost predicate Follows(states: seq<System>, actions: seq<Action>, i: nat)
    requires i < |actions| && i + 1 < |states|
  {
    Act(states[i], actions[i]) == Some(states[i + 1])
  }

  /** Token and expiry come from one fetch, which answered within its own refresh. */
  predicate OneSource(s: System) {
    && (s.waiting ==> s.fetches != [] && (s.fetches[|s.fetches| - 1].Answered? ==> s.fetches[|s.fetches| - 1].inTime))
    && match s.source
       case None => s.state.token == START.token && s.state.expiry == START.expiry
       case Some(f) => f < |s.fetches| && s.fetches[f] == Answered(Token(s.state.token, s.state.expiry), true)
  }

  lemma {:induction false} StoredFromOneFetch(states: seq<System>, actions: seq<Action>, i: nat)
    requires Run(states, actions) && i < |states|
    ensures OneSource(states[i])
  {
    if i > 0 {
      StoredFromOneFetch(states, actions, i - 1);
      assert Follows(states, actions, i - 1);
    }
  }

  /** A refresh that is over without having stored its fetch's answer never has it stored later. */
  lemma {:induction false} NeverLate(states: seq<System>, actions: seq<Action>, i: nat, j: nat, f: nat)
    requires Run(states, actions) && i <= j < |states|
    requires f < |states[i].fetches| - (if states[i].waiting then 1 else 0) && states[i].source != Some(f)
    ensures f < |states[j].fetches| - (if states[j].waiting then 1 else 0) && states[j].source != Some(f)
  {
    if i < j {
      NeverLate(states, actions, i, j - 1, f);
      assert Follows(states, actions, j - 1);
    }
  }
}
