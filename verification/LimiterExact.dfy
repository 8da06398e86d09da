/** Exactly when one call at a time keeps the limit in Redis: how late its commands may take effect, with and without
    pipelines cut off between their ZADD and their EXPIRE (internal/ratelimit/limiter.go:128-142). */
module LimiterExact {
  import opened Arithmetic
  import opened Options
  import opened LimiterCore
  import opened LimiterStore
  import opened LimiterSystem
  import opened LimiterRedis
  import opened LimiterStraddle
  import opened LimiterThrottle
  import opened LimiterAlone

  /** A run of one call at a time, on a key that only older commands prune; cut-off pipelines only where allowed. */
  ghost predicate Legal(p: Params, torn: bool, states: seq<System>, actions: seq<Action>) {
    RunOf(p, 1, states, actions) && StraysOld(states, actions) && (torn || Untorn(states, actions))
  }

  ghost predicate WithinLimit(p: Params, st: Store, lo: int, hi: int) {
    st.admitted <= st.scores.Keys && |InSpan(st.admitted, st.scores, lo, hi)| <= p.limit
  }

  /** No such run whose commands take effect at most d milliseconds after their reading has more than the limit of Redis
      admissions in any span shorter than the window. */
  ghost predicate NeverOver(p: Params, d: nat, torn: bool) {
    forall states: seq<System>, actions: seq<Action>, n: nat, lo: int, hi: int ::
      Legal(p, torn, states, actions) && n < |states| && states[n].delay <= d && 0 <= hi - lo < p.window ==>
        WithinLimit(p, states[n].store, lo, hi)
  }

  // ----- the bound

  /** How late commands may be: within the key's slack, and if pipelines may be cut off, not at all. */
  predicate Tolerable(d: nat, torn: bool) { if torn then d == 0 else d <= SLACK }

  /** When every command takes effect within the millisecond of its reading, no deadline wipes an admission. */
  lemma InstantStraddlers(p: Params, s: System, lo: int, hi: int)
    requires RedisInv(p, s) && LateInv(s) && s.delay == 0 && s.store.admitted <= s.store.scores.Keys
    ensures StraddlersIn(s, lo, hi) == 0
  {
    var st := s.store;
    assert StraddleInv(st) && FlightInv(p.window, Millis(s.clock), st, Flying(s.calls), Renewing(s.calls));
    assert forall m :: m in st.admitted ==> NotLater(st, s.delay, m, st.scores[m]);
    assert InSpan(st.admitted * st.lost, st.scores, lo, hi) == {};
  }

  lemma NoneWiped(p: Params, d: nat, torn: bool, states: seq<System>, actions: seq<Action>, n: nat, lo: int, hi: int)
    requires Legal(p, torn, states, actions) && n < |states| && states[n].delay <= d && Tolerable(d, torn)
    requires 0 < p.window && states[n].store.admitted <= states[n].store.scores.Keys
    ensures StraddlersIn(states[n], lo, hi) == 0
  {
    if torn {
      RedisHolds(p, states, actions, n);
      LateHolds(p, states, actions, n);
      InstantStraddlers(p, states[n], lo, hi);
    } else {
      SafeHolds(p, states, actions, n);
      NoStraddlers(p, states[n], lo, hi);
    }
  }

  lemma LimitKept(p: Params, d: nat, torn: bool, states: seq<System>, actions: seq<Action>, n: nat, lo: int, hi: int)
    requires Legal(p, torn, states, actions) && n < |states| && states[n].delay <= d && 0 <= hi - lo < p.window
    requires Tolerable(d, torn)
    ensures WithinLimit(p, states[n].store, lo, hi)
  {
    AloneInStep(p, states, actions, n);
    RedisHolds(p, states, actions, n);
    FewHolds(p, 1, states, actions, n);
    assert states[n].store.lag == 0;
    RedisShare(p, 1, states[n], lo, hi);
    NoneWiped(p, d, torn, states, actions, n, lo, hi);
  }

  // ----- building runs

  ghost predicate Reaches(p: Params, torn: bool, s: System) {
    exists states, actions :: Legal(p, torn, states, actions) && states[|actions|] == s
  }

  lemma Begins(p: Params, torn: bool)
    requires p.cfg.Valid()
    ensures Reaches(p, torn, INIT)
  {
    var states, actions: seq<Action> := [INIT], [];
    assert Legal(p, torn, states, actions) && states[|actions|] == INIT;
  }

  lemma Takes(p: Params, torn: bool, s: System, a: Action, s': System)
    requires Reaches(p, torn, s) && Act(p, s, a) == Some(s') && |s'.calls| <= 1 && OldStray(s, a) && (torn || WholeAction(s, a))
    ensures Reaches(p, torn, s')
  {
    hide Act;
    var states, actions :| Legal(p, torn, states, actions) && states[|actions|] == s;
    var states', actions' := states + [s'], actions + [a];
    forall i | 0 <= i < |actions'|
      ensures Follows(p, states', actions', i) && OldStray(states'[i], actions'[i])
      ensures torn || WholeAction(states'[i], actions'[i])
    {
      if i < |actions| { assert Follows(p, states, actions, i) && OldStray(states[i], actions[i]); }
    }
    assert Legal(p, torn, states', actions') && states'[|actions'|] == s';
  }

  /** No call is in flight, and the limiter has seen no failure. */
  predicate Quiet(s: System) { s.calls == map[] && s.core == FRESH }

  /** The key does not expire before the clock moves on. */
  predicate Stays(st: Store, c: int) { st.deadline.Some? ==> c < st.deadline.value }

  function Started(s: System, stage: Stage): System { s.(calls := map[0 := Call(AtRedis, stage)]) }

  lemma Restaged(a: Call, b: Call)
    ensures map[0 := a][0 := b] == map[0 := b]
  {
  }

  lemma CallStarts(p: Params, torn: bool, s: System)
    requires Reaches(p, torn, s) && Quiet(s)
    ensures Reaches(p, torn, Started(s, Read(Millis(s.clock))))
  {
    hide Reaches, Seen;
    var s1 := s.(calls := map[0 := Call(Entry, Fresh)]);
    Restaged(Call(Entry, Fresh), Call(AtRedis, Fresh));
    Takes(p, torn, s, Start(0), s1);
    Takes(p, torn, s1, Of(0, Other(ReadFlag)), Started(s, Fresh));
    Restaged(Call(AtRedis, Fresh), Call(AtRedis, Read(Millis(s.clock))));
    Takes(p, torn, Started(s, Fresh), Of(0, ReadClock), Started(s, Read(Millis(s.clock))));
  }

  /** The key after a request has pruned it and added itself. */
  function Begun(st: Store, c: int, window: nat, m: nat): Store { AfterAdd(AfterPrune(st, window, c), m, c) }

  /** A call gets as far as its ZADD. */
  lemma CallAdds(p: Params, torn: bool, s: System, m: nat)
    requires Reaches(p, torn, s) && Quiet(s) && Stays(s.store, Millis(s.clock)) && m !in s.store.scores
    ensures Reaches(p, torn, Started(s, Added(Millis(s.clock), m)).(store := Begun(s.store, Millis(s.clock), p.window, m)))
  {
    var c := Millis(s.clock);
    CallStarts(p, torn, s);
    var s1, s2 := Started(s, Read(c)), Started(s, Pruned(c)).(store := AfterPrune(s.store, p.window, c));
    var s3 := Started(s, Added(c, m)).(store := Begun(s.store, c, p.window, m));
    hide Without, AfterAdd, Reaches;
    Restaged(Call(AtRedis, Read(c)), Call(AtRedis, Pruned(c)));
    Restaged(Call(AtRedis, Pruned(c)), Call(AtRedis, Added(c, m)));
    assert Seen(p, s1) == s.store && Seen(p, s2) == s2.store;
    hide AfterPrune, Seen;
    Takes(p, torn, s1, Of(0, Prune), s2);
    Takes(p, torn, s2, Of(0, Add(m)), s3);
  }

  /** The key after a request read at `now` is counted, renews the deadline at c and is answered. */
  function Closed(st: Store, limit: nat, m: nat, now: int, c: int, window: nat): Store {
    var renewed := AfterRenew(AfterCard(st, limit, m, now), c, window);
    if |st.zset| <= limit then AfterReply(renewed, m) else renewed
  }

  lemma CallCounts(p: Params, torn: bool, s: System, now: int, m: nat)
    requires Reaches(p, torn, s) && s.core == FRESH && s.calls == map[0 := Call(AtRedis, Added(now, m))]
    ensures var c := Millis(s.clock);
            var st := Live(s.store, c, p.window, {m});
            Reaches(p, torn, Started(s.(delay := Max(s.delay, c - now), store := AfterCard(st, p.limit, m, now)),
                                     Counted(now, m, |st.zset|)))
  {
    var c := Millis(s.clock);
    var st := Live(s.store, c, p.window, {m});
    assert Seen(p, s) == st by {
      assert Flying(s.calls) == {m};
    }
    hide Seen, Live, AfterCard, Reaches;
    Restaged(Call(AtRedis, Added(now, m)), Call(AtRedis, Counted(now, m, |st.zset|)));
    Takes(p, torn, s, Of(0, Card),
          Started(s.(delay := Max(s.delay, c - now), store := AfterCard(st, p.limit, m, now)), Counted(now, m, |st.zset|)));
  }

  lemma CallRenews(p: Params, torn: bool, s: System, now: int, m: nat, n: nat)
    requires Reaches(p, torn, Started(s, Counted(now, m, n))) && Stays(s.store, Millis(s.clock))
    requires Millis(s.clock) - now <= s.delay
    ensures Reaches(p, torn, Started(s.(store := AfterRenew(s.store, Millis(s.clock), p.window)), Renewed(now, m, n)))
  {
    var counted := Started(s, Counted(now, m, n));
    assert Seen(p, counted) == s.store;
    hide Seen, AfterRenew, Reaches;
    Restaged(Call(AtRedis, Counted(now, m, n)), Call(AtRedis, Renewed(now, m, n)));
    Takes(p, torn, counted, Of(0, Renew),
          Started(s.(store := AfterRenew(s.store, Millis(s.clock), p.window)), Renewed(now, m, n)));
  }

  lemma CallReplies(p: Params, torn: bool, s: System, now: int, m: nat, n: nat)
    requires Reaches(p, torn, Started(s, Renewed(now, m, n))) && s.core == FRESH
    ensures Reaches(p, torn, s.(calls := map[], store := if n <= p.limit then AfterReply(s.store, m) else s.store))
  {
    hide AfterReply, Reaches, Seen;
    var done := s.(store := if n <= p.limit then AfterReply(s.store, m) else s.store);
    var answered := Call(Answered(FromRedis(n <= p.limit)), Fresh);
    Restaged(Call(AtRedis, Renewed(now, m, n)), answered);
    Takes(p, torn, Started(s, Renewed(now, m, n)), Of(0, Reply), done.(calls := map[0 := answered]));
    assert map[0 := answered] - {0} == map[];
    Takes(p, torn, done.(calls := map[0 := answered]), Of(0, Finish), done.(calls := map[]));
  }

  /** The call counts, renews and answers, all at the present time; a deadline may have passed since its ZADD. */
  lemma CallEnds(p: Params, torn: bool, s: System, now: int, m: nat)
    requires Reaches(p, torn, s) && s.core == FRESH && s.calls == map[0 := Call(AtRedis, Added(now, m))]
    ensures var c := Millis(s.clock);
            Reaches(p, torn, s.(calls := map[], delay := Max(s.delay, c - now),
                                store := Closed(Live(s.store, c, p.window, {m}), p.limit, m, now, c, p.window)))
  {
    var c := Millis(s.clock);
    var st := Live(s.store, c, p.window, {m});
    var counted := AfterCard(st, p.limit, m, now);
    assert Stays(counted, c);
    hide Live, AfterCard, AfterRenew, AfterReply, Reaches;
    var late := s.(delay := Max(s.delay, c - now), store := counted);
    CallCounts(p, torn, s, now, m);
    CallRenews(p, torn, late, now, m, |st.zset|);
    CallReplies(p, torn, late.(store := AfterRenew(counted, c, p.window)), now, m, |st.zset|);
  }

  lemma Waits(p: Params, torn: bool, s: System, c: nat)
    requires Reaches(p, torn, s) && s.clock <= c * NANOS && |s.calls| <= 1
    ensures Reaches(p, torn, s.(clock := c * NANOS)) && Millis(c * NANOS) == c
  {
    Takes(p, torn, s, Tick(c * NANOS), s.(clock := c * NANOS));
  }

  // ----- whole calls and calls that a deadline divides

  lemma NoneBefore(zset: map<nat, int>, max: int)
    requires forall m :: m in zset ==> max < zset[m]
    ensures Without(zset, max) == zset
  {
  }

  lemma OneMore(zset: map<nat, int>, m: nat, c: int)
    requires m !in zset
    ensures |zset[m := c]| == |zset| + 1 && zset[m := c] != map[]
  {
    assert zset[m := c].Keys == zset.Keys + {m} && m in zset[m := c];
    assert |zset[m := c]| == |zset[m := c].Keys| && |zset| == |zset.Keys|;
  }

  /** The key after a whole request has found room. */
  function Fitted(st: Store, limit: nat, m: nat, c: int, window: nat): Store {
    Closed(Live(Begun(st, c, window, m), c, window, {m}), limit, m, c, c, window)
  }

  lemma FittedIs(st: Store, limit: nat, m: nat, c: int, window: nat)
    requires Stays(st, c) && m !in st.zset && 0 < window && |st.zset| < limit && forall x :: x in st.zset ==> st.zset[x] == c
    ensures var st' := Fitted(st, limit, m, c, window);
            st'.zset == st.zset[m := c] && st'.deadline == Some(c + window + SLACK)
            && st'.scores == st.scores[m := c] && st'.admitted == st.admitted + {m}
  {
    BegunIs(st, m, c, window);
    OneMore(st.zset, m, c);
    hide Begun, Wiped;
    assert Live(Begun(st, c, window, m), c, window, {m}) == Begun(st, c, window, m);
  }

  lemma BegunIs(st: Store, m: nat, c: int, window: nat)
    requires Stays(st, c) && 0 < window && forall x :: x in st.zset ==> st.zset[x] == c
    ensures var st' := Begun(st, c, window, m);
            && st'.zset == st.zset[m := c] && st'.scores == st.scores[m := c] && st'.admitted == st.admitted
            && Stays(st', c)
  {
    NoneBefore(st.zset, c - window);
    hide Without;
  }

  /** A call that runs to its end within one millisecond and finds room. */
  lemma CallFits(p: Params, torn: bool, s: System, m: nat) returns (s': System)
    requires Reaches(p, torn, s) && Quiet(s) && Stays(s.store, Millis(s.clock)) && m !in s.store.scores && m !in s.store.zset
    requires 0 < p.window && |s.store.zset| < p.limit
    requires forall x :: x in s.store.zset ==> s.store.zset[x] == Millis(s.clock)
    ensures Reaches(p, torn, s') && Quiet(s') && s'.clock == s.clock && s'.delay == s.delay
    ensures var c, st, st' := Millis(s.clock), s.store, s'.store;
            st'.zset == st.zset[m := c] && st'.deadline == Some(c + p.window + SLACK)
            && st'.scores == st.scores[m := c] && st'.admitted == st.admitted + {m}
  {
    var c := Millis(s.clock);
    var begun := Started(s, Added(c, m)).(store := Begun(s.store, c, p.window, m));
    s' := begun.(calls := map[], store := Fitted(s.store, p.limit, m, c, p.window));
    hide Reaches, Without, Stays, Live, Begun, Closed;
    CallAdds(p, torn, s, m);
    CallEnds(p, torn, begun, c, m);
    FittedIs(s.store, p.limit, m, c, p.window);
  }

  /** A call whose deadline-divided pipeline forgets all that is logged: it reads at r, adds itself, and is counted when
      the deadline has taken effect. */
  lemma CallDivided(p: Params, torn: bool, s: System, m: nat, x: nat, d: nat) returns (s': System)
    requires Reaches(p, torn, s) && Quiet(s) && s.store.deadline == Some(d) && Millis(s.clock) < d && m !in s.store.scores
    requires x in s.store.zset && Millis(s.clock) - p.window < s.store.zset[x]
    ensures Reaches(p, torn, s') && Quiet(s') && Millis(s'.clock) == d && s'.delay == Max(s.delay, d - Millis(s.clock))
    ensures var st, st' := s.store, s'.store;
            st'.zset == map[] && st'.deadline == None
            && st'.scores == st.scores[m := Millis(s.clock)] && st'.admitted == st.admitted + {m}
  {
    var r := Millis(s.clock);
    CallAdds(p, torn, s, m);
    var begun := Started(s, Added(r, m)).(store := Begun(s.store, r, p.window, m));
    assert x in Without(s.store.zset, r - p.window);
    assert begun.store.deadline == Some(d);
    Waits(p, torn, begun, d);
    var late := begun.(clock := d * NANOS);
    hide Reaches, Without, Wiped;
    CallEnds(p, torn, late, r, m);
    s' := late.(calls := map[], delay := Max(s.delay, d - r),
                store := Closed(Live(late.store, d, p.window, {m}), p.limit, m, r, d, p.window));
  }

  // ----- as many calls as the limit allows

  function Range(a: nat, n: nat): set<nat> { if n == 0 then {} else Range(a, n - 1) + {a + n - 1} }

  function Row(a: nat, n: nat, c: int): map<nat, int> { if n == 0 then map[] else Row(a, n - 1, c)[a + n - 1 := c] }

  lemma {:induction false} RowHas(a: nat, n: nat, c: int)
    ensures Row(a, n, c).Keys == Range(a, n) && forall m :: m in Row(a, n, c) ==> a <= m < a + n && Row(a, n, c)[m] == c
  {
    if n > 0 { RowHas(a, n - 1, c); }
  }

  lemma {:induction false} RowSize(a: nat, n: nat, c: int)
    ensures |Range(a, n)| == n && |Row(a, n, c)| == n
  {
    RowHas(a, n, c);
    if n > 0 {
      RowSize(a, n - 1, c);
      RowHas(a, n - 1, c);
    }
    assert |Row(a, n, c)| == |Row(a, n, c).Keys|;
  }

  /** The key after n more members were admitted at c. */
  ghost predicate Filled(st: Store, st': Store, a: nat, n: nat, c: int, window: nat) {
    && st'.zset == Row(a, n, c) && st'.deadline == (if n == 0 then None else Some(c + window + SLACK))
    && st'.scores == st.scores + Row(a, n, c) && st'.admitted == st.admitted + Range(a, n)
  }

  lemma FilledNone(st: Store, a: nat, c: int, window: nat)
    requires st.zset == map[] && st.deadline == None
    ensures Filled(st, st, a, 0, c, window)
  {
    assert st.scores + map[] == st.scores && st.admitted + {} == st.admitted;
  }

  /** There is room for one more until the limit is reached. */
  lemma FilledRoom(st: Store, st': Store, a: nat, n: nat, c: int, window: nat)
    requires Filled(st, st', a, n, c, window) && a + n !in st.scores
    ensures Stays(st', c) && |st'.zset| == n && a + n !in st'.scores && a + n !in st'.zset
    ensures forall x :: x in st'.zset ==> st'.zset[x] == c
  {
    RowSize(a, n, c);
    RowHas(a, n, c);
    hide Row, Range;
  }

  lemma FilledMore(st: Store, st1: Store, st': Store, a: nat, n: nat, c: int, window: nat)
    requires Filled(st, st1, a, n, c, window)
    requires st'.zset == st1.zset[a + n := c] && st'.deadline == Some(c + window + SLACK)
    requires st'.scores == st1.scores[a + n := c] && st'.admitted == st1.admitted + {a + n}
    ensures Filled(st, st', a, n + 1, c, window)
  {
    var row, range := Row(a, n, c), Range(a, n);
    assert (st.scores + row)[a + n := c] == st.scores + row[a + n := c];
    assert st.admitted + range + {a + n} == st.admitted + (range + {a + n});
  }

  /** What it holds then. */
  lemma FilledHas(st: Store, st': Store, a: nat, n: nat, c: int, window: nat)
    requires Filled(st, st', a, n, c, window)
    ensures Range(a, n) <= st'.admitted && st.admitted <= st'.admitted
    ensures forall x :: x in Range(a, n) ==> x in st'.scores && st'.scores[x] == c
    ensures forall x :: x in st'.scores <==> x in st.scores || x in Range(a, n)
    ensures forall x :: x in st.scores && x !in Range(a, n) ==> st'.scores[x] == st.scores[x]
    ensures forall x :: x in Range(a, n) ==> x in st'.zset && st'.zset[x] == c && a <= x < a + n
    ensures n > 0 ==> a in Range(a, n)
  {
    RowHas(a, n, c);
    if n > 0 { RangeHasFirst(a, n); }
    hide Range, Row;
  }

  lemma RangeLess(a: nat, n: nat, keys: set<nat>)
    requires Range(a, n + 1) !! keys
    ensures Range(a, n) !! keys && a + n !in keys
  {
  }

  /** n calls within one millisecond, from an empty key. */
  lemma {:induction false} Burst(p: Params, torn: bool, s: System, a: nat, n: nat) returns (s': System)
    requires Reaches(p, torn, s) && Quiet(s) && s.store.zset == map[] && s.store.deadline == None
    requires 0 < p.window && n <= p.limit && Range(a, n) !! s.store.scores.Keys
    ensures Reaches(p, torn, s') && Quiet(s') && s'.clock == s.clock && s'.delay == s.delay
    ensures Filled(s.store, s'.store, a, n, Millis(s.clock), p.window)
  {
    hide *;
    var c := Millis(s.clock);
    if n == 0 {
      FilledNone(s.store, a, c, p.window);
      s' := s;
    } else {
      RangeLess(a, n - 1, s.store.scores.Keys);
      var s1 := Burst(p, torn, s, a, n - 1);
      FilledRoom(s.store, s1.store, a, n - 1, c, p.window);
      s' := CallFits(p, torn, s1, a + (n - 1));
      FilledMore(s.store, s1.store, s'.store, a, n - 1, c, p.window);
    }
  }

  // ----- over the limit

  /** A state beyond what NeverOver allows. */
  lemma Breaks(p: Params, d: nat, torn: bool, s: System, lo: int, hi: int)
    requires Reaches(p, torn, s) && s.delay <= d && 0 <= hi - lo < p.window && !WithinLimit(p, s.store, lo, hi)
    ensures !NeverOver(p, d, torn)
  {
    hide WithinLimit;
    var states, actions :| Legal(p, torn, states, actions) && states[|actions|] == s;
    var n := |actions|;
    assert n < |states| && states[n] == s;
  }

  /** As many admissions as the limit, and one more. */
  lemma Overfull(p: Params, st: Store, a: nat, m: nat, lo: int, hi: int)
    requires Range(a, p.limit) + {m} <= st.admitted && m !in Range(a, p.limit)
    requires forall x :: x in Range(a, p.limit) + {m} ==> x in st.scores && lo <= st.scores[x] <= hi
    ensures !WithinLimit(p, st, lo, hi)
  {
    RowSize(a, p.limit, 0);
    if st.admitted <= st.scores.Keys {
      SubsetSize(Range(a, p.limit) + {m}, InSpan(st.admitted, st.scores, lo, hi));
    }
  }

  /** A timed-out pipeline that Redis works off whole, at the very start. */
  lemma StrayStarts(p: Params, torn: bool) returns (s: System)
    requires p.cfg.Valid() && 0 < p.window
    ensures Reaches(p, torn, s) && Quiet(s) && s.clock == 0 && s.delay == 0
    ensures s.store.zset == map[0 := 0] && s.store.deadline == Some(p.window + SLACK)
    ensures s.store.scores == map[0 := 0] && s.store.admitted == {}
  {
    Begins(p, torn);
    hide Reaches;
    NoneBefore(map[], 0 - p.window);
    s := INIT.(store := PipelineAt(p, INIT, 0, 0));
    Takes(p, torn, INIT, StrayPipeline(0, 0), s);
  }

  /** The limit is used up at the very start; without one, a late pipeline has left its entry. */
  lemma Fills(p: Params) returns (s: System)
    requires p.cfg.Valid() && 0 < p.window
    ensures Reaches(p, false, s) && Quiet(s) && s.clock == 0 && s.delay == 0 && s.store.deadline == Some(p.window + SLACK)
    ensures 0 in s.store.zset && s.store.zset[0] == 0 && p.limit + 1 !in s.store.scores && Range(0, p.limit) <= s.store.admitted
    ensures forall m :: m in Range(0, p.limit) ==> m in s.store.scores && s.store.scores[m] == 0
  {
    if p.limit == 0 {
      s := StrayStarts(p, false);
    } else {
      Begins(p, false);
      s := Burst(p, false, INIT, 0, p.limit);
      FilledHas(EMPTY, s.store, 0, p.limit, 0, p.window);
      hide Filled, Range, Row;
    }
  }

  lemma {:induction false} RangeHasFirst(a: nat, n: nat)
    requires n > 0
    ensures a in Range(a, n)
  {
    if n > 1 { RangeHasFirst(a, n - 1); }
  }

  /** A call reads its clock just before its window moves past the first admissions, and is counted a slack and one
      millisecond later, when their deadline has wiped them. */
  lemma LateCallBreaks(p: Params)
    requires p.cfg.Valid() && 0 < p.window
    ensures !NeverOver(p, SLACK + 1, false)
  {
    var s := Fills(p);
    RowHas(0, p.limit, 0);
    hide Reaches, NeverOver, WithinLimit, Range, Row;
    var c := p.window - 1;
    Waits(p, false, s, c);
    var s1 := s.(clock := c * NANOS);
    var s2 := CallDivided(p, false, s1, p.limit + 1, 0, p.window + SLACK);
    Overfull(p, s2.store, 0, p.limit + 1, 0, c);
    Breaks(p, SLACK + 1, false, s2, 0, c);
  }

  /** Its ZADD alone, right before that deadline. */
  lemma StrayCutOff(p: Params, s: System) returns (s': System)
    requires Reaches(p, true, s) && Quiet(s) && s.clock == 0 && s.delay == 0
    requires s.store.zset == map[0 := 0] && s.store.deadline == Some(p.window + SLACK)
    requires s.store.scores == map[0 := 0]
    ensures var r := p.window + SLACK - 1;
            && Reaches(p, true, s') && Quiet(s') && Millis(s'.clock) == r && s'.delay == 0
            && s'.store == AfterAdd(s.store, 1, r)
  {
    var r := p.window + SLACK - 1;
    hide Reaches;
    Waits(p, true, s, r);
    var late := s.(clock := r * NANOS);
    s' := late.(store := AfterAdd(late.store, 1, r));
    hide AfterAdd;
    assert Seen(p, late) == late.store;
    Takes(p, true, late, StrayAdd(1, r), s');
  }

  /** The key lives on for it, until that deadline divides a call by one millisecond. */
  lemma TornDivides(p: Params) returns (s: System)
    requires p.cfg.Valid() && 2 <= p.window
    ensures var d := p.window + SLACK;
            && Reaches(p, true, s) && Quiet(s) && Millis(s.clock) == d && s.delay == 1
            && s.store.zset == map[] && s.store.deadline == None && 2 in s.store.admitted
            && s.store.scores == map[0 := 0, 1 := d - 1, 2 := d - 1]
  {
    hide Reaches, Quiet;
    var d := p.window + SLACK;
    var s1 := StrayStarts(p, true);
    var s2 := StrayCutOff(p, s1);
    s := CallDivided(p, true, s2, 2, 1, d);
  }

  lemma RangeAbove(a: nat, n: nat, m: nat)
    requires m < a
    ensures m !in Range(a, n)
  {
    RowHas(a, n, 0);
  }

  /** The next calls find the key empty. */
  lemma TornCallBreaks(p: Params)
    requires p.cfg.Valid() && 2 <= p.window
    ensures !NeverOver(p, 1, true)
  {
    hide *;
    var d := p.window + SLACK;
    var s := TornDivides(p);
    RangeAbove(3, p.limit, 0);
    RangeAbove(3, p.limit, 1);
    RangeAbove(3, p.limit, 2);
    var s' := Burst(p, true, s, 3, p.limit);
    FilledHas(s.store, s'.store, 3, p.limit, d, p.window);
    Overfull(p, s'.store, 3, 2, d - 1, d);
    Breaks(p, 1, true, s', d - 1, d);
  }

  lemma NeverOverGrows(p: Params, d: nat, e: nat, torn: bool)
    requires d <= e && !NeverOver(p, d, torn)
    ensures !NeverOver(p, e, torn)
  {
  }

  // ----- exactly when -----

  /** One call at a time: the limit holds in every span shorter than the window exactly when commands take effect within
      the slack of their reading, or within its millisecond if pipelines can be cut off between ZADD and EXPIRE. */
  lemma BoundExactly(p: Params, d: nat, torn: bool)
    requires p.cfg.Valid() && 0 < p.window && (torn ==> 2 <= p.window)
    ensures NeverOver(p, d, torn) <==> if torn then d == 0 else d <= 1000
  {
    if Tolerable(d, torn) {
      forall states: seq<System>, actions: seq<Action>, n: nat, lo: int, hi: int
        | Legal(p, torn, states, actions) && n < |states| && states[n].delay <= d && 0 <= hi - lo < p.window
        ensures WithinLimit(p, states[n].store, lo, hi)
      {
        LimitKept(p, d, torn, states, actions, n, lo, hi);
      }
    } else if torn {
      TornCallBreaks(p);
      NeverOverGrows(p, 1, d, torn);
    } else {
      LateCallBreaks(p);
      NeverOverGrows(p, SLACK + 1, d, torn);
    }
  }

  ghost predicate WithinThrottle(p: Params, s: System, lo: int, hi: int)
    requires p.cfg.Valid()
  {
    && s.store.admitted <= s.store.scores.Keys
    && AdmissionsIn(s, lo, hi)
       <= (if p.cfg.deny then 1 else 2) * p.limit + (p.cfg.threshold - 1) * (2 + p.window * NANOS / p.cfg.interval)
  }

  /** The throttle of all admissions, whoever gave them, in the same runs. */
  ghost predicate KeepsThrottle(p: Params, d: nat, torn: bool)
    requires p.cfg.Valid()
  {
    forall states: seq<System>, actions: seq<Action>, n: nat, lo: int, hi: int ::
      Legal(p, torn, states, actions) && n < |states| && states[n].delay <= d && 0 <= hi - lo < p.window ==>
        WithinThrottle(p, states[n], lo, hi)
  }

  lemma ThrottleKept(p: Params, d: nat, torn: bool, states: seq<System>, actions: seq<Action>, n: nat, lo: int, hi: int)
    requires Legal(p, torn, states, actions) && n < |states| && states[n].delay <= d && 0 <= hi - lo < p.window
    requires p.cfg.Valid() && Tolerable(d, torn)
    ensures WithinThrottle(p, states[n], lo, hi)
  {
    if torn {
      ThrottleAlone(p, states, actions, n, lo, hi);
      NoneWiped(p, d, torn, states, actions, n, lo, hi);
    } else {
      ThrottlePrompt(p, states, actions, n, lo, hi);
    }
  }

  /** A limiter that asks no one but Redis: a threshold of one, and no fallback. */
  predicate Strict(cfg: Config) { cfg.deny && cfg.threshold == 1 }

  /** Commands that are late by no more than that keep the throttle under any configuration; for a strict limiter they
      must. */
  lemma ThrottleExactly(p: Params, d: nat, torn: bool)
    requires p.cfg.Valid() && 0 < p.window && (torn ==> 2 <= p.window)
    ensures Tolerable(d, torn) ==> KeepsThrottle(p, d, torn)
    ensures Strict(p.cfg) ==> (KeepsThrottle(p, d, torn) <==> Tolerable(d, torn))
  {
    if Tolerable(d, torn) {
      forall states: seq<System>, actions: seq<Action>, n: nat, lo: int, hi: int
        | Legal(p, torn, states, actions) && n < |states| && states[n].delay <= d && 0 <= hi - lo < p.window
        ensures WithinThrottle(p, states[n], lo, hi)
      {
        ThrottleKept(p, d, torn, states, actions, n, lo, hi);
      }
    } else if Strict(p.cfg) && KeepsThrottle(p, d, torn) {
      forall states: seq<System>, actions: seq<Action>, n: nat, lo: int, hi: int
        | Legal(p, torn, states, actions) && n < |states| && states[n].delay <= d && 0 <= hi - lo < p.window
        ensures WithinLimit(p, states[n].store, lo, hi)
      {
        assert WithinThrottle(p, states[n], lo, hi);
      }
      BoundExactly(p, d, torn);
      assert false;
    }
  }
}
