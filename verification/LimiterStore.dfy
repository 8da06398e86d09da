/** The limiter's sorted set in Redis as concurrent pipelines see it, command by command: what each command
    does to the members and to the key's deadline, and what that keeps (internal/ratelimit/limiter.go:128-142). */
module LimiterStore {
  import opened Arithmetic
  import opened Options
  import RedisWindow

  const SLACK := RedisWindow.EXPIRE_SLACK

  datatype Store = Store(
    zset: map<nat, int>,        // member and score
    deadline: Option<int>,
    // what has happened so far
    scores: map<nat, int>,      // every member ever added
    granted: set<nat>,          // members whose ZCARD was within the limit
    admitted: set<nat>,         // those of them whose call was answered "allowed"
    lapses: seq<int>,           // the deadlines that took effect
    lost: set<nat>,             // members a deadline wiped less than a window and the slack after their score
    straddling: map<nat, nat>,  // those of them whose pipeline was under way, and at which lapse
    newest: int,                // the newest time up to which a window was dropped
    lag: nat                    // the most any count was taken behind that
  )

  const EMPTY := Store(map[], None, map[], {}, {}, [], {}, map[], 0, 0)

  function Max(a: int, b: int): int { if a < b then b else a }

  function Without(zset: map<nat, int>, max: int): map<nat, int> {
    map m | m in zset && !(0 <= zset[m] <= max) :: zset[m]
  }

  /** The members still inside the window, with the slack to spare, when a deadline wipes them. */
  function Wiped(st: Store, window: nat, d: int): set<nat> {
    set m | m in st.zset && d - SLACK - window < st.zset[m]
  }

  /** What a command finds at Redis time c: past its deadline the key is gone. */
  function Live(st: Store, c: int, window: nat, flying: set<nat>): Store {
    if st.deadline.Some? && st.deadline.value <= c then
      var d := st.deadline.value;
      var gone := Wiped(st, window, d);
      st.(zset := map[], deadline := None, newest := Max(st.newest, d - SLACK), lapses := st.lapses + [d],
          lost := st.lost + gone, straddling := st.straddling + (map m | m in gone && m in flying :: |st.lapses|))
    else st
  }

  /** ZREMRANGEBYSCORE for a request read at `now`; an emptied key is deleted, its deadline with it. */
  function AfterPrune(st: Store, window: nat, now: int): Store {
    var left := Without(st.zset, now - window);
    st.(zset := left, deadline := if left == map[] then None else st.deadline, newest := Max(st.newest, now))
  }

  function AfterAdd(st: Store, m: nat, now: int): Store {
    st.(zset := st.zset[m := now], scores := st.scores[m := now])
  }

  /** ZCARD: the member is granted if the count is within the limit. */
  function AfterCard(st: Store, limit: nat, m: nat, now: int): Store {
    st.(granted := if |st.zset| <= limit then st.granted + {m} else st.granted,
        lag := Max(st.lag, st.newest - now))
  }

  function AfterRenew(st: Store, c: int, window: nat): Store {
    if st.zset == map[] then st else st.(deadline := Some(c + window + SLACK))
  }

  function AfterReply(st: Store, m: nat): Store { st.(admitted := st.admitted + {m}) }

  // ----- what is granted

  /** The members whose scores lie in [lo, hi]. */
  ghost function InSpan(members: set<nat>, scores: map<nat, int>, lo: int, hi: int): set<nat>
    requires members <= scores.Keys
  {
    set m | m in members && lo <= scores[m] <= hi
  }

  /** What was logged inside the newest window is in the set, unless a deadline wiped it. */
  ghost predicate SetInv(window: nat, st: Store) {
    && (forall m :: m in st.zset ==> m in st.scores && st.zset[m] == st.scores[m])
    && (forall m :: m in st.scores && st.newest - window < st.scores[m] && m !in st.lost ==> m in st.zset)
    && st.granted <= st.scores.Keys && st.admitted <= st.granted
    && st.straddling.Keys <= st.lost <= st.scores.Keys && st.lost !! st.zset.Keys
  }

  ghost predicate GrantInv(limit: nat, window: nat, st: Store)
    requires st.granted <= st.scores.Keys
  {
    forall lo, hi {:trigger InSpan(st.granted - st.lost, st.scores, lo, hi)} ::
      hi - lo + st.lag < window ==> |InSpan(st.granted - st.lost, st.scores, lo, hi)| <= limit
  }

  ghost predicate StoreInv(limit: nat, window: nat, st: Store) {
    SetInv(window, st) && GrantInv(limit, window, st)
  }

  lemma LiveKeeps(limit: nat, window: nat, st: Store, c: int, flying: set<nat>)
    requires StoreInv(limit, window, st)
    ensures StoreInv(limit, window, Live(st, c, window, flying))
  {
    var st' := Live(st, c, window, flying);
    forall lo, hi | hi - lo + st'.lag < window ensures |InSpan(st'.granted - st'.lost, st'.scores, lo, hi)| <= limit {
      SubsetSize(InSpan(st'.granted - st'.lost, st'.scores, lo, hi), InSpan(st.granted - st.lost, st.scores, lo, hi));
    }
  }

  lemma PrunedKeeps(limit: nat, window: nat, st: Store, now: int)
    requires StoreInv(limit, window, st)
    ensures StoreInv(limit, window, AfterPrune(st, window, now))
  {
  }

  lemma AddedKeeps(limit: nat, window: nat, st: Store, m: nat, now: int)
    requires StoreInv(limit, window, st) && m !in st.scores
    ensures StoreInv(limit, window, AfterAdd(st, m, now))
  {
    var st' := AfterAdd(st, m, now);
    forall lo, hi
      ensures InSpan(st'.granted - st'.lost, st'.scores, lo, hi) == InSpan(st.granted - st.lost, st.scores, lo, hi)
    {
    }
  }

  /** Counting: what is granted is bounded by what ZCARD has just seen. */
  lemma CountedKeeps(limit: nat, window: nat, st: Store, m: nat, now: int)
    requires StoreInv(limit, window, st) && m in st.scores && st.scores[m] == now
    ensures StoreInv(limit, window, AfterCard(st, limit, m, now))
  {
    var st' := AfterCard(st, limit, m, now);
    forall lo, hi | hi - lo + st'.lag < window ensures |InSpan(st'.granted - st'.lost, st.scores, lo, hi)| <= limit {
      var before, after := InSpan(st.granted - st.lost, st.scores, lo, hi), InSpan(st'.granted - st'.lost, st.scores, lo, hi);
      if m in after && st'.granted != st.granted {
        SubsetSize(after, st.zset.Keys);
      } else {
        assert after <= before;
        SubsetSize(after, before);
      }
    }
  }

  lemma RenewedKeeps(limit: nat, window: nat, st: Store, c: int)
    requires StoreInv(limit, window, st)
    ensures StoreInv(limit, window, AfterRenew(st, c, window))
  {
  }

  lemma AdmittedKeeps(limit: nat, window: nat, st: Store, m: nat)
    requires StoreInv(limit, window, st) && m in st.granted
    ensures StoreInv(limit, window, AfterReply(st, m))
  {
  }

  // ----- what a deadline can wipe

  /** Deadlines take effect at least a window and the slack apart, and each drops the window up to the slack before it. */
  ghost predicate LapsesInv(window: nat, c: int, st: Store) {
    && (st.deadline.Some? ==> st.deadline.value <= c + window + SLACK)
    && (st.deadline.Some? && st.lapses != [] ==> st.lapses[|st.lapses| - 1] + window + SLACK <= st.deadline.value)
    && (forall i :: 0 <= i < |st.lapses| ==> st.lapses[i] <= c && st.lapses[i] - SLACK <= st.newest)
    && (forall i :: 0 < i < |st.lapses| ==> st.lapses[i - 1] + window + SLACK <= st.lapses[i])
  }

  /** The pipelines under way have added these members, and renewed the deadline after those. */
  ghost predicate FlightInv(window: nat, c: int, st: Store, flying: set<nat>, renewed: set<nat>) {
    && (forall m :: m in flying ==> m in st.scores && st.scores[m] <= c)
    && (forall m :: m in flying && m in st.zset && st.deadline.Some? ==> st.zset[m] < st.deadline.value)
    && renewed <= flying
    && (forall m :: m in st.zset && (m in st.admitted || m in renewed) ==>
          st.deadline.Some? && st.zset[m] <= st.deadline.value - window - SLACK)
    && (forall m :: m in st.lost && (m in st.admitted || m in flying) ==> m in st.straddling)
  }

  /** A straddling member was added before the deadline that wiped it, and if it was counted, not far behind the
      deadline before that one. */
  ghost predicate StraddleInv(st: Store) {
    && (forall m :: m in st.straddling ==> m in st.scores && st.straddling[m] < |st.lapses|
                                           && st.scores[m] < st.lapses[st.straddling[m]])
    && (forall m :: m in st.straddling && m in st.granted && st.straddling[m] > 0 ==>
          st.lapses[st.straddling[m] - 1] - SLACK <= st.scores[m] + st.lag)
    && (forall m :: m in st.zset && m in st.granted && st.lapses != [] ==>
          st.lapses[|st.lapses| - 1] - SLACK <= st.zset[m] + st.lag)
  }

  ghost predicate DeadlineInv(window: nat, c: int, st: Store, flying: set<nat>, renewed: set<nat>) {
    LapsesInv(window, c, st) && FlightInv(window, c, st, flying, renewed) && StraddleInv(st)
  }

  lemma LiveSpacing(window: nat, c: int, st: Store, flying: set<nat>)
    requires LapsesInv(window, c, st)
    ensures LapsesInv(window, c, Live(st, c, window, flying))
    ensures var d := Live(st, c, window, flying).deadline; d.Some? ==> c < d.value
  {
    hide Wiped;
  }

  lemma LiveFlight(window: nat, c: int, st: Store, flying: set<nat>, renewed: set<nat>)
    requires SetInv(window, st) && FlightInv(window, c, st, flying, renewed)
    ensures FlightInv(window, c, Live(st, c, window, flying), flying, renewed)
  {
  }

  lemma LiveStraddle(window: nat, c: int, st: Store, flying: set<nat>, renewed: set<nat>)
    requires SetInv(window, st) && FlightInv(window, c, st, flying, renewed) && StraddleInv(st)
    ensures StraddleInv(Live(st, c, window, flying))
  {
    if st.deadline.Some? && st.deadline.value <= c {
      var gone := Wiped(st, window, st.deadline.value);
      assert gone <= st.zset.Keys && gone !! st.straddling.Keys;
      hide Wiped;
    }
  }

  lemma LiveLapses(window: nat, c: int, st: Store, flying: set<nat>, renewed: set<nat>)
    requires SetInv(window, st) && DeadlineInv(window, c, st, flying, renewed)
    ensures DeadlineInv(window, c, Live(st, c, window, flying), flying, renewed)
    ensures var d := Live(st, c, window, flying).deadline; d.Some? ==> c < d.value
  {
    hide SetInv, LapsesInv, FlightInv, StraddleInv, Live;
    LiveSpacing(window, c, st, flying);
    LiveFlight(window, c, st, flying, renewed);
    LiveStraddle(window, c, st, flying, renewed);
  }

  lemma PrunedFlight(window: nat, c: int, st: Store, flying: set<nat>, renewed: set<nat>, now: int)
    requires FlightInv(window, c, st, flying, renewed)
    ensures FlightInv(window, c, AfterPrune(st, window, now), flying, renewed)
  {
  }

  lemma PrunedStraddle(window: nat, st: Store, now: int)
    requires StraddleInv(st)
    ensures StraddleInv(AfterPrune(st, window, now))
  {
  }

  lemma PrunedLapses(window: nat, c: int, st: Store, flying: set<nat>, renewed: set<nat>, now: int)
    requires DeadlineInv(window, c, st, flying, renewed)
    ensures DeadlineInv(window, c, AfterPrune(st, window, now), flying, renewed)
  {
    hide FlightInv, StraddleInv, Without;
    PrunedFlight(window, c, st, flying, renewed, now);
    PrunedStraddle(window, st, now);
  }

  lemma AddedFlight(window: nat, c: int, st: Store, flying: set<nat>, renewed: set<nat>, m: nat, now: int)
    requires SetInv(window, st) && FlightInv(window, c, st, flying, renewed) && m !in st.scores
    requires st.deadline.Some? ==> c < st.deadline.value
    ensures FlightInv(window, c, AfterAdd(st, m, now), flying, renewed)
    ensures now <= c ==> FlightInv(window, c, AfterAdd(st, m, now), flying + {m}, renewed)
  {
  }

  lemma AddedStraddle(window: nat, st: Store, m: nat, now: int)
    requires SetInv(window, st) && StraddleInv(st) && m !in st.scores
    ensures StraddleInv(AfterAdd(st, m, now))
  {
  }

  lemma AddedLapses(window: nat, c: int, st: Store, flying: set<nat>, renewed: set<nat>, m: nat, now: int)
    requires SetInv(window, st) && DeadlineInv(window, c, st, flying, renewed) && m !in st.scores
    requires st.deadline.Some? ==> c < st.deadline.value
    ensures DeadlineInv(window, c, AfterAdd(st, m, now), flying, renewed)
    ensures now <= c ==> DeadlineInv(window, c, AfterAdd(st, m, now), flying + {m}, renewed)
  {
    hide SetInv, FlightInv, StraddleInv;
    AddedFlight(window, c, st, flying, renewed, m, now);
    AddedStraddle(window, st, m, now);
  }

  lemma CountedStraddle(window: nat, c: int, st: Store, limit: nat, m: nat, now: int)
    requires SetInv(window, st) && LapsesInv(window, c, st) && StraddleInv(st) && m in st.scores && st.scores[m] == now
    ensures StraddleInv(AfterCard(st, limit, m, now))
  {
    var st' := AfterCard(st, limit, m, now);
    assert forall x :: x in st'.granted && x !in st.granted ==> x == m;
    assert forall i :: 0 <= i < |st.lapses| ==> st.lapses[i] - SLACK <= now + st'.lag;
  }

  lemma CountedFlight(window: nat, c: int, st: Store, flying: set<nat>, renewed: set<nat>, limit: nat, m: nat, now: int)
    requires FlightInv(window, c, st, flying, renewed)
    ensures FlightInv(window, c, AfterCard(st, limit, m, now), flying, renewed)
  {
  }

  lemma CountedLapses(window: nat, c: int, st: Store, flying: set<nat>, renewed: set<nat>, limit: nat, m: nat, now: int)
    requires SetInv(window, st) && DeadlineInv(window, c, st, flying, renewed) && m in flying && m in st.scores && st.scores[m] == now
    ensures DeadlineInv(window, c, AfterCard(st, limit, m, now), flying, renewed)
  {
    hide SetInv, StraddleInv, FlightInv;
    CountedFlight(window, c, st, flying, renewed, limit, m, now);
    CountedStraddle(window, c, st, limit, m, now);
  }

  lemma RenewedFlight(window: nat, c: int, st: Store, flying: set<nat>, renewed: set<nat>, m: nat)
    requires SetInv(window, st) && LapsesInv(window, c, st) && FlightInv(window, c, st, flying, renewed)
    ensures FlightInv(window, c, AfterRenew(st, c, window), flying, renewed)
    ensures m in flying ==> FlightInv(window, c, AfterRenew(st, c, window), flying, renewed + {m})
  {
  }

  lemma RenewedLapses(window: nat, c: int, st: Store, flying: set<nat>, renewed: set<nat>, m: nat)
    requires SetInv(window, st) && DeadlineInv(window, c, st, flying, renewed)
    ensures DeadlineInv(window, c, AfterRenew(st, c, window), flying, renewed)
    ensures m in flying ==> DeadlineInv(window, c, AfterRenew(st, c, window), flying, renewed + {m})
  {
    hide SetInv, FlightInv;
    RenewedFlight(window, c, st, flying, renewed, m);
  }

  lemma AdmittedLapses(window: nat, c: int, st: Store, flying: set<nat>, renewed: set<nat>, m: nat)
    requires DeadlineInv(window, c, st, flying, renewed) && m in renewed
    ensures DeadlineInv(window, c, AfterReply(st, m), flying, renewed)
  {
  }

  /** Pipelines end and time passes. */
  lemma FewerFlying(window: nat, c: int, st: Store, flying: set<nat>, renewed: set<nat>, c': int, flying': set<nat>, renewed': set<nat>)
    requires DeadlineInv(window, c, st, flying, renewed)
    requires c <= c' && flying' <= flying && renewed' <= renewed && renewed' <= flying'
    ensures DeadlineInv(window, c', st, flying', renewed')
  {
  }

  // ----- how many admissions a deadline can wipe

  ghost function At(straddling: map<nat, nat>, j: nat): set<nat> {
    set m | m in straddling && straddling[m] == j
  }

  /** No lapse catches more pipelines under way than there are. */
  ghost predicate FewEach(st: Store, k: nat) {
    && (forall m :: m in st.straddling ==> st.straddling[m] < |st.lapses|)
    && (forall j {:trigger At(st.straddling, j)} :: |At(st.straddling, j)| <= k)
  }

  lemma LiveFew(st: Store, c: int, window: nat, flying: set<nat>, k: nat)
    requires SetInv(window, st) && FewEach(st, k) && |flying| <= k
    ensures FewEach(Live(st, c, window, flying), k)
  {
    var st' := Live(st, c, window, flying);
    forall j {:trigger At(st'.straddling, j)} ensures |At(st'.straddling, j)| <= k {
      if j == |st.lapses| {
        SubsetSize(At(st'.straddling, j), flying);
      } else {
        assert At(st'.straddling, j) == At(st.straddling, j);
      }
    }
  }

  lemma {:induction false} LapsesApart(window: nat, c: int, st: Store, i: nat, j: nat)
    requires LapsesInv(window, c, st) && i < j < |st.lapses|
    ensures st.lapses[i] + window + SLACK <= st.lapses[j]
  {
    if i + 1 < j { LapsesApart(window, c, st, i, j - 1); }
  }

  lemma {:induction false} FirstLapse(members: set<nat>, straddling: map<nat, nat>) returns (m: nat)
    requires members != {} && members <= straddling.Keys
    ensures m in members && forall x :: x in members ==> straddling[m] <= straddling[x]
  {
    m :| m in members;
    var rest := members - {m};
    assert members == rest + {m};
    if rest != {} {
      var other := FirstLapse(rest, straddling);
      if straddling[other] < straddling[m] { m := other; }
    }
  }

  /** Two lapses with another between them never catch pipelines that were counted within one window. */
  lemma WithinTwoLapses(window: nat, c: int, st: Store, m: nat, x: nat)
    requires LapsesInv(window, c, st) && StraddleInv(st)
    requires m in st.straddling && x in st.straddling && x in st.granted && m in st.scores && x in st.scores
    requires st.scores[x] - st.scores[m] + st.lag < window
    ensures st.straddling[x] <= st.straddling[m] + 1
  {
    var i, j := st.straddling[m], st.straddling[x];
    if j > i + 1 { LapsesApart(window, c, st, i, j - 1); }
  }

  /** Inside an interval shorter than the window by the lag, a deadline wipes at most two admissions for every
      pipeline that can be under way, and all other admissions are within the limit. */
  lemma AdmittedWithin(limit: nat, window: nat, k: nat, c: int, st: Store, flying: set<nat>, renewed: set<nat>, lo: int, hi: int)
    requires StoreInv(limit, window, st) && DeadlineInv(window, c, st, flying, renewed) && FewEach(st, k)
    requires hi - lo + st.lag < window
    ensures |InSpan(st.admitted, st.scores, lo, hi)| <= limit + |InSpan(st.admitted * st.lost, st.scores, lo, hi)|
    ensures |InSpan(st.admitted * st.lost, st.scores, lo, hi)| <= 2 * k
  {
    var all, kept, wiped := InSpan(st.admitted, st.scores, lo, hi), InSpan(st.granted - st.lost, st.scores, lo, hi),
                            InSpan(st.admitted * st.lost, st.scores, lo, hi);
    assert all <= kept + wiped;
    SubsetSize(all, kept + wiped);
    assert |kept + wiped| <= |kept| + |wiped|;
    if wiped != {} {
      var m := FirstLapse(wiped, st.straddling);
      var i := st.straddling[m];
      var caught := At(st.straddling, i) + At(st.straddling, i + 1);
      forall x | x in wiped ensures x in caught {
        WithinTwoLapses(window, c, st, m, x);
      }
      SubsetSize(wiped, caught);
    }
  }
}
