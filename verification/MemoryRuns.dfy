/** Whole runs of the in-process limiter: its size, and whether its eviction can be observed. */
module MemoryRuns {
  import opened Arithmetic
  import opened SlidingWindow
  import opened MemoryLimiter

  datatype Request<Key> = Request(key: Key, limit: int, window: int, now: int)

  /** A run of the limiter from an empty keyspace: states before and after every call, and the answers. */
  ghost predicate Run<Key(!new)>(empty: Key, maxKeys: nat, reqs: seq<Request<Key>>,
                                 states: seq<Keyspace<Key>>, answers: seq<bool>) {
    && |states| == |reqs| + 1 && |answers| == |reqs|
    && states[0] == map[]
    && forall i :: 0 <= i < |reqs| ==> Serves(empty, maxKeys, reqs[i], states[i], states[i + 1], answers[i])
  }

  ghost predicate Serves<Key(!new)>(empty: Key, maxKeys: nat, r: Request<Key>,
                                    m: Keyspace<Key>, m': Keyspace<Key>, ok: bool) {
    Allows(m, empty, maxKeys, r.key, r.limit, r.window, r.now, m', ok)
  }

  /** The same requests against per-key logs that are never evicted. */
  function Unbounded<Key>(reqs: seq<Request<Key>>): Keyspace<Key> {
    if reqs == [] then map[]
    else
      var r := reqs[|reqs| - 1];
      Record(Unbounded(reqs[..|reqs| - 1]), r.key, r.now, r.window)
  }

  ghost predicate NoEmptyKey<Key(!new)>(reqs: seq<Request<Key>>, empty: Key) {
    forall i :: 0 <= i < |reqs| ==> reqs[i].key != empty
  }

  ghost predicate ClockAdvances<Key>(reqs: seq<Request<Key>>) {
    forall i, j :: 0 <= i < j < |reqs| ==> reqs[i].now <= reqs[j].now
  }

  ghost predicate WindowsUpTo<Key>(reqs: seq<Request<Key>>, w: nat) {
    forall i :: 0 <= i < |reqs| ==> 0 <= reqs[i].window <= w
  }

  /** The distinct keys used at or after a time. */
  ghost function KeysSince<Key(!new)>(reqs: seq<Request<Key>>, t: int): set<Key> {
    set i | 0 <= i < |reqs| && t <= reqs[i].now :: reqs[i].key
  }

  /** At most maxKeys distinct keys are used in any closed window of length w that ends at a request. */
  ghost predicate FewKeys<Key(!new)>(reqs: seq<Request<Key>>, maxKeys: nat, w: nat) {
    forall i :: 0 <= i < |reqs| ==> |KeysSince(reqs[..i + 1], reqs[i].now - w)| <= maxKeys
  }

  /** The map never holds more than maxKeys keys, as long as nobody uses the empty key. */
  lemma {:induction false} SizeBounded<Key(!new)>(empty: Key, maxKeys: nat, reqs: seq<Request<Key>>,
                                                  states: seq<Keyspace<Key>>, answers: seq<bool>, i: nat)
    requires Run(empty, maxKeys, reqs, states, answers) && NoEmptyKey(reqs, empty) && 1 <= maxKeys
    requires i <= |reqs|
    ensures |states[i]| <= maxKeys && empty !in states[i]
    decreases i
  {
    if i > 0 {
      hide Serves, Unbounded, KeysSince;
      SizeBounded(empty, maxKeys, reqs, states, answers, i - 1);
      SizeStep(empty, maxKeys, reqs[i - 1], states[i - 1], states[i], answers[i - 1]);
    }
  }

  lemma SizeStep<Key(!new)>(empty: Key, maxKeys: nat, r: Request<Key>, m: Keyspace<Key>, m': Keyspace<Key>, ok: bool)
    requires Serves(empty, maxKeys, r, m, m', ok) && r.key != empty && 1 <= maxKeys
    requires |m| <= maxKeys && empty !in m
    ensures |m'| <= maxKeys && empty !in m'
  {
  }

  /** Every log's last touch is the time of some request for that key. */
  ghost predicate Dated<Key(!new)>(u: Keyspace<Key>, reqs: seq<Request<Key>>, t: int) {
    forall k :: k in u ==> AtMost(u[k].times, u[k].touch) && u[k].touch <= t && k in KeysSince(reqs, u[k].touch)
  }

  /** How the bounded map m relates to the unbounded logs u after the requests so far, the last at t. */
  ghost predicate Tracks<Key(!new)>(m: Keyspace<Key>, u: Keyspace<Key>, reqs: seq<Request<Key>>, t: int, w: nat) {
    && (forall k :: k in m ==> k in u && m[k] == u[k])
    && (forall k :: k in u && k !in m ==> u[k].touch < t - w)
    && Dated(u, reqs, t)
  }

  /** The pigeonhole step: a victim was last touched before the window began. */
  lemma VictimIsStale<Key(!new)>(m: Keyspace<Key>, v: Key, reqs: seq<Request<Key>>, r: Request<Key>, maxKeys: nat, w: nat)
    requires Oldest(m, v) && |m| >= maxKeys && r.key !in m
    requires forall k :: k in m ==> k in KeysSince(reqs, m[k].touch)
    requires |KeysSince(reqs + [r], r.now - w)| <= maxKeys
    ensures m[v].touch < r.now - w
  {
    if m[v].touch >= r.now - w {
      var recent := KeysSince(reqs + [r], r.now - w);
      forall k | k in m ensures k in recent {
        var i :| 0 <= i < |reqs| && m[k].touch <= reqs[i].now && reqs[i].key == k;
        assert (reqs + [r])[i] == reqs[i];
      }
      assert (reqs + [r])[|reqs|] == r;
      SubsetSize(m.Keys + {r.key}, recent);
    }
  }

  /** Recording the request in both keeps the relation, if what the bounded map lacks is already stale. */
  lemma RecordTracks<Key(!new)>(mid: Keyspace<Key>, u: Keyspace<Key>, reqs: seq<Request<Key>>, t: int, w: nat, r: Request<Key>)
    requires Dated(u, reqs, t) && t <= r.now && 0 <= r.window <= w
    requires forall k :: k in mid ==> k in u && mid[k] == u[k]
    requires forall k :: k in u && k !in mid ==> u[k].touch < r.now - w
    ensures Tracks(Record(mid, r.key, r.now, r.window), Record(u, r.key, r.now, r.window), reqs + [r], r.now, w)
  {
    hide Keep, KeysSince, Dated;
    LogsStayDated(u, reqs, t, r);
    if r.key !in mid {
      if r.key in u {
        DatedLog(u, reqs, t, r.key);
        assert AtMost(u[r.key].times, r.now - r.window - 1);
        KeepNothing(u[r.key].times, r.now - r.window);
      }
      KeepNothing([], r.now - r.window);
    }
    assert Record(mid, r.key, r.now, r.window)[r.key] == Record(u, r.key, r.now, r.window)[r.key];
    hide AtMost;
  }

  /** One more call keeps the relation, and both limiters give the same answer. */
  lemma TracksStep<Key(!new)>(empty: Key, maxKeys: nat, m: Keyspace<Key>, u: Keyspace<Key>, reqs: seq<Request<Key>>,
                              t: int, w: nat, r: Request<Key>, m': Keyspace<Key>, ok: bool)
    requires Tracks(m, u, reqs, t, w) && t <= r.now && 0 <= r.window <= w
    requires empty !in m && |KeysSince(reqs + [r], r.now - w)| <= maxKeys
    requires Serves(empty, maxKeys, r, m, m', ok)
    ensures Tracks(m', Record(u, r.key, r.now, r.window), reqs + [r], r.now, w)
    ensures ok == (|TimesOf(Record(u, r.key, r.now, r.window), r.key)| <= r.limit)
  {
    hide Keep, KeysSince, Dated;
    var mid :| RoomMade(m, empty, maxKeys, r.key, mid) && m' == Record(mid, r.key, r.now, r.window)
               && ok == (|m'[r.key].times| <= r.limit);
    if r.key !in m && |m| >= maxKeys {
      var v :| Oldest(m, v) && mid == if v == empty then m else m - {v};
      assert forall k :: k in m ==> k in KeysSince(reqs, m[k].touch) by { DatedKeys(m, u, reqs, t); }
      VictimIsStale(m, v, reqs, r, maxKeys, w);
    }
    RecordTracks(mid, u, reqs, t, w, r);
  }

  lemma DatedKeys<Key(!new)>(m: Keyspace<Key>, u: Keyspace<Key>, reqs: seq<Request<Key>>, t: int)
    requires Dated(u, reqs, t) && forall k :: k in m ==> k in u && m[k] == u[k]
    ensures forall k :: k in m ==> k in KeysSince(reqs, m[k].touch)
  {
  }

  lemma DatedLog<Key(!new)>(u: Keyspace<Key>, reqs: seq<Request<Key>>, t: int, key: Key)
    requires Dated(u, reqs, t) && key in u
    ensures AtMost(u[key].times, u[key].touch)
  {
  }

  lemma LogsStayDated<Key(!new)>(u: Keyspace<Key>, reqs: seq<Request<Key>>, t: int, r: Request<Key>)
    requires Dated(u, reqs, t) && t <= r.now
    ensures Dated(Record(u, r.key, r.now, r.window), reqs + [r], r.now)
  {
    var u' := Record(u, r.key, r.now, r.window);
    KeepAtMost(TimesOf(u, r.key), r.now - r.window, r.now);
    forall k | k in u' ensures k in KeysSince(reqs + [r], u'[k].touch) {
      if k == r.key {
        assert (reqs + [r])[|reqs|] == r;
      } else {
        var i :| 0 <= i < |reqs| && u[k].touch <= reqs[i].now && reqs[i].key == k;
        assert (reqs + [r])[i] == reqs[i];
      }
    }
  }

  lemma {:induction false} KeepAtMost(times: seq<int>, cut: int, hi: int)
    requires AtMost(times, hi)
    ensures AtMost(Keep(times, cut), hi)
  {
    if times != [] { KeepAtMost(times[..|times| - 1], cut, hi); }
  }

  lemma {:induction false} RunTracks<Key(!new)>(empty: Key, maxKeys: nat, w: nat, reqs: seq<Request<Key>>,
                                                states: seq<Keyspace<Key>>, answers: seq<bool>, n: nat)
    requires Run(empty, maxKeys, reqs, states, answers) && 1 <= maxKeys
    requires NoEmptyKey(reqs, empty) && ClockAdvances(reqs) && WindowsUpTo(reqs, w) && FewKeys(reqs, maxKeys, w)
    requires 0 < n <= |reqs|
    ensures Tracks(states[n], Unbounded(reqs[..n]), reqs[..n], reqs[n - 1].now, w)
    ensures answers[n - 1] == (|TimesOf(Unbounded(reqs[..n]), reqs[n - 1].key)| <= reqs[n - 1].limit)
  {
    hide Tracks, Record, Serves, KeysSince;
    var r, before := reqs[n - 1], reqs[..n - 1];
    assert reqs[..n] == before + [r] && (before + [r])[..n - 1] == before;
    SizeBounded(empty, maxKeys, reqs, states, answers, n - 1);
    if n == 1 {
      TracksNothing(before, r.now, w);
      TracksStep(empty, maxKeys, states[0], Unbounded(before), before, r.now, w, r, states[1], answers[0]);
    } else {
      RunTracks(empty, maxKeys, w, reqs, states, answers, n - 1);
      TracksStep(empty, maxKeys, states[n - 1], Unbounded(before), before, reqs[n - 2].now, w, r,
                 states[n], answers[n - 1]);
    }
  }

  lemma TracksNothing<Key(!new)>(reqs: seq<Request<Key>>, t: int, w: nat)
    ensures Tracks(map[], map[], reqs, t, w)
  {
  }

  /** The clock readings of one key's requests. */
  function NowsOf<Key(==)>(reqs: seq<Request<Key>>, key: Key): seq<int> {
    if reqs == [] then []
    else
      var r, nows := reqs[|reqs| - 1], NowsOf(reqs[..|reqs| - 1], key);
      if r.key == key then nows + [r.now] else nows
  }

  /** An unevicted key's log is the sliding-window log of its own requests, whatever other keys do. */
  lemma {:induction false} UnboundedIsLog<Key>(reqs: seq<Request<Key>>, key: Key, w: int)
    requires forall i :: 0 <= i < |reqs| && reqs[i].key == key ==> reqs[i].window == w
    ensures TimesOf(Unbounded(reqs), key) == LogAfter(NowsOf(reqs, key), w)
  {
    if reqs != [] {
      var before, r := reqs[..|reqs| - 1], reqs[|reqs| - 1];
      UnboundedIsLog(before, key, w);
      if r.key == key { LogAppend(NowsOf(before, key), r.now, w); }
    }
  }

  /** The clock readings of the key's admitted requests among the first n. */
  function AdmittedNowsOf<Key(==)>(reqs: seq<Request<Key>>, answers: seq<bool>, key: Key, n: nat): seq<int>
    requires n <= |reqs| == |answers|
  {
    if n == 0 then []
    else
      var nows := AdmittedNowsOf(reqs, answers, key, n - 1);
      if reqs[n - 1].key == key && answers[n - 1] then nows + [reqs[n - 1].now] else nows
  }

  /** The i-th answer is that of the unevicted logs. */
  predicate AsUnbounded<Key(==)>(reqs: seq<Request<Key>>, answers: seq<bool>, i: nat)
    requires i < |reqs| == |answers|
  {
    answers[i] == (|TimesOf(Unbounded(reqs[..i + 1]), reqs[i].key)| <= reqs[i].limit)
  }

  /** Eviction is unobservable: while at most maxKeys distinct keys fall into any window, the bounded
      map answers every request of the run as if nothing had ever been evicted. */
  lemma EvictionUnobservable<Key(!new)>(empty: Key, maxKeys: nat, w: nat, reqs: seq<Request<Key>>,
                                        states: seq<Keyspace<Key>>, answers: seq<bool>)
    requires Run(empty, maxKeys, reqs, states, answers) && 1 <= maxKeys
    requires NoEmptyKey(reqs, empty) && ClockAdvances(reqs) && WindowsUpTo(reqs, w) && FewKeys(reqs, maxKeys, w)
    ensures |answers| == |reqs| && forall i :: 0 <= i < |reqs| ==> AsUnbounded(reqs, answers, i)
  {
    hide Record, Serves, KeysSince, Tracks, FewKeys, WindowsUpTo, NoEmptyKey, ClockAdvances, Unbounded;
    forall i | 0 <= i < |reqs| ensures AsUnbounded(reqs, answers, i) {
      RunTracks(empty, maxKeys, w, reqs, states, answers, i + 1);
    }
  }

  /** The throttle of the fallback: under its eviction, with keys coming and going, no closed interval of
      window length ever holds more than the limit of one key's admissions. */
  lemma MemoryThrottle<Key(!new)>(empty: Key, maxKeys: nat, w: nat, reqs: seq<Request<Key>>, states: seq<Keyspace<Key>>,
                                  answers: seq<bool>, key: Key, limit: nat, lo: int, hi: int)
    requires Run(empty, maxKeys, reqs, states, answers) && 1 <= maxKeys
    requires NoEmptyKey(reqs, empty) && ClockAdvances(reqs) && WindowsUpTo(reqs, w) && FewKeys(reqs, maxKeys, w)
    requires Uniform(reqs, key, w, limit) && hi - lo <= w
    ensures CountIn(AdmittedNowsOf(reqs, answers, key, |reqs|), lo, hi) <= limit
  {
    hide Run, FewKeys, WindowsUpTo, NoEmptyKey, Unbounded, CountIn, AsUnbounded, Uniform;
    EvictionUnobservable(empty, maxKeys, w, reqs, states, answers);
    AdmissionsAgree(reqs, answers, key, w, limit, |reqs|);
    assert reqs[..|reqs|] == reqs;
    NowsOrdered(reqs, key);
    WindowBound(NowsOf(reqs, key), w, limit, 0, |NowsOf(reqs, key)|, lo, hi);
  }

  /** All requests of the key have the same window and limit. */
  ghost predicate Uniform<Key>(reqs: seq<Request<Key>>, key: Key, w: int, limit: int) {
    forall i :: 0 <= i < |reqs| && reqs[i].key == key ==> reqs[i].window == w && reqs[i].limit == limit
  }

  lemma {:induction false} NowsOrdered<Key>(reqs: seq<Request<Key>>, key: Key)
    requires ClockAdvances(reqs)
    ensures NonDecreasing(NowsOf(reqs, key))
    ensures reqs != [] ==> AtMost(NowsOf(reqs, key), reqs[|reqs| - 1].now)
  {
    if reqs != [] { NowsOrdered(reqs[..|reqs| - 1], key); }
  }

  /** Seen from one key, the unevicted answers are those of its own sliding window. */
  lemma {:induction false} AdmissionsAgree<Key>(reqs: seq<Request<Key>>, answers: seq<bool>, key: Key, w: nat, limit: int, n: nat)
    requires n <= |reqs| == |answers| && Uniform(reqs, key, w, limit)
    requires forall i :: 0 <= i < |reqs| ==> AsUnbounded(reqs, answers, i)
    ensures var nows := NowsOf(reqs[..n], key);
            AdmittedNowsOf(reqs, answers, key, n) == AdmittedTimes(nows, w, limit, |nows|)
  {
    if n > 0 {
      hide Unbounded, LogAfter;
      AdmissionsAgree(reqs, answers, key, w, limit, n - 1);
      assert reqs[..n] == reqs[..n - 1] + [reqs[n - 1]] && reqs[..n][..n - 1] == reqs[..n - 1];
      var nows, before := NowsOf(reqs[..n], key), NowsOf(reqs[..n - 1], key);
      if reqs[n - 1].key == key {
        assert nows == before + [reqs[n - 1].now] && nows[..|before|] == before && nows[..|nows|] == nows;
        UnboundedIsLog(reqs[..n], key, w);
        AdmittedPrefix(nows, before, w, limit, |before|);
        assert AsUnbounded(reqs, answers, n - 1);
      }
    }
  }

  /** The admissions among the first n requests depend on nothing later. */
  lemma {:induction false} AdmittedPrefix(times: seq<int>, before: seq<int>, w: int, limit: int, n: nat)
    requires n <= |before| <= |times| && before == times[..|before|]
    ensures AdmittedTimes(times, w, limit, n) == AdmittedTimes(before, w, limit, n)
  {
    if n > 0 {
      AdmittedPrefix(times, before, w, limit, n - 1);
      assert times[..n] == before[..n];
    }
  }
}
