/** The cap on the fallback's keys (internal/ratelimit/memory.go:54-61, 76-92): exactly when it is exceeded,
    by how much, and what a full keyspace forgets. */
module MemoryCapacity {
  import opened Arithmetic
  import opened Options
  import opened SlidingWindow
  import opened MemoryLimiter
  import opened MemoryRuns

  /** One call, with the victim its scan chose, if it made one. */
  ghost predicate ServesEvicting<Key(!new)>(empty: Key, maxKeys: nat, r: Request<Key>, m: Keyspace<Key>,
                                            m': Keyspace<Key>, victim: Option<Key>) {
    if r.key in m || |m| < maxKeys then victim == None && m' == Record(m, r.key, r.now, r.window)
    else victim.Some? && Oldest(m, victim.value)
         && m' == Record(if victim.value == empty then m else m - {victim.value}, r.key, r.now, r.window)
  }

  lemma SomeVictim<Key(!new)>(empty: Key, maxKeys: nat, r: Request<Key>, m: Keyspace<Key>, m': Keyspace<Key>, ok: bool)
    returns (victim: Option<Key>)
    requires Serves(empty, maxKeys, r, m, m', ok)
    ensures ServesEvicting(empty, maxKeys, r, m, m', victim)
  {
    hide Record;
    var mid :| RoomMade(m, empty, maxKeys, r.key, mid) && m' == Record(mid, r.key, r.now, r.window);
    if r.key in m || |m| < maxKeys {
      victim := None;
    } else {
      var v :| Oldest(m, v) && mid == if v == empty then m else m - {v};
      victim := Some(v);
    }
  }

  lemma RecordSize<Key>(m: Keyspace<Key>, key: Key, now: int, window: int)
    ensures |Record(m, key, now, window)| == if key in m then |m| else |m| + 1
  {
    assert Record(m, key, now, window).Keys == m.Keys + {key};
    assert |Record(m, key, now, window)| == |m.Keys + {key}| && |m| == |m.Keys|;
  }

  /** A call exceeds the cap exactly when a new key meets a full map whose chosen victim is the empty key. */
  lemma ExceedsExactly<Key(!new)>(empty: Key, maxKeys: nat, r: Request<Key>, m: Keyspace<Key>, m': Keyspace<Key>,
                                  victim: Option<Key>)
    requires ServesEvicting(empty, maxKeys, r, m, m', victim) && 1 <= maxKeys && |m| <= maxKeys
    ensures |m'| > maxKeys <==> r.key !in m && |m| == maxKeys && victim == Some(empty)
  {
    hide Record;
    RecordSize(m, r.key, r.now, r.window);
    if victim.Some? && victim.value != empty {
      OneLess(m, victim.value);
      RecordSize(m - {victim.value}, r.key, r.now, r.window);
    }
  }

  /** The i-th call of a run scans for a victim and finds the empty key. */
  ghost predicate Spares<Key(!new)>(empty: Key, maxKeys: nat, reqs: seq<Request<Key>>, states: seq<Keyspace<Key>>, i: nat)
    requires i < |reqs| && |states| == |reqs| + 1
  {
    ServesEvicting(empty, maxKeys, reqs[i], states[i], states[i + 1], Some(empty))
  }

  /** A run keeps to the cap exactly as long as no scan finds the empty key. */
  lemma {:induction false} CapHoldsExactly<Key(!new)>(empty: Key, maxKeys: nat, reqs: seq<Request<Key>>,
                                                      states: seq<Keyspace<Key>>, answers: seq<bool>, n: nat)
    requires Run(empty, maxKeys, reqs, states, answers) && 1 <= maxKeys && n <= |reqs|
    ensures (forall i :: 0 <= i <= n ==> |states[i]| <= maxKeys)
       <==> (forall i :: 0 <= i < n ==> !Spares(empty, maxKeys, reqs, states, i))
    decreases n
  {
    hide Serves, ServesEvicting;
    if n > 0 {
      CapHoldsExactly(empty, maxKeys, reqs, states, answers, n - 1);
      if |states[n - 1]| <= maxKeys {
        NextSize(empty, maxKeys, reqs, states, answers, n - 1);
      }
    }
  }

  lemma NextSize<Key(!new)>(empty: Key, maxKeys: nat, reqs: seq<Request<Key>>, states: seq<Keyspace<Key>>,
                            answers: seq<bool>, i: nat)
    requires Run(empty, maxKeys, reqs, states, answers) && 1 <= maxKeys && i < |reqs| && |states[i]| <= maxKeys
    ensures |states[i + 1]| <= maxKeys <==> !Spares(empty, maxKeys, reqs, states, i)
  {
    hide Record;
    var victim := SomeVictim(empty, maxKeys, reqs[i], states[i], states[i + 1], answers[i]);
    ExceedsExactly(empty, maxKeys, reqs[i], states[i], states[i + 1], victim);
    if Spares(empty, maxKeys, reqs, states, i) {
      ExceedsExactly(empty, maxKeys, reqs[i], states[i], states[i + 1], Some(empty));
    }
  }

  // ----- how far the cap is exceeded

  /** The key is in the map, and every other key was touched later. */
  ghost predicate StrictlyOldest<Key>(m: Keyspace<Key>, key: Key) {
    key in m && forall k :: k in m && k != key ==> m[key].touch < m[k].touch
  }

  lemma NewKeyStays<Key(!new)>(empty: Key, maxKeys: nat, r: Request<Key>, m: Keyspace<Key>, m': Keyspace<Key>, ok: bool)
    requires Serves(empty, maxKeys, r, m, m', ok) && StrictlyOldest(m, empty) && r.key !in m && m[empty].touch < r.now
    ensures m' == Record(m, r.key, r.now, r.window) && |m'| == |m| + 1
    ensures StrictlyOldest(m', empty) && m'[empty] == m[empty]
  {
    var victim := SomeVictim(empty, maxKeys, r, m, m', ok);
    RecordSize(m, r.key, r.now, r.window);
  }

  /** The keys of the requests from a to n are new to the map, and all different. */
  ghost predicate NewKeys<Key(!new)>(m: Keyspace<Key>, reqs: seq<Request<Key>>, a: nat, n: nat)
    requires n <= |reqs|
  {
    && (forall i :: a <= i < n ==> reqs[i].key !in m)
    && (forall i, j :: a <= i < j < n ==> reqs[i].key != reqs[j].key)
  }

  /** While the empty key is strictly the oldest nothing is ever evicted: any number of new keys is added,
      whatever the cap. */
  lemma {:induction false} GrowsWithoutBound<Key(!new)>(empty: Key, maxKeys: nat, reqs: seq<Request<Key>>,
                                                        states: seq<Keyspace<Key>>, answers: seq<bool>, a: nat, n: nat)
    requires Run(empty, maxKeys, reqs, states, answers) && a <= n <= |reqs|
    requires StrictlyOldest(states[a], empty) && NewKeys(states[a], reqs, a, n)
    requires forall i :: a <= i < n ==> states[a][empty].touch < reqs[i].now
    ensures |states[n]| == |states[a]| + (n - a)
    ensures StrictlyOldest(states[n], empty) && states[n][empty] == states[a][empty]
    ensures forall k :: k in states[n] ==> k in states[a] || exists i :: a <= i < n && reqs[i].key == k
    decreases n
  {
    hide Serves;
    if a < n {
      GrowsWithoutBound(empty, maxKeys, reqs, states, answers, a, n - 1);
      NewKeyStays(empty, maxKeys, reqs[n - 1], states[n - 1], states[n], answers[n - 1]);
    }
  }

  /** So a run that begins with the empty key keeps every key it ever meets. */
  lemma EmptyKeyOverflows<Key(!new)>(empty: Key, maxKeys: nat, reqs: seq<Request<Key>>, states: seq<Keyspace<Key>>,
                                     answers: seq<bool>)
    requires Run(empty, maxKeys, reqs, states, answers) && 1 <= maxKeys && reqs != [] && reqs[0].key == empty
    requires forall i, j :: 0 <= i < j < |reqs| ==> reqs[i].key != reqs[j].key
    requires forall i :: 0 < i < |reqs| ==> reqs[0].now < reqs[i].now
    ensures |states[|reqs|]| == |reqs|
  {
    FirstKey(empty, maxKeys, reqs, states, answers);
    hide Serves;
    GrowsWithoutBound(empty, maxKeys, reqs, states, answers, 1, |reqs|);
  }

  lemma FirstKey<Key(!new)>(empty: Key, maxKeys: nat, reqs: seq<Request<Key>>, states: seq<Keyspace<Key>>,
                            answers: seq<bool>)
    requires Run(empty, maxKeys, reqs, states, answers) && 1 <= maxKeys && reqs != []
    ensures states[1] == map[reqs[0].key := Log([reqs[0].now], reqs[0].now)]
    ensures answers[0] == (1 <= reqs[0].limit)
  {
    assert Serves(empty, maxKeys, reqs[0], states[0], states[1], answers[0]);
    KeepNothing([], reqs[0].now - reqs[0].window);
    assert [] + [reqs[0].now] == [reqs[0].now];
  }

  // ----- one key too many

  /** A request for a key, as many other keys as the map holds, and the first key again: the first key was
      evicted in between, and both its requests are admitted although together they exceed its limit. */
  ghost predicate Crowds<Key(!new)>(empty: Key, maxKeys: nat, a: Key, w: nat, t: int, reqs: seq<Request<Key>>) {
    && 1 <= maxKeys && |reqs| == maxKeys + 2 && a != empty
    && reqs[0] == Request(a, 1, w, 0) && reqs[maxKeys + 1] == Request(a, 1, w, t) && 0 <= t <= w
    && (forall i :: 1 <= i <= maxKeys ==> reqs[i].key != a && reqs[i].key != empty)
    && (forall i, j :: 1 <= i < j <= maxKeys ==> reqs[i].key != reqs[j].key)
    && (1 < maxKeys ==> forall i :: 1 <= i <= maxKeys ==> 0 < reqs[i].now)
  }

  lemma {:induction false} FillsUp<Key(!new)>(empty: Key, maxKeys: nat, a: Key, w: nat, t: int, reqs: seq<Request<Key>>,
                                              states: seq<Keyspace<Key>>, answers: seq<bool>, i: nat)
    requires Run(empty, maxKeys, reqs, states, answers) && Crowds(empty, maxKeys, a, w, t, reqs) && 1 <= i <= maxKeys
    ensures |states[i]| == i && StrictlyOldest(states[i], a) && states[i][a].touch == 0 && empty !in states[i]
    ensures forall k :: k in states[i] ==> k == a || exists j :: 1 <= j < i && reqs[j].key == k
    decreases i
  {
    FirstKey(empty, maxKeys, reqs, states, answers);
    if i > 1 {
      FillsUp(empty, maxKeys, a, w, t, reqs, states, answers, i - 1);
      hide Record;
      assert Serves(empty, maxKeys, reqs[i - 1], states[i - 1], states[i], answers[i - 1]);
      RecordSize(states[i - 1], reqs[i - 1].key, reqs[i - 1].now, reqs[i - 1].window);
      RecordKeepsOldest(states[i - 1], a, reqs[i - 1]);
    }
  }

  lemma RecordKeepsOldest<Key>(m: Keyspace<Key>, a: Key, r: Request<Key>)
    requires StrictlyOldest(m, a) && r.key != a && m[a].touch < r.now
    ensures var m' := Record(m, r.key, r.now, r.window);
            StrictlyOldest(m', a) && m'[a] == m[a] && m'.Keys == m.Keys + {r.key}
  {
  }

  /** A key recorded anew after its eviction starts from an empty log. */
  lemma ForgottenKey<Key(!new)>(empty: Key, maxKeys: nat, r: Request<Key>, m: Keyspace<Key>, m': Keyspace<Key>, ok: bool)
    requires Serves(empty, maxKeys, r, m, m', ok) && r.key !in m
    ensures ok == (1 <= r.limit)
  {
    KeepNothing([], r.now - r.window);
  }

  /** One key too many is observable, at every cap: a request is admitted that unevicted logs would deny. */
  lemma CrowdedKeyspaceForgets<Key(!new)>(empty: Key, maxKeys: nat, a: Key, w: nat, t: int, reqs: seq<Request<Key>>,
                                          states: seq<Keyspace<Key>>, answers: seq<bool>)
    requires Run(empty, maxKeys, reqs, states, answers) && Crowds(empty, maxKeys, a, w, t, reqs)
    ensures answers[0] && answers[maxKeys + 1] && !AsUnbounded(reqs, answers, maxKeys + 1)
  {
    FirstKey(empty, maxKeys, reqs, states, answers);
    FillsUp(empty, maxKeys, a, w, t, reqs, states, answers, maxKeys);
    VictimGoes(empty, maxKeys, a, reqs[maxKeys], states[maxKeys], states[maxKeys + 1], answers[maxKeys]);
    ForgottenKey(empty, maxKeys, reqs[maxKeys + 1], states[maxKeys + 1], states[maxKeys + 2], answers[maxKeys + 1]);
    BothLogged(reqs, a, maxKeys + 1, w, t);
    assert reqs[..maxKeys + 2] == reqs;
  }

  lemma VictimGoes<Key(!new)>(empty: Key, maxKeys: nat, a: Key, r: Request<Key>, m: Keyspace<Key>, m': Keyspace<Key>, ok: bool)
    requires Serves(empty, maxKeys, r, m, m', ok) && StrictlyOldest(m, a) && |m| == maxKeys
    requires r.key !in m && a != empty
    ensures a !in m'
  {
    var victim := SomeVictim(empty, maxKeys, r, m, m', ok);
    assert victim == Some(a);
  }

  /** Never evicted, the key's log would hold both its requests. */
  lemma BothLogged<Key(!new)>(reqs: seq<Request<Key>>, a: Key, n: nat, w: nat, t: int)
    requires |reqs| == n + 1 && 1 <= n && reqs[0] == Request(a, 1, w, 0) && reqs[n] == Request(a, 1, w, t) && 0 <= t <= w
    requires forall i :: 1 <= i < n ==> reqs[i].key != a
    ensures |TimesOf(Unbounded(reqs), a)| == 2
  {
    hide Unbounded, LogAfter, Keep;
    UnboundedIsLog(reqs, a, w);
    assert reqs[..n][..1] == reqs[..1] && reqs[..1][..0] == [];
    OneReading(reqs, a, n);
    LogAppend([], 0, w);
    LogAppend([] + [0], t, w);
    EmptyLog(w);
    KeepAppend([], 0, t - w);
    assert reqs[..|reqs| - 1] == reqs[..n];
  }

  lemma EmptyLog(w: int)
    ensures LogAfter([], w) == [] && forall cut {:trigger Keep([], cut)} :: Keep([], cut) == []
  {
  }

  lemma {:induction false} OneReading<Key(!new)>(reqs: seq<Request<Key>>, a: Key, n: nat)
    requires 1 <= n <= |reqs| && reqs[0].key == a && forall i :: 1 <= i < n ==> reqs[i].key != a
    ensures NowsOf(reqs[..n], a) == [] + [reqs[0].now]
  {
    if n == 1 {
      assert reqs[..1][..0] == [];
    } else {
      OneReading(reqs, a, n - 1);
      assert reqs[..n][..n - 1] == reqs[..n - 1];
    }
  }
}
