/** The in-process fallback limiter (internal/ratelimit/memory.go): a map of windows whose timestamp
    buffers are compacted in place, with eviction of a least recently touched key. */
module MemoryLimiter {
  import opened SlidingWindow

  const DEFAULT_MAX_KEYS := 100_000

  /** What one window holds, as a value. */
  datatype Log = Log(times: seq<int>, touch: int)

  /** Keys are strings in the program; nothing but equality and the empty key matters here. */
  type Keyspace<Key> = map<Key, Log>

  function TimesOf<Key>(m: Keyspace<Key>, key: Key): seq<int> {
    if key in m then m[key].times else []
  }

  /** The keyspace after one request has been logged under `key`. */
  function Record<Key>(m: Keyspace<Key>, key: Key, now: int, window: int): Keyspace<Key> {
    m[key := Log(Keep(TimesOf(m, key), now - window) + [now], now)]
  }

  lemma RecordOpened<Key>(m: Keyspace<Key>, key: Key, t: int, now: int, window: int)
    requires key !in m
    ensures Record(m[key := Log([], t)], key, now, window) == Record(m, key, now, window)
  {
    assert m[key := Log([], t)].Keys == m.Keys + {key};
  }

  ghost predicate Oldest<Key>(m: Keyspace<Key>, victim: Key) {
    victim in m && forall k :: k in m ==> m[victim].touch <= m[k].touch
  }

  /** Evicting: some least recently touched key goes, unless that key is the empty one. */
  ghost predicate Evicted<Key(!new)>(m: Keyspace<Key>, empty: Key, m': Keyspace<Key>) {
    exists victim :: Oldest(m, victim) && m' == if victim == empty then m else m - {victim}
  }

  /** Room is made only when a new key meets a full keyspace. */
  ghost predicate RoomMade<Key(!new)>(m: Keyspace<Key>, empty: Key, maxKeys: nat, key: Key, m': Keyspace<Key>) {
    if key in m || |m| < maxKeys then m' == m else Evicted(m, empty, m')
  }

  /** One call of Allow as a relation on keyspaces; which of several equally old keys goes is open. */
  ghost predicate Allows<Key(!new)>(m: Keyspace<Key>, empty: Key, maxKeys: nat, key: Key, limit: int, window: int, now: int,
                              m': Keyspace<Key>, ok: bool) {
    exists mid :: RoomMade(m, empty, maxKeys, key, mid) && m' == Record(mid, key, now, window)
                  && ok == (|m'[key].times| <= limit)
  }

  class Window {
    ghost var log: Log  // what the window holds, as a value
    var buf: array<int>
    var len: nat
    var lastTouch: int

    ghost predicate Valid()
      reads this, buf
    {
      len <= buf.Length && log == Log(buf[..len], lastTouch)
    }

    constructor (now: int)
      ensures Valid() && log == Log([], now) && fresh(buf)
    {
      buf := new int[0];
      len := 0;
      lastTouch := now;
      log := Log([], now);
    }

    /** Moves the entries at or after `windowStart` to the front of the same buffer. */
    method Compact(windowStart: int)
      requires Valid()
      modifies `len, `log, buf
      ensures Valid() && log == Log(Keep(old(log).times, windowStart), old(log).touch)
    {
      ghost var was := log.times;
      var kept := 0;
      var i := 0;
      while i < len
        invariant 0 <= kept <= i <= len
        invariant log == old(log) && len == old(len) == |was|
        invariant buf[..kept] == Keep(was[..i], windowStart)
        invariant buf[i..len] == was[i..]
      {
        var ts := buf[i];
        assert ts == was[i];
        assert was[..i + 1][..i] == was[..i];
        assert buf[i..len][1..] == was[i..][1..];
        if windowStart <= ts {
          buf[kept] := ts;
          kept := kept + 1;
        }
        i := i + 1;
      }
      assert was[..i] == was;
      len := kept;
      log := Log(Keep(was, windowStart), lastTouch);
    }

    /** Appends the request and marks the window touched, in the
        same buffer while it has room and in a larger copy when it has not. */
    method Append(now: int)
      requires Valid()
      modifies `log, `buf, `len, `lastTouch, buf
      ensures Valid() && log == Log(old(log).times + [now], now)
      ensures buf == old(buf) || fresh(buf)
    {
      if len == buf.Length {
        var grown := new int[2 * len + 1];
        forall i | 0 <= i < len { grown[i] := buf[i]; }
        assert grown[..len] == log.times;
        buf := grown;
      }
      buf[len] := now;
      len := len + 1;
      lastTouch := now;
      log := Log(log.times + [now], now);
    }

    /** One request on this window. */
    method Admit(limit: int, windowStart: int, now: int) returns (ok: bool)
      requires Valid()
      modifies `log, `buf, `len, `lastTouch, buf
      ensures Valid() && log == Log(Keep(old(log).times, windowStart) + [now], now)
      ensures buf == old(buf) || fresh(buf)
      ensures ok == (|log.times| <= limit)
    {
      Compact(windowStart);
      Append(now);
      ok := len <= limit;
    }
  }

  class Limiter<Key(==,!new)> {
    ghost var Contents: Keyspace<Key>  // what the map of windows holds, as a value
    ghost var Repr: set<object>
    ghost var owner: map<object, Key>  // no window object or buffer serves two keys
    var keys: map<Key, Window>
    const maxKeys: nat
    const empty: Key

    ghost predicate Valid()
      reads this, Repr
    {
      && this !in Repr && 1 <= maxKeys
      && keys.Keys == Contents.Keys
      && (forall k :: k in keys ==> Holds(k))
    }

    ghost predicate Holds(k: Key)
      reads this, Repr
      requires k in keys && k in Contents
    {
      && keys[k] in Repr && keys[k].buf in Repr
      && keys[k] in owner && owner[keys[k]] == k
      && keys[k].buf in owner && owner[keys[k].buf] == k
      && keys[k].Valid() && Contents[k] == keys[k].log
    }

    constructor (maxKeys: int, empty: Key)
      ensures Valid() && Contents == map[] && Repr == {}
      ensures this.maxKeys == if maxKeys <= 0 then 100_000 else maxKeys
      ensures this.empty == empty
    {
      this.empty := empty;
      this.maxKeys := if maxKeys <= 0 then DEFAULT_MAX_KEYS else maxKeys;
      keys := map[];
      Contents := map[];
      owner, Repr := map[], {};
    }

    /** Scans the whole map for a least recently touched key. */
    method LeastRecent() returns (victim: Key)
      requires Valid() && keys != map[]
      ensures Oldest(Contents, victim)
    {
      victim := empty;
      var oldest := 0;
      var first := true;
      var rest := keys.Keys;
      while rest != {}
        invariant rest <= keys.Keys
        invariant first <==> rest == keys.Keys
        invariant !first ==> victim in keys && victim !in rest && oldest == keys[victim].lastTouch
        invariant !first ==> forall k :: k in keys && k !in rest ==> oldest <= keys[k].lastTouch
        decreases |rest|
      {
        var k :| k in rest;
        if first || keys[k].lastTouch < oldest {
          first := false;
          victim := k;
          oldest := keys[k].lastTouch;
        }
        rest := rest - {k};
      }
      forall k | k in Contents ensures Contents[victim].touch <= Contents[k].touch {
        assert Holds(k) && Holds(victim);
      }
    }

    /** Deletes a least recently touched key, unless it is the empty string. */
    method EvictOldest()
      requires Valid() && keys != map[]
      modifies `keys, `Contents
      ensures Valid() && Evicted(old(Contents), empty, Contents)
    {
      var victim := LeastRecent();
      if victim != empty {
        keys, Contents := keys - {victim}, Contents - {victim};
        assert forall k :: k in keys ==> k in old(keys) && keys[k] == old(keys)[k] && old(Holds(k));
      }
    }

    /** Records the request and reports whether the key stays within its limit. */
    method Allow(key: Key, limit: int, window: int, now: int) returns (ok: bool)
      requires Valid()
      modifies this, Repr
      ensures Valid() && fresh(Repr - old(Repr))
      ensures Allows(old(Contents), empty, maxKeys, key, limit, window, now, Contents, ok)
      ensures ok == (|TimesOf(Contents, key)| <= limit)
    {
      hide Keep, Holds;
      ghost var room := MakeRoom(key);
      if key !in keys {
        var w := new Window(now);
        Open(key, w);
        RecordOpened(room, key, now, now, window);
      }
      ok := Touch(key, limit, window, now);
    }

    /** Evicts when a new key meets a full keyspace. */
    method MakeRoom(key: Key) returns (ghost room: Keyspace<Key>)
      requires Valid()
      modifies `keys, `Contents
      ensures Valid() && room == Contents
      ensures RoomMade(old(Contents), empty, maxKeys, key, room)
    {
      assert |keys.Keys| == |keys| && |Contents.Keys| == |Contents|;
      if key !in keys && |keys| >= maxKeys {
        EvictOldest();
      }
      room := Contents;
    }

    /** Gives a new key a window that nothing else refers to. */
    method Open(key: Key, w: Window)
      requires Valid() && key !in keys && w.Valid() && w !in Repr && w.buf !in Repr && this as object !in {w, w.buf}
      modifies `keys, `Contents, `owner, `Repr
      ensures Valid() && Repr == old(Repr) + {w, w.buf}
      ensures keys == old(keys)[key := w] && Contents == old(Contents)[key := w.log]
    {
      keys, Contents := keys[key := w], Contents[key := w.log];
      owner, Repr := owner[w := key][w.buf := key], Repr + {w, w.buf};
      forall k | k in keys && k != key ensures Holds(k) {
        assert old(Holds(k));
      }
    }

    /** Valid but for the window of `key`, which has just been changed. */
    ghost predicate ValidBut(key: Key)
      reads this, Repr
    {
      && this !in Repr && 1 <= maxKeys
      && keys.Keys == Contents.Keys
      && (forall k :: k in keys && k != key ==> Holds(k))
    }

    /** Prunes and extends the window of a key that is present. */
    method Touch(key: Key, limit: int, window: int, now: int) returns (ok: bool)
      requires Valid() && key in keys
      modifies `Contents, `owner, `Repr, Repr
      ensures Valid() && keys == old(keys) && fresh(Repr - old(Repr))
      ensures Contents == Record(old(Contents), key, now, window)
      ensures ok == (|Contents[key].times| <= limit)
    {
      hide Keep, Window.Valid;
      var w := keys[key];
      assert Holds(key);
      ok := w.Admit(limit, now - window, now);
      assert ValidBut(key) by {
        forall k | k in keys && k != key ensures Holds(k) {
          assert old(Holds(k));
        }
      }
      Settle(key);
    }

    /** Takes over what the window of `key` now holds. */
    ghost method Settle(key: Key)
      requires ValidBut(key) && key in keys && keys[key].Valid()
      requires keys[key] in Repr && keys[key] in owner && owner[keys[key]] == key && this as object != keys[key].buf
      requires keys[key].buf in Repr ==> keys[key].buf in owner && owner[keys[key].buf] == key
      modifies `Contents, `owner, `Repr
      ensures Valid() && Repr == old(Repr) + {keys[key].buf}
      ensures Contents == old(Contents)[key := keys[key].log]
    {
      Contents := Contents[key := keys[key].log];
      owner, Repr := owner[keys[key].buf := key], Repr + {keys[key].buf};
      forall k | k in keys && k != key ensures Holds(k) {
        assert old(Holds(k));
      }
    }
  }
}
