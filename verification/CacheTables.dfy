/** The cache's two mutable tables, changed in place: the in-flight locks
    and the database rows. Each method is one atomic step of the protocol
    and is proved to be the step function the protocol takes. */
module CacheTables {
  import opened Bytes
  import opened Wrappers
  import opened CacheKeys
  import CacheLike
  import CacheProtocol

  class InflightLocks {
    var inflight: map<string, CacheProtocol.LockId>
    var strong: map<CacheProtocol.LockId, int>
    var next: CacheProtocol.LockId

    ghost function View(): CacheProtocol.Locks
      reads this
    {
      CacheProtocol.Locks(inflight, strong, next)
    }

    constructor ()
      ensures View() == CacheProtocol.START.locks
    {
      inflight, strong, next := map[], map[], 0;
    }

    method LockFor(ns: Namespace, key: string) returns (lock: CacheProtocol.LockId)
      modifies this
      ensures (View(), lock) == CacheProtocol.LockFor(old(View()), LockName(Key(ns, key)))
    {
      var full := Label(ns) + ['\0'] + key;
      if full !in inflight {
        inflight := inflight[full := next];
        strong := strong[next := 1];
        next := next + 1;
      }
      lock := inflight[full];
      strong := strong[lock := (if lock in strong then strong[lock] else 0) + 1];
      assert full !in old(inflight) ==> strong == old(strong)[old(next) := 2];
    }

    method StrongCount(lock: CacheProtocol.LockId) returns (count: int)
      ensures count == CacheProtocol.Count(View(), lock)
    {
      count := if lock in strong then strong[lock] else 0;
    }

    method ReleaseLock(ns: Namespace, key: string, lock: CacheProtocol.LockId)
      modifies this
      ensures View() == CacheProtocol.ReleaseLock(old(View()), LockName(Key(ns, key)), lock)
    {
      var full := Label(ns) + ['\0'] + key;
      var count := StrongCount(lock);
      if count <= 2 && full in inflight {
        Drop(inflight[full]);
        inflight := inflight - {full};
      }
    }

    /** Dropping a reference. */
    method Drop(lock: CacheProtocol.LockId)
      modifies this
      ensures View() == CacheProtocol.DropArc(old(View()), lock)
    {
      var count := StrongCount(lock);
      strong := strong[lock := count - 1];
    }
  }

  class CacheRows {
    var rows: map<Key, Row>

    constructor ()
      ensures rows == map[]
    {
      rows := map[];
    }

    /** A read that fails is a miss. */
    method Lookup(ns: Namespace, key: string, now: int, fails: bool) returns (found: Option<Option<Bytes>>)
      ensures found == if fails then None else Hit(rows, Key(ns, key), now)
    {
      var k := Key(ns, key);
      if !fails && k in rows && rows[k].expiresAt > now {
        found := Some(rows[k].value);
      } else {
        found := None;
      }
    }

    /** A store the database accepts is at once a hit, for exactly the
        lifetime of its kind, and changes no other answer; one it refuses
        changes none. */
    method TryStore(ns: Namespace, key: string, value: Option<Bytes>, now: int, fails: bool) returns (ok: bool)
      modifies this
      ensures ok == !fails
      ensures rows == if fails then old(rows) else old(rows)[Key(ns, key) := MakeRow(Key(ns, key), value, now)]
      ensures forall k, later ::
        Hit(rows, k, later) ==
        if fails || k != Key(ns, key) then Hit(old(rows), k, later)
        else if later - now < (if value.Some? then Ttl(ns) else NegativeTtl(ns)) then Some(value)
        else None
    {
      if fails {
        return false;
      }
      var ttl := if value.Some? then Ttl(ns) else NegativeTtl(ns);
      rows := rows[Key(ns, key) := Row(value, now, now + ttl)];
      ok := true;
    }

    /** From then on the key is a miss, and no other answer changes, unless
        the delete fails; that is not told to the caller. */
    method Evict(ns: Namespace, key: string, fails: bool)
      modifies this
      ensures forall k, later ::
        Hit(rows, k, later) == if !fails && k == Key(ns, key) then None else Hit(old(rows), k, later)
    {
      if !fails {
        rows := rows - {Key(ns, key)};
      }
    }

    /** Unless the delete fails, exactly the keys of the namespace that spell
        the prefix, up to ASCII case, are misses, and no other answer
        changes. */
    method EvictPrefix(ns: Namespace, prefix: string, fails: bool)
      modifies this
      ensures forall k, later ::
        Hit(rows, k, later) ==
        if !fails && k.ns == ns && CacheLike.StartsWithFolded(k.name, prefix) then None else Hit(old(rows), k, later)
    {
      if fails {
        return;
      }
      var escaped := CacheLike.EscapeLike(prefix);
      var pattern := escaped + "%";
      rows := map k | k in rows && !(k.ns == ns && CacheLike.Like(pattern, k.name)) :: rows[k];
      forall k: Key
        ensures CacheLike.Like(pattern, k.name) <==> CacheLike.StartsWithFolded(k.name, prefix)
      {
        CacheLike.PatternIsPrefixTest(prefix, k.name);
      }
    }

    /** Purging changes no answer a later clock could get, and leaves nothing
        expired unless it fails. */
    method PurgeExpired(now: int, fails: bool) returns (removed: nat)
      modifies this
      ensures forall k, later | now <= later :: Hit(rows, k, later) == Hit(old(rows), k, later)
      ensures !fails ==> forall k | k in rows :: rows[k].expiresAt > now
      ensures fails ==> rows == old(rows)
      ensures removed == |old(rows)| - |rows|
    {
      if fails {
        return 0;
      }
      var live := map k | k in rows && rows[k].expiresAt > now :: rows[k];
      assert live.Keys <= rows.Keys;
      assert |rows.Keys - live.Keys| == |rows.Keys| - |live.Keys|;
      removed := |rows| - |live|;
      rows := live;
    }
  }
}
