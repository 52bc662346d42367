/** The workspace manager's distributed lock: `SET locks:{resource} token NX EX ttl` to
    acquire, and an atomic `EVAL` of a compare-and-delete script to release. A lock whose TTL
    lapses is an explicit `Lapse` transition. */
module Locks {
  import opened Results
  import opened Valkey

  /** Default lock TTL in seconds (`lock_timeout`), recorded but not modelled. */
  const LockTtl: nat := 10

  function LockKey(resource: string): string {
    "locks:" + resource
  }

  /** The token currently stored under the resource's lock key, if any. */
  function Holder(st: Store, resource: string): Option<string> {
    var key := LockKey(resource);
    if key in st.strings then Some(st.strings[key]) else None
  }

  /** `_acquire_lock`: stores the fresh `token` at the lock key and returns it exactly when
      the key does not exist; otherwise returns nothing and changes nothing. */
  function AcquireLock(st: Store, resource: string, token: string): (r: (Store, Option<string>))
    ensures r.1.Some? <==> !Exists(st, LockKey(resource))
    ensures r.1.Some? ==> r.1.value == token && Holder(r.0, resource) == Some(token)
    ensures r.1.None? ==> r.0 == st
    ensures r.0.hashes == st.hashes && r.0.order == st.order && r.0.lists == st.lists
    ensures r.0.channels == st.channels
    ensures forall k :: k != LockKey(resource) ==> Exists(r.0, k) == Exists(st, k)
    ensures forall k :: k != LockKey(resource) && k in st.strings ==> k in r.0.strings && r.0.strings[k] == st.strings[k]
  {
    var key := LockKey(resource);
    if Exists(st, key) then (st, None)
    else (st.(strings := st.strings[key := token]), Some(token))
  }

  /** `_release_lock`: deletes the lock key only when it still holds `token`, and reports
      whether it did. A lock held under another token is left alone. */
  function ReleaseLock(st: Store, resource: string, token: string): (r: (Store, bool))
    ensures r.1 <==> Holder(st, resource) == Some(token)
    ensures r.1 ==> Holder(r.0, resource) == None && LockKey(resource) !in r.0.strings
    ensures !r.1 ==> r.0 == st
    ensures r.0.hashes == st.hashes && r.0.order == st.order && r.0.lists == st.lists
    ensures r.0.channels == st.channels
    ensures forall k :: k != LockKey(resource) && k in st.strings ==> k in r.0.strings && r.0.strings[k] == st.strings[k]
    ensures forall k :: k != LockKey(resource) ==> (k in r.0.strings <==> k in st.strings)
  {
    var key := LockKey(resource);
    if key in st.strings && st.strings[key] == token then (st.(strings := st.strings - {key}), true)
    else (st, false)
  }

  /** The lock's TTL runs out: the key vanishes whoever holds it. */
  function Lapse(st: Store, resource: string): (r: Store)
    ensures Holder(r, resource) == None && !Exists(r, LockKey(resource))
  {
    Delete(st, LockKey(resource))
  }

  /** While one token holds the lock, no other acquisition succeeds and no other token can
      release it. */
  lemma {:induction false} LockIsExclusive(st: Store, resource: string, t1: string, t2: string, t3: string)
    requires t3 != t1
    ensures var (held, got) := AcquireLock(st, resource, t1);
            got.Some? ==>
              AcquireLock(held, resource, t2).1 == None &&
              ReleaseLock(held, resource, t3) == (held, false) &&
              ReleaseLock(held, resource, t1).1
  {
    var (held, got) := AcquireLock(st, resource, t1);
    if got.Some? {
      assert LockKey(resource) in held.strings;
    }
  }

  /** A holder whose lock lapsed and was taken by someone else cannot release the new
      holder's lock. */
  lemma {:induction false} StaleReleaseKeepsNewHolder(st: Store, resource: string, t1: string, t2: string)
    requires t1 != t2
    requires Holder(st, resource) == Some(t1)
    ensures var reacquired := AcquireLock(Lapse(st, resource), resource, t2);
            reacquired.1 == Some(t2) &&
            ReleaseLock(reacquired.0, resource, t1) == (reacquired.0, false) &&
            Holder(ReleaseLock(reacquired.0, resource, t1).0, resource) == Some(t2)
  {
    var lapsed := Lapse(st, resource);
    assert !Exists(lapsed, LockKey(resource));
  }

  /** Acquiring a free lock and releasing it with the same token restores the store. */
  lemma AcquireReleaseRestores(st: Store, resource: string, token: string)
    requires !Exists(st, LockKey(resource))
    ensures ReleaseLock(AcquireLock(st, resource, token).0, resource, token) == (st, true)
  {
    var held := AcquireLock(st, resource, token).0;
    assert held.strings - {LockKey(resource)} == st.strings;
  }
}
