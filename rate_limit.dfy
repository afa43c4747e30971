/**
 * lib/rate-limit.ts: a per-key limiter over an in-memory dictionary. Each key holds
 * a token count and the time of its last update. A key whose entry is more than an
 * hour old starts over, a key at its limit is refused, and every accepted call
 * takes one token and moves the window to the time of the call. The clock is a
 * parameter (`now`, in milliseconds).
 */
module RateLimit {
  /** One dictionary entry: tokens used and the time of the last update. */
  datatype Entry = Entry(tokens: int, updatedAt: int)

  /** `60 * 60 * 1000` */
  const Hour: int := 3600000

  /** The entry the call works on: the stored one, or a fresh one stamped `now`. */
  function Looked(bucket: map<string, Entry>, key: string, now: int): Entry {
    if key in bucket then bucket[key] else Entry(0, now)
  }

  predicate Expired(e: Entry, now: int) {
    now - e.updatedAt > Hour
  }

  /** The entry after the expiry check: an entry more than an hour old starts again from zero. */
  function Current(bucket: map<string, Entry>, key: string, now: int): Entry {
    var e := Looked(bucket, key, now);
    if Expired(e, now) then Entry(0, now) else e
  }

  /**
   * One call to `rateLimit`: whether it is allowed, and the dictionary afterwards.
   * The entry is an object held by the dictionary, so resetting an expired entry
   * shows in the dictionary even when the call is then refused.
   */
  function Decide(bucket: map<string, Entry>, key: string, maxPerHour: int, now: int): (bool, map<string, Entry>) {
    var e := Current(bucket, key, now);
    var reset := if key in bucket && Expired(bucket[key], now) then bucket[key := e] else bucket;
    if e.tokens >= maxPerHour then (false, reset)
    else (true, bucket[key := Entry(e.tokens + 1, now)])
  }

  class Limiter {
    /** `BUCKET` */
    var bucket: map<string, Entry>

    constructor ()
      ensures bucket == map[]
    {
      bucket := map[];
    }

    /** `rateLimit(key, maxPerHour)` at time `now`. */
    method RateLimit(key: string, maxPerHour: int, now: int) returns (ok: bool)
      modifies this
      ensures (ok, bucket) == Decide(old(bucket), key, maxPerHour, now)
    {
      var entry := if key in bucket then bucket[key] else Entry(0, now);
      if now - entry.updatedAt > Hour {
        entry := Entry(0, now);
        if key in bucket {
          bucket := bucket[key := entry];
        }
      }
      if entry.tokens >= maxPerHour {
        return false;
      }
      entry := Entry(entry.tokens + 1, now);
      bucket := bucket[key := entry];
      assert bucket == old(bucket)[key := entry];
      return true;
    }
  }

  /** A key never seen before starts with no tokens used: the call is allowed exactly when the limit is positive. */
  lemma NewKeyStartsAtZero(bucket: map<string, Entry>, key: string, maxPerHour: int, now: int)
    requires key !in bucket
    ensures Decide(bucket, key, maxPerHour, now).0 <==> maxPerHour > 0
    ensures Decide(bucket, key, maxPerHour, now).1 ==
      if maxPerHour > 0 then bucket[key := Entry(1, now)] else bucket
  {
  }

  /**
   * An entry last updated more than an hour ago counts from zero: the call is allowed
   * exactly when the limit is positive, and either way the entry is left stamped `now`.
   */
  lemma ExpiredEntryResets(bucket: map<string, Entry>, key: string, maxPerHour: int, now: int)
    requires key in bucket && now - bucket[key].updatedAt > Hour
    ensures Decide(bucket, key, maxPerHour, now).0 <==> maxPerHour > 0
    ensures Decide(bucket, key, maxPerHour, now).1 ==
      bucket[key := Entry(if maxPerHour > 0 then 1 else 0, now)]
  {
  }

  /**
   * Within the hour, a key is allowed exactly while its tokens are below the limit;
   * an allowed call uses one more token and restarts the window at `now`, and a
   * refused call leaves the dictionary as it was.
   */
  lemma InWindow(bucket: map<string, Entry>, key: string, maxPerHour: int, now: int)
    requires key in bucket && now - bucket[key].updatedAt <= Hour
    ensures Decide(bucket, key, maxPerHour, now).0 <==> bucket[key].tokens < maxPerHour
    ensures Decide(bucket, key, maxPerHour, now).1 ==
      if bucket[key].tokens < maxPerHour then bucket[key := Entry(bucket[key].tokens + 1, now)] else bucket
  {
  }

  /** Entries of other keys are neither added, removed nor changed. */
  lemma OtherKeysUntouched(bucket: map<string, Entry>, key: string, maxPerHour: int, now: int, other: string)
    requires other != key
    ensures other in Decide(bucket, key, maxPerHour, now).1 <==> other in bucket
    ensures other in bucket ==> Decide(bucket, key, maxPerHour, now).1[other] == bucket[other]
  {
  }

  /** Only `key` may be added, and nothing is removed. */
  lemma KeysGrowByKey(bucket: map<string, Entry>, key: string, maxPerHour: int, now: int)
    ensures Decide(bucket, key, maxPerHour, now).1.Keys <= bucket.Keys + {key}
    ensures bucket.Keys <= Decide(bucket, key, maxPerHour, now).1.Keys
  {
  }

  /** Every stored count is between zero and the limit. */
  predicate WithinLimit(bucket: map<string, Entry>, maxPerHour: int) {
    forall k :: k in bucket ==> 0 <= bucket[k].tokens <= maxPerHour
  }

  /** Calls that all use the same limit keep every stored count between zero and that limit. */
  lemma WithinLimitPreserved(bucket: map<string, Entry>, key: string, maxPerHour: int, now: int)
    requires maxPerHour >= 0 && WithinLimit(bucket, maxPerHour)
    ensures WithinLimit(Decide(bucket, key, maxPerHour, now).1, maxPerHour)
  {
  }

  /** `n` calls for one key at the same instant: how many were allowed, and the dictionary afterwards. */
  function Burst(bucket: map<string, Entry>, key: string, maxPerHour: int, now: int, n: nat): (nat, map<string, Entry>) {
    if n == 0 then (0, bucket)
    else
      var (allowed, b) := Burst(bucket, key, maxPerHour, now, n - 1);
      var (ok, b') := Decide(b, key, maxPerHour, now);
      (if ok then allowed + 1 else allowed, b')
  }

  /**
   * For a fresh or expired key, a burst of `n` calls is allowed `min(n, maxPerHour)`
   * times, and afterwards the key holds that many tokens stamped `now`.
   */
  lemma {:induction false} BurstAllowsUpToLimit(bucket: map<string, Entry>, key: string, maxPerHour: int, now: int, n: nat)
    requires maxPerHour >= 0
    requires key !in bucket || now - bucket[key].updatedAt > Hour
    ensures Burst(bucket, key, maxPerHour, now, n).0 == if n < maxPerHour then n else maxPerHour
    ensures n > 0 && maxPerHour > 0 ==>
      Burst(bucket, key, maxPerHour, now, n).1 == bucket[key := Entry(Burst(bucket, key, maxPerHour, now, n).0, now)]
  {
    if n > 1 {
      BurstAllowsUpToLimit(bucket, key, maxPerHour, now, n - 1);
      if maxPerHour > 0 {
        var b := Burst(bucket, key, maxPerHour, now, n - 1).1;
        InWindow(b, key, maxPerHour, now);
      }
    }
  }
}
