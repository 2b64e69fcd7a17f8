/**
 * The bot rate limiter (src/lib/server/bots/utils/rate-limiter.ts). Per user and group
 * it keeps, in a volatile key-value store with expiry, either the request timestamps
 * of the last `interval` seconds or a cooldown mark. A request is refused while the
 * cooldown holds; otherwise it is counted against the timestamps still inside the
 * interval, and reaching `threshold` of them starts a cooldown.
 *
 * Times are milliseconds; `threshold`, `interval` and `cooldown` are whole numbers.
 */
module RateLimit {
  import opened Common

  /** `RateLimitInfo`: an optional cooldown mark `cd` and optional timestamps `ts`. */
  datatype RateLimitInfo = RateLimitInfo(cd: Option<int>, ts: Option<seq<int>>)

  /** A stored value and the time from which it has expired; `None` never expires. */
  datatype Stored = Stored(info: RateLimitInfo, expiresAt: Option<int>)

  /** The answer of `isLimited`. */
  datatype Verdict = Verdict(triggered: bool, limited: bool)

  /** What `isLimited` writes back: nothing, or a value with a time to live. */
  datatype Write = NoWrite | Put(info: RateLimitInfo, ttl: int)

  /** `set(key, value, ttl)` at `now`: a time to live of 0 means no expiry. */
  function ExpiresAt(now: int, ttl: int): Option<int> {
    if ttl != 0 then Some(now + ttl) else None
  }

  /** An entry is visible until its expiry time is reached. */
  predicate Visible(s: Stored, now: int) {
    s.expiresAt.None? || now < s.expiresAt.value
  }

  /** The store key of a user in a group: "rl:" + prefix + ":" + group + ":" + user. */
  function LimiterKey(prefix: string, group: string, user: string): string {
    "rl:" + prefix + ":" + group + ":" + user
  }

  /** The timestamps less than `window` ms before `now`, in their order. */
  function Within(ts: seq<int>, now: int, window: int): (r: seq<int>)
    ensures |r| <= |ts|
    ensures forall k :: 0 <= k < |r| ==> now - r[k] < window && r[k] in ts
    ensures forall t :: t in ts && now - t < window ==> t in r
  {
    if ts == [] then []
    else Within(ts[..|ts| - 1], now, window) + (if now - ts[|ts| - 1] < window then [ts[|ts| - 1]] else [])
  }

  /** A cooldown mark is set (non-zero) and less than `cooldown` ms behind `now`. */
  predicate CooldownActive(info: RateLimitInfo, now: int, cooldownMs: int) {
    info.cd.Some? && info.cd.value != 0 && now - info.cd.value < cooldownMs
  }

  /** What one `isLimited` call answers and writes, given the visible record. */
  function Step(threshold: int, intervalMs: int, cooldownMs: int, rec: Option<RateLimitInfo>, now: int): (Verdict, Write) {
    if rec.Some? && CooldownActive(rec.value, now, cooldownMs) then
      (Verdict(false, true), NoWrite)
    else if rec.None? then
      (Verdict(false, false), Put(RateLimitInfo(None, Some([now])), intervalMs))
    else
      var ts := if rec.value.ts.Some? then rec.value.ts.value else [];
      var within := Within(ts, now, intervalMs);
      if |within| >= threshold then
        (Verdict(true, true), Put(RateLimitInfo(Some(now + cooldownMs), None), cooldownMs))
      else
        (Verdict(false, false), Put(RateLimitInfo(None, Some(within + [now])), intervalMs))
  }

  /** A request is refused exactly when it is limited, and only a trigger starts a cooldown. */
  lemma StepShape(threshold: int, intervalMs: int, cooldownMs: int, rec: Option<RateLimitInfo>, now: int)
    ensures var (v, w) := Step(threshold, intervalMs, cooldownMs, rec, now);
      && (v.triggered ==> v.limited)
      && (v.limited && !v.triggered <==> w.NoWrite?)
      && (v.triggered <==> w.Put? && w.info.cd.Some?)
      && (!v.limited ==> w.Put? && w.info.ts.Some? && now in w.info.ts.value && w.ttl == intervalMs)
  {
  }

  /** Sorted ascending, and nothing after `now`. */
  predicate Ordered(ts: seq<int>, now: int) {
    (forall i, j :: 0 <= i < j < |ts| ==> ts[i] <= ts[j]) && (forall i :: 0 <= i < |ts| ==> ts[i] <= now)
  }

  /** Dropping old timestamps keeps the order. */
  lemma {:induction false} WithinOrdered(ts: seq<int>, now: int, window: int)
    requires Ordered(ts, now)
    ensures Ordered(Within(ts, now, window), now)
  {
    if ts != [] {
      WithinOrdered(ts[..|ts| - 1], now, window);
    }
  }

  /**
   * With requests arriving in time order, the stored timestamps stay sorted, and an
   * accepted request leaves at most `threshold` of them (one, when the threshold is 0).
   */
  lemma StepKeepsWindow(threshold: int, intervalMs: int, cooldownMs: int, rec: Option<RateLimitInfo>, before: int, now: int)
    requires before <= now
    requires rec.Some? && rec.value.ts.Some? ==> Ordered(rec.value.ts.value, before)
    ensures var (v, w) := Step(threshold, intervalMs, cooldownMs, rec, now);
      !v.limited ==> Ordered(w.info.ts.value, now) && |w.info.ts.value| <= (if threshold < 1 then 1 else threshold)
  {
    if rec.Some? && !CooldownActive(rec.value, now, cooldownMs) {
      var ts := if rec.value.ts.Some? then rec.value.ts.value else [];
      assert Ordered(ts, now);
      var within := Within(ts, now, intervalMs);
      WithinOrdered(ts, now, intervalMs);
      assert Ordered(within + [now], now);
    }
  }

  /**
   * After a trigger at `t0`, with a positive cooldown and a non-zero mark, every request
   * before `t0 + cooldown` is refused without a write, and the first one at or after it
   * starts afresh.
   */
  lemma CooldownLasts(threshold: int, intervalMs: int, cooldownMs: int, t0: int, now: int)
    requires cooldownMs > 0 && t0 + cooldownMs != 0 && t0 <= now
    ensures var s := Stored(RateLimitInfo(Some(t0 + cooldownMs), None), ExpiresAt(t0, cooldownMs));
      var rec := if Visible(s, now) then Some(s.info) else None;
      && (now < t0 + cooldownMs ==> Step(threshold, intervalMs, cooldownMs, rec, now) == (Verdict(false, true), NoWrite))
      && (now >= t0 + cooldownMs ==>
            Step(threshold, intervalMs, cooldownMs, rec, now)
              == (Verdict(false, false), Put(RateLimitInfo(None, Some([now])), intervalMs)))
  {
  }

  /** The volatile key-value store, as far as the limiter uses it. */
  class VolatileStore {
    var entries: map<string, Stored>

    constructor ()
      ensures entries == map[]
    {
      entries := map[];
    }

    /** `get(key)` at `now`: the value, unless it is missing or expired. */
    function Get(key: string, now: int): (r: Option<RateLimitInfo>)
      reads this
      ensures r.Some? <==> key in entries && Visible(entries[key], now)
    {
      if key in entries && Visible(entries[key], now) then Some(entries[key].info) else None
    }

    /** `set(key, value, ttl)` at `now`. */
    method Set(key: string, info: RateLimitInfo, ttl: int, now: int)
      modifies this
      ensures entries == old(entries)[key := Stored(info, ExpiresAt(now, ttl))]
    {
      entries := entries[key := Stored(info, ExpiresAt(now, ttl))];
    }
  }

  /** The store after applying what one call writes. */
  function Apply(entries: map<string, Stored>, key: string, w: Write, now: int): map<string, Stored> {
    if w.NoWrite? then entries else entries[key := Stored(w.info, ExpiresAt(now, w.ttl))]
  }

  class RateLimiter {
    const prefix: string
    const threshold: int
    const interval: int
    const cooldown: int

    constructor (prefix: string, threshold: int, interval: int, cooldown: int)
      ensures this.prefix == prefix && this.threshold == threshold
      ensures this.interval == interval && this.cooldown == cooldown
    {
      this.prefix := prefix;
      this.threshold := threshold;
      this.interval := interval;
      this.cooldown := cooldown;
    }

    /** `isLimited(user, group)` at time `now`. */
    method IsLimited(store: VolatileStore, user: string, group: string, now: int) returns (triggered: bool, limited: bool)
      modifies store
      ensures var key := LimiterKey(prefix, group, user);
        var (v, w) := Step(threshold, interval * 1000, cooldown * 1000, old(store.Get(key, now)), now);
        && Verdict(triggered, limited) == v
        && store.entries == Apply(old(store.entries), key, w, now)
    {
      var key := LimiterKey(prefix, group, user);
      var rateLimiter := store.Get(key, now);
      if rateLimiter.Some? && rateLimiter.value.cd.Some? && rateLimiter.value.cd.value != 0
        && now - rateLimiter.value.cd.value < cooldown * 1000
      {
        return false, true;
      }
      if rateLimiter.None? {
        store.Set(key, RateLimitInfo(None, Some([now])), interval * 1000, now);
        return false, false;
      }
      var ts := if rateLimiter.value.ts.Some? then rateLimiter.value.ts.value else [];
      var withInInterval := Within(ts, now, interval * 1000);
      if |withInInterval| >= threshold {
        store.Set(key, RateLimitInfo(Some(now + cooldown * 1000), None), cooldown * 1000, now);
        return true, true;
      }
      withInInterval := withInInterval + [now];
      store.Set(key, RateLimitInfo(None, Some(withInInterval)), interval * 1000, now);
      return false, false;
    }
  }
}
