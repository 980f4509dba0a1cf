/** The token-bucket limiter of src/gateway/rate-limiter.ts over a monotone millisecond clock,
    with exact real arithmetic. */
module RateLimiter {

  const IDLE_MS := 300_000

  datatype Category = Read | Write | Deploy

  /** Checks per minute, by category. */
  datatype Limits = Limits(read: nat, write: nat, deploy: nat)

  function LimitOf(l: Limits, c: Category): nat {
    match c
    case Read => l.read
    case Write => l.write
    case Deploy => l.deploy
  }

  /** max is the limit the bucket was created with; it refills max tokens per minute. */
  datatype Bucket = Bucket(tokens: real, last: int, max: nat)

  function Min(a: real, b: real): real {
    if a <= b then a else b
  }

  /** Tokens gained in some milliseconds. */
  function Gain(max: nat, ms: int): real {
    (ms as real / 1000.0) * (max as real / 60.0)
  }

  function Full(max: nat, now: int): Bucket {
    Bucket(max as real, now, max)
  }

  function Refill(b: Bucket, now: int): Bucket {
    Bucket(Min(b.max as real, b.tokens + Gain(b.max, now - b.last)), now, b.max)
  }

  function Take(b: Bucket): Bucket {
    if b.tokens < 1.0 then b else b.(tokens := b.tokens - 1.0)
  }

  type Buckets = map<string, Bucket>

  function BucketFor(s: Buckets, key: string, limit: nat, now: int): Bucket {
    Refill(if key in s then s[key] else Full(limit, now), now)
  }

  predicate Accepts(s: Buckets, key: string, limit: nat, now: int) {
    BucketFor(s, key, limit, now).tokens >= 1.0
  }

  function Check(s: Buckets, key: string, limit: nat, now: int): Buckets {
    s[key := Take(BucketFor(s, key, limit, now))]
  }

  function Cleanup(s: Buckets, now: int): Buckets {
    map k | k in s && now - s[k].last <= IDLE_MS :: s[k]
  }

  // ----- the limiter object -----

  /** The reply to a check; a denial carries the wait in milliseconds, or none when the bucket
      never refills. */
  datatype Wait = Forever | Millis(ms: int)
  datatype Verdict = Accepted | Denied(retry: Wait)

  /** The least whole number of milliseconds in which one token is gained. */
  function RetryAfter(max: nat): Wait {
    if max == 0 then Forever else Millis((60_000 + max - 1) / max)
  }

  class Limiter {
    const limits: Limits
    var buckets: Buckets

    constructor (l: Limits)
      ensures limits == l && buckets == map[]
    {
      limits := l;
      buckets := map[];
    }

    method DoCheck(key: string, category: Category, now: int) returns (v: Verdict)
      modifies this
      ensures buckets == Check(old(buckets), key, LimitOf(limits, category), now)
      ensures v.Accepted? <==> Accepts(old(buckets), key, LimitOf(limits, category), now)
      ensures v.Denied? ==> v.retry == RetryAfter(buckets[key].max)
      ensures key !in old(buckets) ==>
                && (category == Read ==> (v.Accepted? <==> limits.read >= 1))
                && (category == Write ==> (v.Accepted? <==> limits.write >= 1))
                && (category == Deploy ==> (v.Accepted? <==> limits.deploy >= 1))
      ensures key in old(buckets) ==>
                var b := old(buckets)[key];
                (v.Accepted? <==>
                   Min(b.max as real, b.tokens + (now - b.last) as real * b.max as real / 60_000.0) >= 1.0)
    {
      var maxPerMinute :=
        if category == Read then limits.read else if category == Deploy then limits.deploy else limits.write;
      CheckVerdict(buckets, key, maxPerMinute, now);
      v := CheckLimit(key, maxPerMinute, now);
    }

    method CheckLimit(key: string, maxPerMinute: nat, now: int) returns (v: Verdict)
      modifies this
      ensures buckets == Check(old(buckets), key, maxPerMinute, now)
      ensures v.Accepted? <==> Accepts(old(buckets), key, maxPerMinute, now)
      ensures v.Denied? ==> v.retry == RetryAfter(buckets[key].max)
    {
      var bucket := GetOrCreate(key, maxPerMinute, now);
      bucket := RefillBucket(bucket, now);
      buckets := buckets[key := bucket];
      if bucket.tokens < 1.0 {
        return Denied(RetryAfter(bucket.max));
      }
      buckets := buckets[key := bucket.(tokens := bucket.tokens - 1.0)];
      return Accepted;
    }

    method GetOrCreate(key: string, maxPerMinute: nat, now: int) returns (bucket: Bucket)
      modifies this
      ensures bucket == if key in old(buckets) then old(buckets)[key] else Full(maxPerMinute, now)
      ensures buckets == old(buckets)[key := bucket]
    {
      if key in buckets {
        bucket := buckets[key];
      } else {
        bucket := Bucket(maxPerMinute as real, now, maxPerMinute);
        buckets := buckets[key := bucket];
      }
    }

    method RefillBucket(b: Bucket, now: int) returns (bucket: Bucket)
      ensures bucket == Refill(b, now)
      ensures bucket.last == now && bucket.max == b.max
      ensures bucket.tokens == Min(b.max as real, b.tokens + (now - b.last) as real * b.max as real / 60_000.0)
    {
      GainIs(b.max, now - b.last);
      var elapsed := (now - b.last) as real / 1000.0;
      var tokens := Min(b.max as real, b.tokens + elapsed * (b.max as real / 60.0));
      bucket := b.(tokens := tokens, last := now);
    }

    /** The loop deletes idle buckets while it iterates. */
    method DoCleanup(now: int)
      modifies this
      ensures buckets == Cleanup(old(buckets), now)
      ensures forall k :: k in buckets <==> k in old(buckets) && now - old(buckets)[k].last <= 300_000
      ensures forall k :: k in buckets ==> buckets[k] == old(buckets)[k]
    {
      var todo := buckets.Keys;
      while todo != {}
        invariant todo <= buckets.Keys <= old(buckets).Keys
        invariant forall k :: k in buckets ==> buckets[k] == old(buckets)[k]
        invariant forall k :: k in todo ==> k in buckets
        invariant forall k :: k in old(buckets) && k !in todo ==>
                    (k in buckets <==> now - old(buckets)[k].last <= IDLE_MS)
        decreases todo
      {
        var key :| key in todo;
        todo := todo - {key};
        if now - buckets[key].last > IDLE_MS {
          buckets := buckets - {key};
        }
      }
      assert buckets == Cleanup(old(buckets), now);
    }
  }

  // ----- runs -----

  datatype Event = CheckOf(key: string, limit: nat, at: int) | CleanupAt(at: int)

  function Apply(s: Buckets, e: Event): Buckets {
    match e
    case CheckOf(key, limit, at) => Check(s, key, limit, at)
    case CleanupAt(at) => Cleanup(s, at)
  }

  function Run(s: Buckets, es: seq<Event>): Buckets
    decreases |es|
  {
    if |es| == 0 then s else Run(Apply(s, es[0]), es[1..])
  }

  /** The verdicts on the checks of one key, in order. */
  function Verdicts(s: Buckets, es: seq<Event>, key: string): seq<bool>
    decreases |es|
  {
    if |es| == 0 then []
    else (if es[0].CheckOf? && es[0].key == key then [Accepts(s, key, es[0].limit, es[0].at)] else [])
         + Verdicts(Apply(s, es[0]), es[1..], key)
  }

  function CountTrue(v: seq<bool>): nat {
    if |v| == 0 then 0 else (if v[0] then 1 else 0) + CountTrue(v[1..])
  }

  /** Times do not decrease, from t on. */
  predicate Monotone(es: seq<Event>, t: int) {
    |es| == 0 || (t <= es[0].at && Monotone(es[1..], es[0].at))
  }

  /** Every check of the key in the run uses one limit. */
  predicate OneLimit(es: seq<Event>, key: string, limit: nat) {
    forall i :: 0 <= i < |es| && es[i].CheckOf? && es[i].key == key ==> es[i].limit == limit
  }

  // ----- the level of a bucket -----

  predicate BucketOk(b: Bucket, t: int) {
    0.0 <= b.tokens <= b.max as real && b.last <= t
  }

  /** Tokens stay between zero and the maximum, and no bucket is ahead of the clock. */
  ghost predicate Inv(s: Buckets, t: int) {
    forall k :: k in s ==> BucketOk(s[k], t)
  }

  lemma GainNonNegative(max: nat, ms: int)
    requires ms >= 0
    ensures Gain(max, ms) >= 0.0
  {
  }

  lemma GainAdds(max: nat, a: int, b: int)
    ensures Gain(max, a) + Gain(max, b) == Gain(max, a + b)
  {
  }

  lemma RefillOk(b: Bucket, t: int, now: int)
    requires BucketOk(b, t) && t <= now
    ensures BucketOk(Refill(b, now), now) && BucketOk(Take(Refill(b, now)), now)
  {
    GainNonNegative(b.max, now - b.last);
  }

  lemma ApplyOk(s: Buckets, e: Event, t: int)
    requires Inv(s, t) && t <= e.at
    ensures Inv(Apply(s, e), e.at)
  {
    if e.CheckOf? {
      RefillOk(if e.key in s then s[e.key] else Full(e.limit, e.at), e.at, e.at);
    }
  }

  lemma {:induction false} RunTokensBounded(s: Buckets, es: seq<Event>, t: int)
    requires Inv(s, t) && Monotone(es, t)
    ensures Inv(Run(s, es), if |es| == 0 then t else es[|es| - 1].at)
    decreases |es|
  {
    if |es| > 0 {
      ApplyOk(s, es[0], t);
      RunTokensBounded(Apply(s, es[0]), es[1..], es[0].at);
    }
  }

  /** What the key could spend at time t: a missing bucket counts as full. */
  function Level(s: Buckets, key: string, limit: nat, t: int): real {
    if key in s then Refill(s[key], t).tokens else limit as real
  }

  /** The size of the key's bucket: a new one gets the limit of the check that creates it. */
  function Size(s: Buckets, key: string, limit: nat): nat {
    if key in s then s[key].max else limit
  }

  /** The key has no bucket or one created with this limit. */
  predicate Fits(s: Buckets, key: string, limit: nat) {
    key in s ==> s[key].max == limit
  }

  /** max tokens per minute, by the millisecond. */
  lemma GainIs(max: nat, ms: int)
    ensures Gain(max, ms) == ms as real * max as real / 60_000.0
  {
  }

  lemma RefillIs(b: Bucket, now: int)
    ensures Refill(b, now).tokens
         == Min(b.max as real, b.tokens + (now - b.last) as real * b.max as real / 60_000.0)
  {
    GainIs(b.max, now - b.last);
  }

  /** When a check is accepted, without the refill function. */
  lemma CheckVerdict(s: Buckets, key: string, limit: nat, now: int)
    ensures key !in s ==> (Accepts(s, key, limit, now) <==> limit >= 1)
    ensures key in s ==>
              var b := s[key];
              (Accepts(s, key, limit, now) <==>
                 Min(b.max as real, b.tokens + (now - b.last) as real * b.max as real / 60_000.0) >= 1.0)
  {
    if key in s {
      RefillIs(s[key], now);
    } else {
      assert Gain(limit, 0) == 0.0;
    }
  }

  /** Waiting from t to u adds max tokens per minute to the level, up to max. */
  lemma LevelAfterWaiting(s: Buckets, key: string, limit: nat, t: int, u: int)
    requires Inv(s, t) && t <= u && key in s
    ensures Level(s, key, limit, u)
         == Min(s[key].max as real, Level(s, key, limit, t) + (u - t) as real * s[key].max as real / 60_000.0)
  {
    GainAdds(s[key].max, t - s[key].last, u - t);
    GainNonNegative(s[key].max, t - s[key].last);
    GainNonNegative(s[key].max, u - t);
    GainIs(s[key].max, u - t);
  }

  lemma LevelGrows(s: Buckets, key: string, limit: nat, t: int, u: int)
    requires Inv(s, t) && t <= u
    ensures var size := Size(s, key, limit);
            && 0.0 <= Level(s, key, limit, t) <= size as real
            && Level(s, key, limit, t) <= Level(s, key, limit, u) <= Level(s, key, limit, t) + Gain(size, u - t)
            && Level(s, key, limit, u) <= Level(s, key, limit, t) + (u - t) as real * size as real / 60_000.0
  {
    var size := Size(s, key, limit);
    GainIs(size, u - t);
    GainNonNegative(size, u - t);
    if key in s {
      GainAdds(size, t - s[key].last, u - t);
      GainNonNegative(size, t - s[key].last);
    }
  }

  /** 300 idle seconds always fill a bucket. */
  lemma IdleIsFull(b: Bucket, t: int)
    requires BucketOk(b, t) && t - b.last > IDLE_MS
    ensures Refill(b, t).tokens == b.max as real
  {
    GainIdle(b.max, t - b.last);
  }

  lemma GainIdle(max: nat, ms: int)
    requires ms > IDLE_MS
    ensures Gain(max, ms) >= max as real
  {
    GainAdds(max, IDLE_MS, ms - IDLE_MS);
    GainNonNegative(max, ms - IDLE_MS);
    assert Gain(max, IDLE_MS) == 300.0 * (max as real / 60.0);
  }

  lemma CleanupKeepsLevel(s: Buckets, key: string, limit: nat, now: int)
    requires Inv(s, now) && Fits(s, key, limit)
    ensures Level(Cleanup(s, now), key, limit, now) == Level(s, key, limit, now)
  {
    if key in s && now - s[key].last > IDLE_MS { IdleIsFull(s[key], now); }
  }

  /** Whatever category a check has and whatever created the bucket, it spends one token of
      the level exactly when it is accepted, and fixes the size of a new bucket only. */
  lemma CheckSpends(s: Buckets, key: string, limit: nat, now: int)
    requires Inv(s, now)
    ensures Accepts(s, key, limit, now) <==> Level(s, key, limit, now) >= 1.0
    ensures Level(Check(s, key, limit, now), key, limit, now)
         == Level(s, key, limit, now) - (if Accepts(s, key, limit, now) then 1.0 else 0.0)
    ensures Size(Check(s, key, limit, now), key, limit) == Size(s, key, limit)
  {
    assert Gain(Size(s, key, limit), 0) == 0.0;
    LevelGrows(s, key, limit, now, now);
  }

  lemma OtherKeepsLevel(s: Buckets, e: Event, key: string)
    requires e.CheckOf? && e.key != key
    ensures key in Apply(s, e) <==> key in s
    ensures key in s ==> Apply(s, e)[key] == s[key]
  {
  }

  // ----- the window bound -----

  /** What the key could spend at time t if its bucket refilled at the rate of the largest
      limit, up to that limit. */
  function Cap(s: Buckets, key: string, top: nat, t: int): real {
    if key in s then Min(top as real, s[key].tokens + Gain(top, t - s[key].last)) else top as real
  }

  /** No check of the key has a larger limit than top, and neither had the one that created its
      bucket. */
  predicate Under(s: Buckets, key: string, top: nat) {
    key in s ==> s[key].max <= top
  }

  predicate LimitsUnder(es: seq<Event>, key: string, top: nat) {
    forall i :: 0 <= i < |es| && es[i].CheckOf? && es[i].key == key ==> es[i].limit <= top
  }

  lemma GainMonotone(a: nat, b: nat, ms: int)
    requires a <= b && ms >= 0
    ensures Gain(a, ms) <= Gain(b, ms)
  {
    assert b as real == a as real + (b - a) as real;
    assert Gain(b, ms) == Gain(a, ms) + Gain(b - a, ms);
    GainNonNegative(b - a, ms);
  }

  lemma CapGrows(s: Buckets, key: string, top: nat, t: int, u: int)
    requires Inv(s, t) && t <= u
    ensures 0.0 <= Cap(s, key, top, u) <= top as real
    ensures Cap(s, key, top, u) <= Cap(s, key, top, t) + Gain(top, u - t)
  {
    GainNonNegative(top, u - t);
    if key in s {
      GainAdds(top, t - s[key].last, u - t);
      GainNonNegative(top, t - s[key].last);
    }
  }

  /** An accepted check of any category takes at least one from the cap. */
  lemma CapCheck(s: Buckets, key: string, limit: nat, top: nat, now: int)
    requires Inv(s, now) && Under(s, key, top) && limit <= top
    ensures Under(Check(s, key, limit, now), key, top)
    ensures Cap(Check(s, key, limit, now), key, top, now)
         <= Cap(s, key, top, now) - (if Accepts(s, key, limit, now) then 1.0 else 0.0)
  {
    assert Gain(top, 0) == 0.0 && Gain(limit, 0) == 0.0;
    if key in s { GainMonotone(s[key].max, top, now - s[key].last); }
  }

  /** A cleanup leaves the cap as it is, although the next bucket may be larger. */
  lemma CapCleanup(s: Buckets, key: string, top: nat, now: int)
    requires Inv(s, now) && Under(s, key, top)
    ensures Under(Cleanup(s, now), key, top) && Cap(Cleanup(s, now), key, top, now) == Cap(s, key, top, now)
  {
    if key in s && now - s[key].last > IDLE_MS { GainIdle(top, now - s[key].last); }
  }

  lemma ApplyCap(s: Buckets, e: Event, key: string, top: nat, t: int)
    requires Inv(s, t) && t <= e.at && Under(s, key, top) && (e.CheckOf? && e.key == key ==> e.limit <= top)
    ensures Under(Apply(s, e), key, top)
    ensures Cap(Apply(s, e), key, top, e.at)
         <= Cap(s, key, top, e.at) - (if IsAccepted(s, e, key) then 1.0 else 0.0)
  {
    if e.CleanupAt? {
      CapCleanup(s, key, top, e.at);
    } else if e.key == key {
      CapCheck(s, key, e.limit, top, e.at);
    } else {
      OtherKeepsLevel(s, e, key);
    }
  }

  /** The event is a check of the key and it is accepted. */
  predicate IsAccepted(s: Buckets, e: Event, key: string) {
    e.CheckOf? && e.key == key && Accepts(s, key, e.limit, e.at)
  }

  predicate EndsBy(es: seq<Event>, t: int, u: int) {
    t <= u && (|es| > 0 ==> es[|es| - 1].at <= u)
  }

  /** Accepted checks plus what is left of the cap never exceed the cap there was plus what the
      largest limit gains, in every run with any mix of categories and cleanups. */
  lemma {:induction false} Conservation(s: Buckets, es: seq<Event>, key: string, top: nat, t: int, u: int)
    requires Inv(s, t) && Monotone(es, t) && EndsBy(es, t, u) && Under(s, key, top) && LimitsUnder(es, key, top)
    ensures CountTrue(Verdicts(s, es, key)) as real + Cap(Run(s, es), key, top, u)
         <= Cap(s, key, top, t) + Gain(top, u - t)
    ensures CountTrue(Verdicts(s, es, key)) as real + Cap(Run(s, es), key, top, u)
         <= Cap(s, key, top, t) + (u - t) as real * top as real / 60_000.0
    decreases |es|
  {
    GainIs(top, u - t);
    CapGrows(s, key, top, t, u);
    if |es| > 0 {
      var e := es[0];
      LastAfterFirst(es, t);
      ApplyOk(s, e, t);
      ApplyCap(s, e, key, top, t);
      CapGrows(s, key, top, t, e.at);
      GainAdds(top, e.at - t, u - e.at);
      Conservation(Apply(s, e), es[1..], key, top, e.at, u);
      CountStep(s, es, key);
    }
  }

  lemma {:induction false} LastAfterFirst(es: seq<Event>, t: int)
    requires |es| > 0 && Monotone(es, t)
    ensures t <= es[0].at <= es[|es| - 1].at
  {
    if |es| > 1 { LastAfterFirst(es[1..], es[0].at); }
  }

  lemma CountStep(s: Buckets, es: seq<Event>, key: string)
    requires |es| > 0
    ensures CountTrue(Verdicts(s, es, key))
         == (if IsAccepted(s, es[0], key) then 1 else 0) + CountTrue(Verdicts(Apply(s, es[0]), es[1..], key))
  {
    var e, rest := es[0], Verdicts(Apply(s, es[0]), es[1..], key);
    if e.CheckOf? && e.key == key {
      assert ([Accepts(s, key, e.limit, e.at)] + rest)[1..] == rest;
    } else {
      assert [] + rest == rest;
    }
  }

  /** In any stretch of any run from time t to time u, cleanups and mixed categories included, a
      key has at most top + top / 60 per second accepted checks, where top is the largest limit
      it is checked with. */
  lemma WindowBound(s: Buckets, es: seq<Event>, key: string, top: nat, t: int, u: int)
    requires Inv(s, t) && Monotone(es, t) && EndsBy(es, t, u) && Under(s, key, top) && LimitsUnder(es, key, top)
    ensures CountTrue(Verdicts(s, es, key)) as real <= top as real + (u - t) as real * top as real / 60_000.0
  {
    GainIs(top, u - t);
    Conservation(s, es, key, top, t, u);
    CapGrows(s, key, top, t, t);
    assert Gain(top, 0) == 0.0;
    RunTokensBounded(s, es, t);
    CapGrows(Run(s, es), key, top, if |es| == 0 then t else es[|es| - 1].at, u);
  }

  predicate NoCleanup(es: seq<Event>) {
    forall i :: 0 <= i < |es| ==> es[i].CheckOf?
  }

  /** Between cleanups the size of an existing bucket never changes and is what counts, whatever
      limits the checks pass: accepted checks plus the level left stay within the level before
      plus what that size gains. */
  lemma {:induction false} BucketConservation(s: Buckets, es: seq<Event>, key: string, t: int, u: int)
    requires Inv(s, t) && Monotone(es, t) && EndsBy(es, t, u) && key in s && NoCleanup(es)
    ensures key in Run(s, es) && Run(s, es)[key].max == s[key].max
    ensures CountTrue(Verdicts(s, es, key)) as real + Level(Run(s, es), key, 0, u)
         <= Level(s, key, 0, t) + Gain(s[key].max, u - t)
    ensures CountTrue(Verdicts(s, es, key)) as real + Level(Run(s, es), key, 0, u)
         <= Level(s, key, 0, t) + (u - t) as real * s[key].max as real / 60_000.0
    decreases |es|
  {
    GainIs(s[key].max, u - t);
    LevelGrows(s, key, 0, t, u);
    if |es| > 0 {
      var e := es[0];
      LastAfterFirst(es, t);
      ApplyOk(s, e, t);
      if e.key == key { CheckSpends(s, key, e.limit, e.at); } else { OtherKeepsLevel(s, e, key); }
      LevelGrows(s, key, 0, t, e.at);
      GainAdds(s[key].max, e.at - t, u - e.at);
      BucketConservation(Apply(s, e), es[1..], key, e.at, u);
      CountStep(s, es, key);
    }
  }

  /** So in any window without a cleanup the bucket's own size bounds the accepted checks. */
  lemma BucketWindowBound(s: Buckets, es: seq<Event>, key: string, t: int, u: int)
    requires Inv(s, t) && Monotone(es, t) && EndsBy(es, t, u) && key in s && NoCleanup(es)
    ensures CountTrue(Verdicts(s, es, key)) as real
         <= s[key].max as real + (u - t) as real * s[key].max as real / 60_000.0
  {
    GainIs(s[key].max, u - t);
    BucketConservation(s, es, key, t, u);
    LevelGrows(s, key, 0, t, t);
    RunTokensBounded(s, es, t);
    LevelGrows(Run(s, es), key, 0, if |es| == 0 then t else es[|es| - 1].at, u);
  }

  // ----- waiting out a denial -----

  /** After a denial of any category, the next check of the key after the returned wait, of any
      category, is accepted if the key was not checked in between; unless its bucket has size zero,
      which never accepts, however long the wait. Cleanups within the idle time do not matter. */
  lemma RetrySucceeds(s: Buckets, key: string, limit: nat, next: nat, t: int, wait: int)
    requires Inv(s, t) && !Accepts(s, key, limit, t) && wait >= 0
    requires var retry := RetryAfter(Check(s, key, limit, t)[key].max); retry.Millis? ==> wait >= retry.ms
    ensures Accepts(Check(s, key, limit, t), key, next, t + wait) <==> Size(s, key, limit) >= 1
    ensures forall c :: t <= c <= t + IDLE_MS ==>
              (Accepts(Cleanup(Check(s, key, limit, t), c), key, next, t + wait) <==> Size(s, key, limit) >= 1)
  {
    var b := Check(s, key, limit, t)[key];
    var size := Size(s, key, limit);
    CheckSpends(s, key, limit, t);
    RefillOk(if key in s then s[key] else Full(limit, t), t, t);
    assert b.max == size && b.last == t;
    if size >= 1 {
      var r := RetryAfter(size).ms;
      GainRetry(size);
      GainAdds(size, r, wait - r);
      GainNonNegative(size, wait - r);
    }
  }

  /** The returned wait is the least whole number of milliseconds that refills one token. */
  lemma RetryIsLeast(max: nat)
    ensures max == 0 <==> RetryAfter(max) == Forever
    ensures max > 0 ==> var ms := RetryAfter(max).ms; max * (ms - 1) < 60_000 <= max * ms
  {
    if max > 0 {
      var n, r := 60_000 + max - 1, RetryAfter(max).ms;
      assert n == max * r + n % max && max * (r - 1) == max * r - max;
    }
  }

  /** Any shorter wait leaves an empty bucket without a token. */
  lemma ShorterWaitDenied(b: Bucket, wait: int)
    requires b.tokens == 0.0 && b.max > 0 && 0 <= wait < RetryAfter(b.max).ms
    ensures Refill(b, b.last + wait).tokens < 1.0
  {
    RetryIsLeast(b.max);
    GainIs(b.max, wait);
    ProductMonotone(b.max, wait, RetryAfter(b.max).ms - 1);
    assert wait as real * b.max as real == (b.max * wait) as real;
  }

  lemma ProductMonotone(max: nat, a: int, b: int)
    requires a <= b
    ensures max * a <= max * b
  {
  }

  lemma GainRetry(max: nat)
    requires max >= 1
    ensures Gain(max, RetryAfter(max).ms) >= 1.0
  {
    var n, r := 60_000 + max - 1, RetryAfter(max).ms;
    assert n == max * r + n % max && r * max >= 60_000;
    assert (r * max) as real == r as real * max as real;
    assert Gain(max, r) == (r as real * max as real) / 60_000.0;
  }

  // ----- cleanup -----

  function WithoutCleanup(es: seq<Event>): seq<Event>
  {
    if |es| == 0 then []
    else (if es[0].CleanupAt? then [] else [es[0]]) + WithoutCleanup(es[1..])
  }

  /** Two stores that decide alike on a key: the same bucket, or none against a full one. */
  ghost predicate Alike(s: Buckets, s': Buckets, key: string, limit: nat, t: int) {
    && Fits(s, key, limit) && Fits(s', key, limit)
    && (if key in s then key in s' && s'[key] == s[key] else key in s' ==> Refill(s'[key], t).tokens == limit as real)
  }

  lemma AlikeLater(s: Buckets, s': Buckets, key: string, limit: nat, t: int, u: int)
    requires Inv(s', t) && Alike(s, s', key, limit, t) && t <= u
    ensures Alike(s, s', key, limit, u)
  {
    LevelGrows(s', key, limit, t, u);
    LevelGrows(s', key, limit, u, u);
  }

  /** On stores that decide alike a check gets the same verdict and leaves the same bucket. */
  lemma AlikeCheck(s: Buckets, s': Buckets, key: string, limit: nat, now: int)
    requires Inv(s, now) && Inv(s', now) && Alike(s, s', key, limit, now)
    ensures Accepts(s, key, limit, now) == Accepts(s', key, limit, now)
    ensures Alike(Check(s, key, limit, now), Check(s', key, limit, now), key, limit, now)
  {
    assert Gain(limit, 0) == 0.0;
  }

  lemma AlikeCleanup(s: Buckets, s': Buckets, key: string, limit: nat, now: int)
    requires Inv(s, now) && Inv(s', now) && Alike(s, s', key, limit, now)
    ensures Alike(Cleanup(s, now), s', key, limit, now)
  {
    if key in s && now - s[key].last > IDLE_MS { IdleIsFull(s[key], now); }
  }

  lemma {:induction false} CleanupInvisibleFrom(s: Buckets, s': Buckets, es: seq<Event>, key: string, limit: nat,
                                                t: int)
    requires Inv(s, t) && Inv(s', t) && Alike(s, s', key, limit, t) && Monotone(es, t) && OneLimit(es, key, limit)
    ensures Verdicts(s, es, key) == Verdicts(s', WithoutCleanup(es), key)
    decreases |es|
  {
    if |es| > 0 {
      var e, rest := es[0], WithoutCleanup(es[1..]);
      AlikeLater(s, s', key, limit, t, e.at);
      ApplyOk(s, e, t);
      if e.CleanupAt? {
        AlikeCleanup(s, s', key, limit, e.at);
        CleanupInvisibleFrom(Apply(s, e), s', es[1..], key, limit, e.at);
        assert [] + rest == rest;
      } else {
        ApplyOk(s', e, t);
        if e.key == key {
          AlikeCheck(s, s', key, limit, e.at);
        } else {
          OtherKeepsLevel(s, e, key);
          OtherKeepsLevel(s', e, key);
        }
        CleanupInvisibleFrom(Apply(s, e), Apply(s', e), es[1..], key, limit, e.at);
        assert ([e] + rest)[0] == e && ([e] + rest)[1..] == rest;
      }
    }
  }

  /** Cleanup is invisible: for a key used with one limit, removing every cleanup from a run
      changes no verdict. */
  lemma CleanupInvisible(s: Buckets, es: seq<Event>, key: string, limit: nat, t: int)
    requires Inv(s, t) && Fits(s, key, limit) && Monotone(es, t) && OneLimit(es, key, limit)
    ensures Verdicts(s, es, key) == Verdicts(s, WithoutCleanup(es), key)
  {
    CleanupInvisibleFrom(s, s, es, key, limit, t);
  }

  // ----- with two limits cleanup shows -----

  function Burst(key: string, limit: nat, at: int, n: nat): seq<Event> {
    if n == 0 then [] else [CheckOf(key, limit, at)] + Burst(key, limit, at, n - 1)
  }

  /** The first m of n are true. */
  ghost function Prefix(n: nat, m: nat): (v: seq<bool>)
    ensures |v| == n && forall i :: 0 <= i < n ==> v[i] == (i < m)
  {
    seq(n, i requires 0 <= i < n => i < m)
  }

  /** At one instant a bucket of m whole tokens accepts exactly the first m checks. */
  lemma {:induction false} BurstVerdicts(s: Buckets, key: string, limit: nat, at: int, n: nat, m: nat)
    requires Refill(if key in s then s[key] else Full(limit, at), at).tokens == m as real
    requires key in s ==> m <= s[key].max
    ensures Verdicts(s, Burst(key, limit, at, n), key) == Prefix(n, m)
    decreases n
  {
    if n > 0 {
      var s', m' := Check(s, key, limit, at), if m > 0 then m - 1 else 0;
      BurstStep(s, key, limit, at, m);
      BurstVerdicts(s', key, limit, at, n - 1, m');
      ConsVerdicts(s, CheckOf(key, limit, at), Burst(key, limit, at, n - 1), key);
      PrefixStep(n, m);
    }
  }

  lemma BurstStep(s: Buckets, key: string, limit: nat, at: int, m: nat)
    requires Refill(if key in s then s[key] else Full(limit, at), at).tokens == m as real
    requires key in s ==> m <= s[key].max
    ensures Accepts(s, key, limit, at) <==> m > 0
    ensures var s' := Check(s, key, limit, at);
            key in s' && Refill(s'[key], at).tokens == (if m > 0 then m - 1 else 0) as real && m <= s'[key].max
  {
    assert Gain(Check(s, key, limit, at)[key].max, 0) == 0.0;
  }

  lemma PrefixStep(n: nat, m: nat)
    requires n > 0
    ensures Prefix(n, m) == [m > 0] + Prefix(n - 1, if m > 0 then m - 1 else 0)
  {
  }

  lemma {:induction false} BurstHasNoCleanup(key: string, limit: nat, at: int, n: nat)
    ensures WithoutCleanup(Burst(key, limit, at, n)) == Burst(key, limit, at, n)
    decreases n
  {
    if n > 0 {
      BurstHasNoCleanup(key, limit, at, n - 1);
      var rest := Burst(key, limit, at, n - 1);
      assert ([CheckOf(key, limit, at)] + rest)[1..] == rest;
    }
  }

  lemma ConsVerdicts(s: Buckets, e: Event, rest: seq<Event>, key: string)
    ensures Verdicts(s, [e] + rest, key)
         == (if e.CheckOf? && e.key == key then [Accepts(s, key, e.limit, e.at)] else [])
            + Verdicts(Apply(s, e), rest, key)
  {
    assert ([e] + rest)[1..] == rest;
  }

  /** One check with limit a, then n checks with limit b after more than the idle time. */
  function Later(key: string, b: nat, n: nat): seq<Event> {
    Burst(key, b, IDLE_MS + 1, n)
  }

  function FirstVerdict(key: string, a: nat): seq<bool> {
    [Accepts(map[], key, a, 0)]
  }

  lemma VerdictsWithCleanup(key: string, a: nat, b: nat, n: nat)
    ensures Verdicts(map[], [CheckOf(key, a, 0)] + ([CleanupAt(IDLE_MS + 1)] + Later(key, b, n)), key)
         == FirstVerdict(key, a) + Prefix(n, b)
  {
    var s, at: int := Check(map[], key, a, 0), IDLE_MS + 1;
    assert Gain(b, 0) == 0.0;
    assert Cleanup(s, at) == map[];
    BurstVerdicts(map[], key, b, at, n, b);
    ConsVerdicts(map[], CheckOf(key, a, 0), [CleanupAt(at)] + Later(key, b, n), key);
    ConsVerdicts(s, CleanupAt(at), Later(key, b, n), key);
    assert [] + Prefix(n, b) == Prefix(n, b);
  }

  lemma VerdictsWithoutCleanup(key: string, a: nat, b: nat, n: nat)
    ensures Verdicts(map[], [CheckOf(key, a, 0)] + Later(key, b, n), key) == FirstVerdict(key, a) + Prefix(n, a)
  {
    var s, at: int := Check(map[], key, a, 0), IDLE_MS + 1;
    assert Gain(a, 0) == 0.0;
    GainIdle(a, at);
    BurstVerdicts(s, key, b, at, n, a);
    ConsVerdicts(map[], CheckOf(key, a, 0), Later(key, b, n), key);
  }

  lemma LaterWithout(key: string, a: nat, b: nat, n: nat)
    ensures WithoutCleanup([CheckOf(key, a, 0)] + ([CleanupAt(IDLE_MS + 1)] + Later(key, b, n)))
         == [CheckOf(key, a, 0)] + Later(key, b, n)
  {
    var rest := Later(key, b, n);
    WithoutCons(CheckOf(key, a, 0), [CleanupAt(IDLE_MS + 1)] + rest);
    WithoutCons(CleanupAt(IDLE_MS + 1), rest);
    BurstHasNoCleanup(key, b, IDLE_MS + 1, n);
    assert [] + rest == rest;
  }

  lemma PrefixesDiffer(v: seq<bool>, n: nat, a: nat, b: nat)
    requires a != b && n == if a < b then b else a
    ensures v + Prefix(n, b) != v + Prefix(n, a)
  {
    var k := if a < b then a else b;
    assert (v + Prefix(n, b))[|v| + k] != (v + Prefix(n, a))[|v| + k];
  }

  /** Whenever a key is used with two different limits, some run shows a cleanup: the new bucket
      has the size of the first category seen after it. */
  lemma CleanupVisible(key: string, a: nat, b: nat) returns (es: seq<Event>)
    requires a != b
    ensures Monotone(es, 0) && TwoLimits(es, key, a, b)
    ensures Verdicts(map[], es, key) != Verdicts(map[], WithoutCleanup(es), key)
  {
    var n, at := if a < b then b else a, IDLE_MS + 1;
    var first, burst := CheckOf(key, a, 0), Later(key, b, n);
    es := [first] + ([CleanupAt(at)] + burst);
    VerdictsWithCleanup(key, a, b, n);
    VerdictsWithoutCleanup(key, a, b, n);
    LaterWithout(key, a, b, n);
    PrefixesDiffer(FirstVerdict(key, a), n, a, b);
    BurstMonotone(key, b, at, n, at);
    assert es[1..] == [CleanupAt(at)] + burst && es[1..][1..] == burst;
  }

  /** Every check of the key uses one of two limits. */
  predicate TwoLimits(es: seq<Event>, key: string, a: nat, b: nat) {
    forall i :: 0 <= i < |es| && es[i].CheckOf? && es[i].key == key ==> es[i].limit == a || es[i].limit == b
  }

  /** Cleanups never change a verdict on a key with two limits exactly when the limits agree. */
  lemma CleanupInvisibleIff(key: string, a: nat, b: nat)
    ensures (forall es :: Monotone(es, 0) && TwoLimits(es, key, a, b) ==>
                            Verdicts(map[], es, key) == Verdicts(map[], WithoutCleanup(es), key))
            <==> a == b
  {
    if a == b {
      forall es | Monotone(es, 0) && TwoLimits(es, key, a, b)
        ensures Verdicts(map[], es, key) == Verdicts(map[], WithoutCleanup(es), key)
      {
        CleanupInvisible(map[], es, key, a, 0);
      }
    } else {
      var es := CleanupVisible(key, a, b);
    }
  }

  lemma WithoutCons(e: Event, rest: seq<Event>)
    ensures WithoutCleanup([e] + rest) == (if e.CleanupAt? then [] else [e]) + WithoutCleanup(rest)
  {
    assert ([e] + rest)[1..] == rest;
  }

  lemma {:induction false} BurstMonotone(key: string, limit: nat, at: int, n: nat, t: int)
    requires t <= at
    ensures Monotone(Burst(key, limit, at, n), t) && OneLimit(Burst(key, limit, at, n), key, limit)
    decreases n
  {
    if n > 0 {
      BurstMonotone(key, limit, at, n - 1, at);
      var rest := Burst(key, limit, at, n - 1);
      assert ([CheckOf(key, limit, at)] + rest)[1..] == rest;
    }
  }
}
