/** Token buckets, a store that keeps them for ever, and a store that forgets stale ones. */
module RateLimits {

  /** `rate` is in requests per second, times are in seconds. */
  datatype Config = Config(rate: real, burst: nat, expiresIn: real)

  predicate IsConfig(c: Config) {
    c.rate > 0.0 && c.burst >= 1 && c.expiresIn >= 0.0
  }

  datatype Bucket = Bucket(tokens: real, last: real)

  datatype Request = Request(id: string, now: real)

  function Least(a: real, b: real): real {
    if a <= b then a else b
  }

  function NewBucket(c: Config, now: real): Bucket {
    Bucket(c.burst as real, now)
  }

  /** The tokens that come in during some seconds. */
  function Gain(c: Config, seconds: real): real {
    seconds * c.rate
  }

  /** The tokens at a time: they come in at the rate, up to the burst. */
  function Available(c: Config, b: Bucket, now: real): real {
    Least(c.burst as real, b.tokens + Gain(c, now - b.last))
  }

  /** Takes one token if there is one. */
  function Take(c: Config, b: Bucket, now: real): (Bucket, bool) {
    var t := Available(c, b, now);
    if t >= 1.0 then (Bucket(t - 1.0, now), true) else (b, false)
  }

  /** The buckets of a store that never forgets. */
  type Buckets = map<string, Bucket>

  function BucketOf(c: Config, buckets: Buckets, r: Request): Bucket {
    if r.id in buckets then buckets[r.id] else NewBucket(c, r.now)
  }

  function Keep(c: Config, buckets: Buckets, r: Request): (Buckets, bool) {
    var (b, ok) := Take(c, BucketOf(c, buckets, r), r.now);
    (buckets[r.id := b], ok)
  }

  datatype Visitor = Visitor(bucket: Bucket, lastSeen: real)

  datatype Store = Store(visitors: map<string, Visitor>, lastCleanup: real)

  predicate IsStale(c: Config, v: Visitor, now: real) {
    now - v.lastSeen > c.expiresIn
  }

  function Cleaned(c: Config, visitors: map<string, Visitor>, now: real): map<string, Visitor> {
    map id | id in visitors && !IsStale(c, visitors[id], now) :: visitors[id]
  }

  /** The visitor is seen, stale ones are forgotten when it is time, and then the visitor's bucket is asked. */
  function Seen(c: Config, s: Store, r: Request): Store {
    var v := Visitor(if r.id in s.visitors then s.visitors[r.id].bucket else NewBucket(c, r.now), r.now);
    var visitors := s.visitors[r.id := v];
    if r.now - s.lastCleanup > c.expiresIn then Store(Cleaned(c, visitors, r.now), r.now) else s.(visitors := visitors)
  }

  function Forget(c: Config, s: Store, r: Request): (Store, bool)
    requires IsConfig(c)
  {
    var s' := Seen(c, s, r);
    var (b, ok) := Take(c, s'.visitors[r.id].bucket, r.now);
    (s'.(visitors := s'.visitors[r.id := Visitor(b, r.now)]), ok)
  }

  /** The decisions on a series of requests. */
  function KeepAll(c: Config, buckets: Buckets, rs: seq<Request>): seq<bool>
    decreases |rs|
  {
    if rs == [] then []
    else
      var (b, ok) := Keep(c, buckets, rs[0]);
      [ok] + KeepAll(c, b, rs[1..])
  }

  function ForgetAll(c: Config, s: Store, rs: seq<Request>): seq<bool>
    requires IsConfig(c)
    decreases |rs|
  {
    if rs == [] then []
    else
      var (s', ok) := Forget(c, s, rs[0]);
      [ok] + ForgetAll(c, s', rs[1..])
  }

  /** What the two stores hold after a series of requests. */
  function KeepRun(c: Config, buckets: Buckets, rs: seq<Request>): Buckets
    decreases |rs|
  {
    if rs == [] then buckets else KeepRun(c, Keep(c, buckets, rs[0]).0, rs[1..])
  }

  function ForgetRun(c: Config, s: Store, rs: seq<Request>): Store
    requires IsConfig(c)
    decreases |rs|
  {
    if rs == [] then s else ForgetRun(c, Forget(c, s, rs[0]).0, rs[1..])
  }

  /** Time does not go backwards. */
  predicate IsTimely(rs: seq<Request>, start: real) {
    rs == [] || (start <= rs[0].now && IsTimely(rs[1..], rs[0].now))
  }

  /** The time of the last request. */
  function EndOf(rs: seq<Request>, start: real): real {
    if rs == [] then start else rs[|rs| - 1].now
  }

  function Empty(start: real): Store {
    Store(map[], start)
  }
}

module RateTheorems {
  import opened RateLimits

  /** After enough time the bucket is full again. */
  predicate IsFull(c: Config, b: Bucket, now: real) {
    b.tokens + Gain(c, now - b.last) >= c.burst as real
  }

  predicate BucketOk(c: Config, b: Bucket, now: real) {
    0.0 <= b.tokens <= c.burst as real && b.last <= now
  }

  /** Where the store remembers a visitor it has the right bucket, and where it does not the right bucket is full. */
  ghost predicate Agrees(c: Config, s: Store, buckets: Buckets, now: real, id: string) {
    && (id in buckets ==> BucketOk(c, buckets[id], now))
    && (id in s.visitors ==> id in buckets && s.visitors[id].bucket == buckets[id]
                             && buckets[id].last <= s.visitors[id].lastSeen <= now)
    && (id in buckets && id !in s.visitors ==> IsFull(c, buckets[id], now))
  }

  ghost predicate AllAgree(c: Config, s: Store, buckets: Buckets, now: real) {
    forall id :: Agrees(c, s, buckets, now, id)
  }

  lemma GainGrows(c: Config, a: real, b: real)
    requires a <= b && c.rate >= 0.0
    ensures Gain(c, a) <= Gain(c, b) && Gain(c, 0.0) == 0.0
  {
    assert (b - a) * c.rate >= 0.0;
  }

  lemma GainAdds(c: Config, a: real, b: real)
    ensures Gain(c, a + b) == Gain(c, a) + Gain(c, b)
  {
  }

  lemma StaysFull(c: Config, b: Bucket, now: real, later: real)
    requires IsConfig(c) && IsFull(c, b, now) && now <= later
    ensures IsFull(c, b, later)
  {
    GainGrows(c, now - b.last, later - b.last);
  }

  /** Long enough after the last token was taken, the bucket is full. */
  lemma FullAfterExpiry(c: Config, b: Bucket, seen: real, now: real)
    requires IsConfig(c) && c.rate * c.expiresIn >= c.burst as real
    requires BucketOk(c, b, now) && b.last <= seen && now - seen > c.expiresIn
    ensures IsFull(c, b, now)
  {
    GainGrows(c, c.expiresIn, now - b.last);
    assert Gain(c, c.expiresIn) == c.rate * c.expiresIn;
  }

  lemma TakeOk(c: Config, b: Bucket, now: real)
    requires IsConfig(c) && BucketOk(c, b, now)
    ensures BucketOk(c, Take(c, b, now).0, now)
  {
    GainGrows(c, 0.0, now - b.last);
  }

  /** A full bucket decides like a new one, and is the same afterwards. */
  lemma FullLikeNew(c: Config, b: Bucket, now: real)
    requires IsConfig(c) && IsFull(c, b, now)
    ensures Take(c, b, now) == Take(c, NewBucket(c, now), now)
  {
    AvailableAtOnce(c, c.burst as real, now);
  }

  /** At the moment when it was last asked, a bucket has the tokens that it holds. */
  lemma AvailableAtOnce(c: Config, tokens: real, now: real)
    ensures Available(c, Bucket(tokens, now), now) == Least(c.burst as real, tokens)
  {
    assert now - now == 0.0 && Gain(c, 0.0) == 0.0;
  }

  lemma SeenAgrees(c: Config, s: Store, buckets: Buckets, r: Request, start: real, id: string)
    requires IsConfig(c) && c.rate * c.expiresIn >= c.burst as real
    requires Agrees(c, s, buckets, start, id) && start <= r.now && id != r.id
    ensures Agrees(c, Seen(c, s, r), buckets, r.now, id)
  {
    if id in buckets {
      if id !in s.visitors {
        StaysFull(c, buckets[id], start, r.now);
      } else if IsStale(c, s.visitors[id], r.now) {
        FullAfterExpiry(c, buckets[id], s.visitors[id].lastSeen, r.now);
      }
    }
  }

  lemma OneRequest(c: Config, s: Store, buckets: Buckets, r: Request, start: real)
    requires IsConfig(c) && c.rate * c.expiresIn >= c.burst as real
    requires AllAgree(c, s, buckets, start) && start <= r.now
    ensures Forget(c, s, r).1 == Keep(c, buckets, r).1
    ensures AllAgree(c, Forget(c, s, r).0, Keep(c, buckets, r).0, r.now)
  {
    assert Agrees(c, s, buckets, start, r.id);
    var kept, b := BucketOf(c, buckets, r), Seen(c, s, r).visitors[r.id].bucket;
    if r.id in buckets && r.id !in s.visitors {
      StaysFull(c, buckets[r.id], start, r.now);
      FullLikeNew(c, buckets[r.id], r.now);
    }
    assert Take(c, b, r.now) == Take(c, kept, r.now);
    TakeOk(c, b, r.now);
    forall id ensures Agrees(c, Forget(c, s, r).0, Keep(c, buckets, r).0, r.now, id) {
      assert Agrees(c, s, buckets, start, id);
      if id != r.id {
        SeenAgrees(c, s, buckets, r, start, id);
      }
    }
  }

  /** From stores that agree, a run decides alike and leaves stores that agree. */
  lemma {:induction false} RunAgrees(c: Config, s: Store, buckets: Buckets, rs: seq<Request>, start: real)
    requires IsConfig(c) && c.rate * c.expiresIn >= c.burst as real
    requires AllAgree(c, s, buckets, start) && IsTimely(rs, start)
    ensures ForgetAll(c, s, rs) == KeepAll(c, buckets, rs)
    ensures AllAgree(c, ForgetRun(c, s, rs), KeepRun(c, buckets, rs), EndOf(rs, start))
    decreases |rs|
  {
    if rs != [] {
      OneRequest(c, s, buckets, rs[0], start);
      RunAgrees(c, Forget(c, s, rs[0]).0, Keep(c, buckets, rs[0]).0, rs[1..], rs[0].now);
    }
  }

  /** If a bucket fills up before its visitor is forgotten, forgetting never shows. */
  lemma ForgettingDoesNotShow(c: Config, rs: seq<Request>, start: real)
    requires IsConfig(c) && c.rate * c.expiresIn >= c.burst as real && IsTimely(rs, start)
    ensures ForgetAll(c, Empty(start), rs) == KeepAll(c, map[], rs)
  {
    StartsAgreed(c, start);
    RunAgrees(c, Empty(start), map[], rs, start);
  }

  lemma StartsAgreed(c: Config, start: real)
    ensures AllAgree(c, Empty(start), map[], start)
  {
  }

  // ---------------------------------------------------------------------------
  // The bound.

  /** How often one visitor is let through. */
  function Permits(rs: seq<Request>, decisions: seq<bool>, id: string): nat
    requires |rs| == |decisions|
  {
    if rs == [] then 0
    else (if rs[0].id == id && decisions[0] then 1 else 0) + Permits(rs[1..], decisions[1..], id)
  }

  lemma {:induction false} DecisionsForAll(c: Config, buckets: Buckets, rs: seq<Request>)
    ensures |KeepAll(c, buckets, rs)| == |rs|
    decreases |rs|
  {
    if rs != [] {
      DecisionsForAll(c, Keep(c, buckets, rs[0]).0, rs[1..]);
    }
  }

  ghost predicate BucketsOk(c: Config, buckets: Buckets, now: real) {
    forall id :: id in buckets ==> BucketOk(c, buckets[id], now)
  }

  lemma KeepOk(c: Config, buckets: Buckets, r: Request, start: real)
    requires IsConfig(c) && BucketsOk(c, buckets, start) && start <= r.now
    ensures BucketsOk(c, Keep(c, buckets, r).0, r.now)
  {
    TakeOk(c, BucketOf(c, buckets, r), r.now);
  }

  /** What a visitor can be given at a time: the tokens in its bucket, or a full bucket for a new visitor. */
  function Credit(c: Config, buckets: Buckets, id: string, now: real): real {
    if id in buckets then Available(c, buckets[id], now) else c.burst as real
  }

  lemma CreditGrows(c: Config, buckets: Buckets, id: string, now: real, later: real)
    requires IsConfig(c) && now <= later
    ensures Credit(c, buckets, id, later) <= Credit(c, buckets, id, now) + Gain(c, later - now)
    ensures Credit(c, buckets, id, now) <= c.burst as real
  {
    if id in buckets {
      var b := buckets[id];
      GainAdds(c, now - b.last, later - now);
      assert (now - b.last) + (later - now) == later - b.last;
    }
    GainGrows(c, 0.0, later - now);
  }

  lemma CreditSpent(c: Config, buckets: Buckets, r: Request, id: string)
    requires IsConfig(c)
    ensures var (after, ok) := Keep(c, buckets, r);
            Credit(c, after, id, r.now) + (if r.id == id && ok then 1.0 else 0.0) == Credit(c, buckets, id, r.now)
  {
    var b := BucketOf(c, buckets, r);
    var t := Available(c, b, r.now);
    AvailableAtOnce(c, t - 1.0, r.now);
    AvailableAtOnce(c, c.burst as real, r.now);
    assert r.id !in buckets ==> t == c.burst as real >= 1.0;
  }

  lemma {:induction false} PermitsWithinCredit(c: Config, buckets: Buckets, rs: seq<Request>, id: string, start: real, end: real)
    requires IsConfig(c) && BucketsOk(c, buckets, start) && IsTimely(rs, start) && start <= end
    requires forall i :: 0 <= i < |rs| ==> rs[i].now <= end
    ensures |KeepAll(c, buckets, rs)| == |rs|
    ensures Permits(rs, KeepAll(c, buckets, rs), id) as real <= Credit(c, buckets, id, start) + Gain(c, end - start)
    decreases |rs|
  {
    DecisionsForAll(c, buckets, rs);
    if rs == [] {
      CreditPositive(c, buckets, id, start);
      GainGrows(c, 0.0, end - start);
    } else {
      var (after, ok) := Keep(c, buckets, rs[0]);
      var now := rs[0].now;
      KeepOk(c, buckets, rs[0], start);
      PermitsWithinCredit(c, after, rs[1..], id, now, end);
      CreditSpent(c, buckets, rs[0], id);
      CreditGrows(c, buckets, id, start, now);
      GainAdds(c, end - now, now - start);
      assert (end - now) + (now - start) == end - start;
      var decisions, rest := KeepAll(c, buckets, rs), KeepAll(c, after, rs[1..]);
      assert decisions[0] == ok && decisions[1..] == rest;
      var first := if rs[0].id == id && ok then 1 else 0;
      assert Permits(rs, decisions, id) == first + Permits(rs[1..], rest, id);
    }
  }

  lemma CreditPositive(c: Config, buckets: Buckets, id: string, now: real)
    requires IsConfig(c) && BucketsOk(c, buckets, now)
    ensures Credit(c, buckets, id, now) >= 0.0
  {
    if id in buckets {
      var b := buckets[id];
      assert BucketOk(c, b, now);
      GainGrows(c, 0.0, now - b.last);
      assert b.tokens + Gain(c, now - b.last) >= 0.0;
    }
  }

  lemma AgreedWindow(c: Config, s: Store, buckets: Buckets, window: seq<Request>, id: string, start: real, length: real)
    requires IsConfig(c) && c.rate * c.expiresIn >= c.burst as real && length >= 0.0
    requires AllAgree(c, s, buckets, start) && IsTimely(window, start)
    requires forall i :: 0 <= i < |window| ==> window[i].now <= start + length
    ensures |ForgetAll(c, s, window)| == |window|
    ensures Permits(window, ForgetAll(c, s, window), id) as real <= c.burst as real + Gain(c, length)
  {
    RunAgrees(c, s, buckets, window, start);
    AgreedAreOk(c, s, buckets, start);
    var end := start + length;
    PermitsWithinCredit(c, buckets, window, id, start, end);
    CreditGrows(c, buckets, id, start, start);
    assert end - start == length;
  }

  /**
   In every run of the store that forgets, and in any stretch of it, a visitor is let through at most as often as the
   burst and the rate allow for the time that the stretch takes.
   */
  lemma PermitsAreBounded(c: Config, before: seq<Request>, window: seq<Request>, id: string, start: real, length: real)
    requires IsConfig(c) && c.rate * c.expiresIn >= c.burst as real && length >= 0.0
    requires IsTimely(before + window, start)
    requires forall i :: 0 <= i < |window| ==> window[i].now <= window[0].now + length
    ensures var decisions := ForgetAll(c, Empty(start), before + window);
            && |decisions| == |before| + |window|
            && Permits(window, decisions[|before|..], id) as real <= c.burst as real + Gain(c, length)
  {
    var s, buckets := ForgetRun(c, Empty(start), before), KeepRun(c, map[], before);
    var end := EndOf(before, start);
    TimelyParts(before, window, start);
    StartsAgreed(c, start);
    RunAgrees(c, Empty(start), map[], before, start);
    ForgetParts(c, Empty(start), before, window);
    if window == [] {
      GainGrows(c, 0.0, length);
    } else {
      AgreesLater(c, s, buckets, end, window[0].now);
      AgreedWindow(c, s, buckets, window, id, window[0].now, length);
    }
  }

  lemma AgreesLater(c: Config, s: Store, buckets: Buckets, now: real, later: real)
    requires IsConfig(c) && AllAgree(c, s, buckets, now) && now <= later
    ensures AllAgree(c, s, buckets, later)
  {
    forall id ensures Agrees(c, s, buckets, later, id) {
      assert Agrees(c, s, buckets, now, id);
      if id in buckets && id !in s.visitors {
        StaysFull(c, buckets[id], now, later);
      }
    }
  }

  lemma {:induction false} TimelyParts(a: seq<Request>, b: seq<Request>, start: real)
    ensures IsTimely(a + b, start) <==> IsTimely(a, start) && IsTimely(b, EndOf(a, start))
    decreases |a|
  {
    if a == [] {
      assert a + b == b;
    } else {
      assert (a + b)[1..] == a[1..] + b;
      TimelyParts(a[1..], b, a[0].now);
    }
  }

  lemma {:induction false} ForgetParts(c: Config, s: Store, a: seq<Request>, b: seq<Request>)
    requires IsConfig(c)
    ensures |ForgetAll(c, s, a)| == |a|
    ensures ForgetAll(c, s, a + b) == ForgetAll(c, s, a) + ForgetAll(c, ForgetRun(c, s, a), b)
    decreases |a|
  {
    if a == [] {
      assert a + b == b;
    } else {
      assert (a + b)[1..] == a[1..] + b;
      var (s', ok) := Forget(c, s, a[0]);
      ForgetParts(c, s', a[1..], b);
      var x, y := ForgetAll(c, s', a[1..]), ForgetAll(c, ForgetRun(c, s', a[1..]), b);
      assert [ok] + (x + y) == [ok] + x + y;
    }
  }

  lemma {:induction false} KeepParts(c: Config, buckets: Buckets, a: seq<Request>, b: seq<Request>)
    ensures |KeepAll(c, buckets, a)| == |a|
    ensures KeepAll(c, buckets, a + b) == KeepAll(c, buckets, a) + KeepAll(c, KeepRun(c, buckets, a), b)
    decreases |a|
  {
    if a == [] {
      assert a + b == b;
    } else {
      assert (a + b)[1..] == a[1..] + b;
      var (after, ok) := Keep(c, buckets, a[0]);
      KeepParts(c, after, a[1..], b);
      var x, y := KeepAll(c, after, a[1..]), KeepAll(c, KeepRun(c, after, a[1..]), b);
      assert [ok] + (x + y) == [ok] + x + y;
    }
  }

  lemma AgreedAreOk(c: Config, s: Store, buckets: Buckets, now: real)
    requires AllAgree(c, s, buckets, now)
    ensures BucketsOk(c, buckets, now)
  {
    forall id | id in buckets ensures BucketOk(c, buckets[id], now) {
      assert Agrees(c, s, buckets, now, id);
    }
  }

  // ---------------------------------------------------------------------------
  // Who is let through.

  /** The visitor's requests are at least the time of one token apart. */
  predicate IsSpaced(c: Config, rs: seq<Request>, id: string, last: real) {
    rs == []
    || (if rs[0].id == id then (rs[0].now - last) * c.rate >= 1.0 && IsSpaced(c, rs[1..], id, rs[0].now)
        else IsSpaced(c, rs[1..], id, last))
  }

  predicate AllLetThrough(rs: seq<Request>, decisions: seq<bool>, id: string)
    requires |rs| == |decisions|
  {
    forall i :: 0 <= i < |rs| && rs[i].id == id ==> decisions[i]
  }

  /** A visitor who comes no more often than the rate allows is always let through. */
  lemma {:induction false} SpacedAreLetThrough(c: Config, buckets: Buckets, rs: seq<Request>, id: string, last: real)
    requires IsConfig(c) && IsSpaced(c, rs, id, last)
    requires id in buckets ==> buckets[id].tokens >= 0.0 && buckets[id].last <= last
    ensures |KeepAll(c, buckets, rs)| == |rs| && AllLetThrough(rs, KeepAll(c, buckets, rs), id)
    decreases |rs|
  {
    DecisionsForAll(c, buckets, rs);
    if rs != [] {
      var (after, ok) := Keep(c, buckets, rs[0]);
      if rs[0].id == id {
        if id in buckets {
          GainGrows(c, rs[0].now - last, rs[0].now - buckets[id].last);
          assert Gain(c, rs[0].now - last) == (rs[0].now - last) * c.rate;
        } else {
          AvailableAtOnce(c, c.burst as real, rs[0].now);
        }
        assert ok;
      }
      SpacedAreLetThrough(c, after, rs[1..], id, if rs[0].id == id then rs[0].now else last);
      var decisions, rest := KeepAll(c, buckets, rs), KeepAll(c, after, rs[1..]);
      assert decisions == [ok] + rest;
      forall i | 0 <= i < |rs| && rs[i].id == id ensures decisions[i] {
        assert i > 0 ==> rs[1..][i - 1] == rs[i] && decisions[i] == rest[i - 1];
      }
    }
  }

  /** The store that forgets does the same, from its start on. */
  lemma SpacedVisitorsAreServed(c: Config, rs: seq<Request>, id: string, start: real, last: real)
    requires IsConfig(c) && c.rate * c.expiresIn >= c.burst as real && IsTimely(rs, start) && IsSpaced(c, rs, id, last)
    ensures |ForgetAll(c, Empty(start), rs)| == |rs| && AllLetThrough(rs, ForgetAll(c, Empty(start), rs), id)
  {
    SpacedAreLetThrough(c, map[], rs, id, last);
    ForgettingDoesNotShow(c, rs, start);
  }

  // ---------------------------------------------------------------------------
  // When forgetting does show.

  function Repeat(r: Request, n: nat): (rs: seq<Request>)
    ensures |rs| == n
  {
    if n == 0 then [] else [r] + Repeat(r, n - 1)
  }

  predicate AllAllowed(decisions: seq<bool>) {
    decisions == [] || (decisions[0] && AllAllowed(decisions[1..]))
  }

  /** Requests at one moment are all let through only if there are that many tokens. */
  lemma {:induction false} KeepRepeated(c: Config, buckets: Buckets, r: Request, n: nat)
    requires IsConfig(c) && r.id in buckets && AllAllowed(KeepAll(c, buckets, Repeat(r, n))) && n > 0
    ensures Available(c, buckets[r.id], r.now) >= n as real
  {
    var rs, t := Repeat(r, n), Available(c, buckets[r.id], r.now);
    var (after, ok) := Keep(c, buckets, r);
    assert rs[0] == r && rs[1..] == Repeat(r, n - 1);
    var rest := KeepAll(c, after, rs[1..]);
    assert KeepAll(c, buckets, rs)[1..] == rest;
    if n > 1 {
      KeepRepeated(c, after, r, n - 1);
      AvailableAtOnce(c, t - 1.0, r.now);
    }
  }

  lemma {:induction false} ForgetRepeated(c: Config, s: Store, r: Request, n: nat)
    requires IsConfig(c) && s.lastCleanup == r.now
    requires Available(c, if r.id in s.visitors then s.visitors[r.id].bucket else NewBucket(c, r.now), r.now) >= n as real
    ensures AllAllowed(ForgetAll(c, s, Repeat(r, n)))
    decreases n
  {
    if n > 0 {
      var rs := Repeat(r, n);
      var b := Seen(c, s, r).visitors[r.id].bucket;
      var (after, ok) := Forget(c, s, r);
      assert rs[0] == r && rs[1..] == Repeat(r, n - 1);
      AvailableAtOnce(c, Available(c, b, r.now) - 1.0, r.now);
      ForgetRepeated(c, after, r, n - 1);
      assert ForgetAll(c, s, rs)[1..] == ForgetAll(c, after, rs[1..]);
    }
  }

  /** A moment after the expiry at which a bucket is not full yet. */
  lemma MomentBetween(c: Config) returns (t: real)
    requires IsConfig(c) && c.rate * c.expiresIn < c.burst as real
    ensures t > c.expiresIn && Gain(c, t) < c.burst as real
  {
    var slack := (c.burst as real - c.rate * c.expiresIn) / (2.0 * c.rate);
    assert slack > 0.0;
    t := c.expiresIn + slack;
    GainAdds(c, c.expiresIn, slack);
    assert Gain(c, slack) == (c.burst as real - c.rate * c.expiresIn) / 2.0;
  }

  /** The store in which one visitor has some tokens left. */
  function Left(id: string, tokens: nat, now: real): Store {
    Store(map[id := Visitor(Bucket(tokens as real, now), now)], now)
  }

  /** Requests at one moment use up the tokens. */
  lemma {:induction false} UsesUp(c: Config, r: Request, tokens: nat)
    requires IsConfig(c) && tokens <= c.burst
    ensures ForgetRun(c, Left(r.id, tokens, r.now), Repeat(r, tokens)) == Left(r.id, 0, r.now)
    ensures KeepRun(c, map[r.id := Bucket(tokens as real, r.now)], Repeat(r, tokens)) == map[r.id := Bucket(0.0, r.now)]
    decreases tokens
  {
    if tokens > 0 {
      var rs := Repeat(r, tokens);
      assert rs[0] == r && rs[1..] == Repeat(r, tokens - 1);
      AvailableAtOnce(c, tokens as real, r.now);
      assert Forget(c, Left(r.id, tokens, r.now), r).0 == Left(r.id, tokens - 1, r.now);
      assert Keep(c, map[r.id := Bucket(tokens as real, r.now)], r).0 == map[r.id := Bucket((tokens - 1) as real, r.now)];
      UsesUp(c, r, tokens - 1);
    }
  }

  /** From the start, as many requests at one moment as the burst use up a visitor's bucket in both stores. */
  lemma UsesUpBurst(c: Config, r: Request)
    requires IsConfig(c)
    ensures ForgetRun(c, Empty(r.now), Repeat(r, c.burst)) == Left(r.id, 0, r.now)
    ensures KeepRun(c, map[], Repeat(r, c.burst)) == map[r.id := Bucket(0.0, r.now)]
  {
    assert Repeat(r, c.burst)[0] == r;
    var bucket := NewBucket(c, r.now);
    assert Empty(r.now).visitors[r.id := Visitor(bucket, r.now)] == Left(r.id, c.burst, r.now).visitors;
    assert Seen(c, Empty(r.now), r) == Seen(c, Left(r.id, c.burst, r.now), r);
    var after := Take(c, bucket, r.now).0;
    var none: Buckets := map[];
    assert map[r.id := bucket][r.id := after] == none[r.id := after];
    UsesUp(c, r, c.burst);
  }

  /** A new visitor is let through as often at one moment as the burst says, and the next time not. */
  lemma BurstIsLetThrough(c: Config, r: Request)
    requires IsConfig(c)
    ensures AllAllowed(ForgetAll(c, Empty(r.now), Repeat(r, c.burst)))
    ensures ForgetAll(c, Empty(r.now), Repeat(r, c.burst) + [r]) == ForgetAll(c, Empty(r.now), Repeat(r, c.burst)) + [false]
  {
    AvailableAtOnce(c, c.burst as real, r.now);
    ForgetRepeated(c, Empty(r.now), r, c.burst);
    UsesUpBurst(c, r);
    ForgetParts(c, Empty(r.now), Repeat(r, c.burst), [r]);
    AvailableAtOnce(c, 0.0, r.now);
    var (s, ok) := Forget(c, Left(r.id, 0, r.now), r);
    assert !ok && [r][1..] == [] && ForgetAll(c, Left(r.id, 0, r.now), [r]) == [ok] + ForgetAll(c, s, []);
  }

  /** After the bucket has been used up, requests for which it is replaced by a full one too early. */
  lemma RefilledTooEarly(c: Config, start: real, t: real)
    requires IsConfig(c) && t > c.expiresIn && Gain(c, t) < c.burst as real
    ensures var more := [Request("b", start + t)] + Repeat(Request("a", start + t), c.burst);
            ForgetAll(c, Left("a", 0, start), more) != KeepAll(c, map["a" := Bucket(0.0, start)], more)
  {
    var spent := Bucket(0.0, start);
    var other, again := Request("b", start + t), Request("a", start + t);
    assert other.id != again.id by {
      assert "b"[0] != "a"[0];
    }
    var s, buckets := Left("a", 0, start), map["a" := spent];
    var more := [other] + Repeat(again, c.burst);
    assert more[1..] == Repeat(again, c.burst);
    var s', buckets' := Forget(c, s, other).0, Keep(c, buckets, other).0;
    assert (start + t) - start == t;
    assert again.id !in s'.visitors && s'.lastCleanup == again.now;
    AvailableAtOnce(c, c.burst as real, again.now);
    ForgetRepeated(c, s', again, c.burst);
    assert buckets'[again.id] == spent && Available(c, spent, again.now) < c.burst as real;
    var forgetting, keeping := ForgetAll(c, s', Repeat(again, c.burst)), KeepAll(c, buckets', Repeat(again, c.burst));
    if AllAllowed(keeping) {
      KeepRepeated(c, buckets', again, c.burst);
    }
    assert ForgetAll(c, s, more)[1..] == forgetting && KeepAll(c, buckets, more)[1..] == keeping;
  }

  /**
   If a visitor is forgotten before its bucket is full, there are requests on which a store that forgets and one that
   does not, both new at the start, decide differently: an emptied bucket is replaced by a full one too early.
   */
  lemma ForgettingShows(c: Config, start: real) returns (rs: seq<Request>)
    requires IsConfig(c) && c.rate * c.expiresIn < c.burst as real
    ensures IsTimely(rs, start) && ForgetAll(c, Empty(start), rs) != KeepAll(c, map[], rs)
  {
    var t := MomentBetween(c);
    var r := Request("a", start);
    var first, rest := Repeat(r, c.burst), Repeat(Request("a", start + t), c.burst);
    var more := [Request("b", start + t)] + rest;
    rs := first + more;
    UsesUpBurst(c, r);
    RefilledTooEarly(c, start, t);
    ForgetParts(c, Empty(start), first, more);
    KeepParts(c, map[], first, more);
    assert ForgetAll(c, Empty(start), rs)[c.burst..] == ForgetAll(c, Left("a", 0, start), more);
    assert KeepAll(c, map[], rs)[c.burst..] == KeepAll(c, map["a" := Bucket(0.0, start)], more);
    RepeatIsTimely(r, c.burst);
    RepeatIsTimely(Request("a", start + t), c.burst);
    assert more[1..] == rest;
    TimelyParts(first, more, start);
  }

  /** Forgetting never shows if and only if a bucket fills up before its visitor is forgotten. */
  lemma ForgettingShowsUnlessFull(c: Config, start: real)
    requires IsConfig(c)
    ensures (forall rs :: IsTimely(rs, start) ==> ForgetAll(c, Empty(start), rs) == KeepAll(c, map[], rs))
       <==> c.rate * c.expiresIn >= c.burst as real
  {
    if c.rate * c.expiresIn >= c.burst as real {
      forall rs | IsTimely(rs, start) ensures ForgetAll(c, Empty(start), rs) == KeepAll(c, map[], rs) {
        ForgettingDoesNotShow(c, rs, start);
      }
    } else {
      var rs := ForgettingShows(c, start);
    }
  }

  lemma {:induction false} RepeatIsTimely(r: Request, n: nat)
    ensures IsTimely(Repeat(r, n), r.now) && EndOf(Repeat(r, n), r.now) == r.now
  {
    if n > 0 {
      assert Repeat(r, n)[1..] == Repeat(r, n - 1);
      RepeatIsTimely(r, n - 1);
    }
  }
}

/** The store of the middleware. */
module RateLimiter {
  import opened RateLimits

  class RateLimiterMemoryStore {
    const config: Config
    var visitors: map<string, Visitor>
    var lastCleanup: real

    function Now(): Store
      reads this
    {
      Store(visitors, lastCleanup)
    }

    constructor (config: Config, start: real)
      ensures this.config == config && Now() == Empty(start)
    {
      this.config, visitors, lastCleanup := config, map[], start;
    }

    /** Whether the visitor is let through now. */
    method Allow(identifier: string, now: real) returns (allowed: bool)
      requires IsConfig(config)
      modifies this
      ensures (Now(), allowed) == Forget(config, old(Now()), Request(identifier, now))
    {
      ghost var before := Now();
      if identifier !in visitors {
        visitors := visitors[identifier := Visitor(NewBucket(config, now), now)];
      }
      visitors := visitors[identifier := visitors[identifier].(lastSeen := now)];
      assert visitors == before.visitors[identifier := visitors[identifier]];
      if now - lastCleanup > config.expiresIn {
        CleanupStaleVisitors(now);
      }
      assert Now() == Seen(config, before, Request(identifier, now));
      var (bucket, ok) := Take(config, visitors[identifier].bucket, now);
      visitors := visitors[identifier := Visitor(bucket, now)];
      allowed := ok;
    }

    /** Forgets every visitor that has not been seen for longer than the expiry. */
    method CleanupStaleVisitors(now: real)
      modifies this
      ensures visitors == Cleaned(config, old(visitors), now) && lastCleanup == now
    {
      var ids := visitors.Keys;
      while ids != {}
        invariant ids <= old(visitors).Keys
        invariant visitors == map id | id in old(visitors) && (id in ids || !IsStale(config, old(visitors)[id], now))
                                       :: old(visitors)[id]
        decreases ids
      {
        var id :| id in ids;
        if IsStale(config, visitors[id], now) {
          visitors := visitors - {id};
        }
        ids := ids - {id};
      }
      lastCleanup := now;
    }
  }
}
