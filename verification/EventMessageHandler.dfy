/** Event rate limiting: one bucket for each applicable limit, none skipped. */
module EventMessageHandler {
  import opened RateLimiter
  import opened RateLimitKeys
  import opened Wrappers

  datatype EventRateLimit = EventRateLimit(rate: nat, period: nat, kinds: Option<seq<KindItem>>)

  datatype Whitelists = Whitelists(pubkeys: Option<seq<string>>, ipAddresses: Option<seq<string>>)

  datatype Sender = Sender(pubkey: string, address: string, kind: nat)

  predicate Applies(limit: EventRateLimit, kind: nat) {
    limit.kinds.Some? ==> exists item :: item in limit.kinds.value && IsEventKindOrRangeMatch(kind, item)
  }

  predicate Exempt(sender: Sender, relayPubkey: string, whitelists: Whitelists) {
    || sender.pubkey == relayPubkey
    || (whitelists.pubkeys.Some? && sender.pubkey in whitelists.pubkeys.value)
    || (whitelists.ipAddresses.Some? && sender.address in whitelists.ipAddresses.value)
  }

  function LimitHit(sender: Sender, limit: EventRateLimit, now: nat): HitRecord {
    HitRecord(EventKey(sender.pubkey, limit.period, limit.kinds), now, 1, limit.period)
  }

  /** The hits of one check: one for each applicable limit, at the clock reading of that limit. */
  ghost function Hits(sender: Sender, limits: seq<EventRateLimit>, clock: seq<nat>): seq<HitRecord>
    requires |limits| <= |clock|
  {
    if limits == [] then []
    else
      var n := |limits| - 1;
      Hits(sender, limits[..n], clock)
      + if Applies(limits[n], sender.kind) then [LimitHit(sender, limits[n], clock[n])] else []
  }

  ghost function After(store: Store, hits: seq<HitRecord>): Store {
    if hits == [] then store else AfterHit(After(store, hits[..|hits| - 1]), hits[|hits| - 1])
  }

  /** Limit i applies, and the limiter answered "limited" to its hit. */
  ghost predicate LimitedBy(store: Store, sender: Sender, limits: seq<EventRateLimit>, clock: seq<nat>, i: nat)
    requires i < |limits| <= |clock|
  {
    && Applies(limits[i], sender.kind)
    && Limited(After(store, Hits(sender, limits[..i], clock)), LimitHit(sender, limits[i], clock[i]), limits[i].rate)
  }

  ghost predicate SomeLimited(store: Store, sender: Sender, limits: seq<EventRateLimit>, clock: seq<nat>, n: nat)
    requires n <= |limits| <= |clock|
  {
    exists i: nat :: i < n && LimitedBy(store, sender, limits, clock, i)
  }

  lemma NextSomeLimited(store: Store, sender: Sender, limits: seq<EventRateLimit>, clock: seq<nat>, n: nat)
    requires n < |limits| <= |clock|
    ensures SomeLimited(store, sender, limits, clock, n + 1)
            <==> SomeLimited(store, sender, limits, clock, n) || LimitedBy(store, sender, limits, clock, n)
  {
    if i: nat :| i < n + 1 && LimitedBy(store, sender, limits, clock, i) {
      assert i < n || i == n;
    }
  }

  lemma NextHits(sender: Sender, limits: seq<EventRateLimit>, clock: seq<nat>, n: nat)
    requires n < |limits| <= |clock|
    ensures Hits(sender, limits[..n + 1], clock)
            == Hits(sender, limits[..n], clock)
               + if Applies(limits[n], sender.kind) then [LimitHit(sender, limits[n], clock[n])] else []
  {
    assert limits[..n + 1][..n] == limits[..n];
  }

  /** Which limits apply: those without kinds, and those that list the kind or a range around it. */
  lemma AppliesExactly(limit: EventRateLimit, kind: nat)
    ensures Applies(limit, kind)
            <==> limit.kinds.None? || Single(kind) in limit.kinds.value
                 || exists first: nat, last: nat :: Range(first, last) in limit.kinds.value && first <= kind <= last
  {
    if limit.kinds.Some? && Single(kind) in limit.kinds.value {
      assert IsEventKindOrRangeMatch(kind, Single(kind));
    }
    if limit.kinds.Some? {
      if first: nat, last: nat :| Range(first, last) in limit.kinds.value && first <= kind <= last {
        assert IsEventKindOrRangeMatch(kind, Range(first, last));
      }
    }
  }

  /** Limit i is one without kinds, or lists the sender's kind or a range around it. */
  ghost predicate Concerns(sender: Sender, limit: EventRateLimit) {
    || limit.kinds.None? || Single(sender.kind) in limit.kinds.value
    || exists first: nat, last: nat :: Range(first, last) in limit.kinds.value && first <= sender.kind <= last
  }

  /** One check hits exactly the buckets of the limits that concern the event, each by one, at its own time. */
  lemma {:induction false} HitsExactly(sender: Sender, limits: seq<EventRateLimit>, clock: seq<nat>, h: HitRecord)
    requires |limits| <= |clock|
    ensures h in Hits(sender, limits, clock)
            <==> exists i :: 0 <= i < |limits| && Concerns(sender, limits[i])
                             && h == HitRecord(EventKey(sender.pubkey, limits[i].period, limits[i].kinds), clock[i], 1,
                                               limits[i].period)
  {
    if limits != [] {
      var n := |limits| - 1;
      HitsExactly(sender, limits[..n], clock, h);
      AppliesExactly(limits[n], sender.kind);
      assert forall i :: 0 <= i < n ==> limits[..n][i] == limits[i];
    }
  }

  lemma AfterOneMore(store: Store, hits: seq<HitRecord>, h: HitRecord)
    ensures After(store, hits + [h]) == AfterHit(After(store, hits), h)
  {
    assert (hits + [h])[..|hits|] == hits;
  }

  lemma NextLimit(store: Store, sender: Sender, limits: seq<EventRateLimit>, clock: seq<nat>, n: nat)
    requires n < |limits| <= |clock|
    ensures SomeLimited(store, sender, limits, clock, n + 1)
            <==> SomeLimited(store, sender, limits, clock, n) || LimitedBy(store, sender, limits, clock, n)
    ensures After(store, Hits(sender, limits[..n + 1], clock))
            == var s := After(store, Hits(sender, limits[..n], clock));
               if Applies(limits[n], sender.kind) then AfterHit(s, LimitHit(sender, limits[n], clock[n])) else s
  {
    NextSomeLimited(store, sender, limits, clock, n);
    NextHits(sender, limits, clock, n);
    var hits := Hits(sender, limits[..n], clock);
    if Applies(limits[n], sender.kind) {
      AfterOneMore(store, hits, LimitHit(sender, limits[n], clock[n]));
    } else {
      assert hits + [] == hits;
    }
  }

  /** Every applicable limit is hit, whatever the earlier ones answered. */
  method IsRateLimited(limiter: SlidingWindowRateLimiter, sender: Sender, relayPubkey: string, whitelists: Whitelists,
                       limits: seq<EventRateLimit>, clock: seq<nat>) returns (limited: bool)
    requires |limits| <= |clock|
    modifies limiter.cache
    ensures var exempt := sender.pubkey == relayPubkey
                          || (whitelists.pubkeys.Some? && sender.pubkey in whitelists.pubkeys.value)
                          || (whitelists.ipAddresses.Some? && sender.address in whitelists.ipAddresses.value);
            if exempt then !limited && limiter.cache.store == old(limiter.cache.store)
            else
              && limiter.cache.store == After(old(limiter.cache.store), Hits(sender, limits, clock))
              && (limited <==> SomeLimited(old(limiter.cache.store), sender, limits, clock, |limits|))
  {
    if Exempt(sender, relayPubkey, whitelists) {
      return false;
    }
    ghost var before := limiter.cache.store;
    limited := false;
    var n := 0;
    while n < |limits|
      invariant 0 <= n <= |limits|
      invariant limiter.cache.store == After(before, Hits(sender, limits[..n], clock))
      invariant limited <==> SomeLimited(before, sender, limits, clock, n)
    {
      NextLimit(before, sender, limits, clock, n);
      if Applies(limits[n], sender.kind) {
        var isRateLimited := HitLimit(limiter, sender, limits[n], clock[n]);
        if isRateLimited {
          limited := true;
        }
      }
      n := n + 1;
    }
    assert limits[..n] == limits;
  }

  method HitLimit(limiter: SlidingWindowRateLimiter, sender: Sender, limit: EventRateLimit,
                  now: nat) returns (limited: bool)
    modifies limiter.cache
    ensures limiter.cache.store == AfterHit(old(limiter.cache.store), LimitHit(sender, limit, now))
    ensures limited == Limited(old(limiter.cache.store), LimitHit(sender, limit, now), limit.rate)
  {
    limited := limiter.Hit(EventKey(sender.pubkey, limit.period, limit.kinds), 1, limit.period, limit.rate, now);
  }

  lemma {:induction false} AfterAppends(past: seq<HitRecord>, hits: seq<HitRecord>)
    ensures After(AfterHits(past), hits) == AfterHits(past + hits)
  {
    if hits == [] {
      assert past + hits == past;
    } else {
      var n := |hits| - 1;
      AfterAppends(past, hits[..n]);
      assert (past + hits)[..|past + hits| - 1] == past + hits[..n];
    }
  }

  /** A limit rejects exactly when its own window, over the whole history of hits, is over its rate. */
  lemma LimitedByMeansFullWindow(past: seq<HitRecord>, sender: Sender, limits: seq<EventRateLimit>,
                                 clock: seq<nat>, i: nat)
    requires i < |limits| <= |clock| && Applies(limits[i], sender.kind)
    requires var h := LimitHit(sender, limits[i], clock[i]);
             IsRun(past + Hits(sender, limits[..i], clock) + [h])
    ensures var h := LimitHit(sender, limits[i], clock[i]);
            var history := past + Hits(sender, limits[..i], clock) + [h];
            LimitedBy(AfterHits(past), sender, limits, clock, i)
            <==> Total(Window(history, h.key, h.period, h.timestamp)) > limits[i].rate
  {
    var hits := Hits(sender, limits[..i], clock);
    AfterAppends(past, hits);
    AnswerIsFullWindow(past + hits, LimitHit(sender, limits[i], clock[i]), limits[i].rate);
  }

  /** A hit by another author, or under another limit, lands in another bucket. */
  lemma BucketsAreSeparate(a: Sender, b: Sender, limit: EventRateLimit, other: EventRateLimit, now: nat, later: nat)
    requires |a.pubkey| == |b.pubkey|
    ensures LimitHit(a, limit, now).key == LimitHit(b, other, later).key
            <==> a.pubkey == b.pubkey && limit.period == other.period && limit.kinds == other.kinds
  {
    if LimitHit(a, limit, now).key == LimitHit(b, other, later).key {
      KeyInjective(a.pubkey, limit.period, limit.kinds, b.pubkey, other.period, other.kinds);
    }
  }
}
