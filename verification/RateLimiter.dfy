/** The sliding-window rate limiter over a Redis sorted set, and what its answers mean for the hit history. */
module RateLimiter {
  import opened Strings
  import opened Wrappers

  // ---- members of the sorted set --------------------------------------------------------

  /** What one hit adds: the member "timestamp:step", scored by the timestamp. */
  datatype Member = Member(timestamp: nat, step: nat)

  function Print(m: Member): string {
    Decimal(m.timestamp) + ":" + Decimal(m.step)
  }

  function Split(s: string, c: char): (parts: seq<string>)
    ensures |parts| >= 1
  {
    if s == "" then [""]
    else
      var rest := Split(s[1..], c);
      if s[0] == c then [""] + rest else [[s[0]] + rest[0]] + rest[1..]
  }

  predicate IsDecimal(s: string) {
    forall i :: 0 <= i < |s| ==> IsDecimalDigit(s[i])
  }

  /** Number(member.split(':')[1]), for members whose second part is a decimal number. */
  function StepOf(member: string): nat {
    var parts := Split(member, ':');
    if |parts| > 1 && IsDecimal(parts[1]) then DecimalValue(parts[1]) else 0
  }

  lemma {:induction false} SplitDigits(d: string, rest: string, c: char)
    requires IsDecimal(d) && !IsDecimalDigit(c)
    ensures Split(d + [c] + rest, c) == [d] + Split(rest, c)
  {
    var s := d + [c] + rest;
    if d == "" {
      assert s[1..] == rest;
    } else {
      SplitDigits(d[1..], rest, c);
      assert s[1..] == d[1..] + [c] + rest && IsDecimalDigit(d[0]);
      assert [d[0]] + d[1..] == d;
    }
  }

  lemma {:induction false} SplitOnlyDigits(d: string, c: char)
    requires IsDecimal(d) && !IsDecimalDigit(c)
    ensures Split(d, c) == [d]
  {
    if d != "" {
      SplitOnlyDigits(d[1..], c);
      assert IsDecimalDigit(d[0]) && [d[0]] + d[1..] == d;
    }
  }

  lemma MemberRoundTrip(m: Member)
    ensures StepOf(Print(m)) == m.step
  {
    SplitDigits(Decimal(m.timestamp), Decimal(m.step), ':');
    SplitOnlyDigits(Decimal(m.step), ':');
    DecimalRoundTrip(m.step);
  }

  lemma PrintInjective(m: Member, n: Member)
    requires Print(m) == Print(n)
    ensures m == n
  {
    var a, b := ":" + Decimal(m.step), ":" + Decimal(n.step);
    assert Print(m) == Decimal(m.timestamp) + a && Print(n) == Decimal(n.timestamp) + b;
    DecimalPrefix(m.timestamp, n.timestamp, a, b);
    MemberRoundTrip(m);
    MemberRoundTrip(n);
  }

  // ---- the keyed store ------------------------------------------------------------------

  type SortedSet = map<string, nat>

  datatype Entry = Entry(members: SortedSet, expiry: Option<nat>)

  type Store = map<string, Entry>

  /** The members a command at time now sees: an expired key is gone, an absent one is empty. */
  function Live(store: Store, key: string, now: nat): SortedSet {
    if key in store && !(store[key].expiry.Some? && store[key].expiry.value < now) then store[key].members
    else map[]
  }

  function LiveExpiry(store: Store, key: string, now: nat): Option<nat> {
    if key in store && !(store[key].expiry.Some? && store[key].expiry.value < now) then store[key].expiry
    else None
  }

  /** An emptied sorted set is removed together with its expiry. */
  function Put(store: Store, key: string, members: SortedSet, expiry: Option<nat>): Store {
    if members == map[] then store - {key} else store[key := Entry(members, expiry)]
  }

  /** ZREMRANGEBYSCORE key min max */
  function Prune(store: Store, key: string, min: int, max: int, now: nat): Store {
    var live := Live(store, key, now);
    Put(store, key, map m | m in live && !(min <= live[m] <= max) :: live[m], LiveExpiry(store, key, now))
  }

  /** ZADD key score member */
  function Add(store: Store, key: string, member: string, score: nat, now: nat): Store {
    Put(store, key, Live(store, key, now)[member := score], LiveExpiry(store, key, now))
  }

  /** EXPIRE key seconds: nothing on an absent key, a deletion when the time is not positive. */
  function Expire(store: Store, key: string, seconds: nat, now: nat): Store {
    if seconds == 0 then store - {key}
    else Put(store, key, Live(store, key, now), Some(now + 1000 * seconds))
  }

  /** Nothing but the key's own entry differs. */
  ghost predicate OnlyKeyChanges(was: Store, now: Store, key: string) {
    forall k :: k != key ==> (k in now <==> k in was) && (k in was ==> now[k] == was[k])
  }

  class RedisAdapter {
    var store: Store

    constructor ()
      ensures store == map[]
    {
      store := map[];
    }

    method RemoveRangeByScoreFromSortedSet(key: string, min: int, max: int, now: nat)
      modifies this
      ensures store == Prune(old(store), key, min, max, now)
      ensures var was, left := old(Live(store, key, now)), Live(store, key, now);
              && (forall m :: m in left <==> m in was && !(min <= was[m] <= max))
              && (forall m :: m in left ==> left[m] == was[m])
              && (left != map[] ==> LiveExpiry(store, key, now) == old(LiveExpiry(store, key, now)))
      ensures OnlyKeyChanges(old(store), store, key)
    {
      var live := Live(store, key, now);
      store := Put(store, key, map m | m in live && !(min <= live[m] <= max) :: live[m], LiveExpiry(store, key, now));
    }

    method AddToSortedSet(key: string, member: string, score: nat, now: nat)
      modifies this
      ensures store == Add(old(store), key, member, score, now)
      ensures member in Live(store, key, now) && Live(store, key, now)[member] == score
      ensures forall m :: m != member ==>
                (m in Live(store, key, now) <==> m in old(Live(store, key, now)))
                && (m in Live(store, key, now) ==> Live(store, key, now)[m] == old(Live(store, key, now))[m])
      ensures LiveExpiry(store, key, now) == old(LiveExpiry(store, key, now))
      ensures OnlyKeyChanges(old(store), store, key)
    {
      store := Put(store, key, Live(store, key, now)[member := score], LiveExpiry(store, key, now));
    }

    /** ZRANGE key 0 -1: every member once, in some order. */
    method GetRangeFromSortedSet(key: string, now: nat) returns (members: seq<string>)
      ensures Enumerates(members, Live(store, key, now).Keys)
    {
      var rest := Live(store, key, now).Keys;
      members := [];
      ghost var all := rest;
      while rest != {}
        invariant rest <= all && Enumerates(members, all - rest)
        decreases rest
      {
        var m :| m in rest;
        assert all - (rest - {m}) == (all - rest) + {m};
        members, rest := members + [m], rest - {m};
      }
      assert all - {} == all;
    }

    method SetKeyExpiry(key: string, expiry: nat, now: nat)
      modifies this
      ensures store == Expire(old(store), key, expiry, now)
      ensures forall later: nat ::
                Live(store, key, later)
                == if expiry > 0 && later <= now + 1000 * expiry then old(Live(store, key, now)) else map[]
      ensures OnlyKeyChanges(old(store), store, key)
    {
      if expiry == 0 {
        store := store - {key};
      } else {
        store := Put(store, key, Live(store, key, now), Some(now + 1000 * expiry));
      }
    }
  }

  ghost predicate Enumerates<T(!new)>(s: seq<T>, all: set<T>) {
    && (forall x :: x in s <==> x in all)
    && (forall i, j :: 0 <= i < j < |s| ==> s[i] != s[j])
  }

  // ---- totals ---------------------------------------------------------------------------

  function SumSteps(members: seq<string>): nat {
    if members == [] then 0 else SumSteps(members[..|members| - 1]) + StepOf(members[|members| - 1])
  }

  /** The sum of the steps of a set of members. */
  ghost function Total(ms: set<Member>): nat {
    if ms == {} then 0 else
    var m :| m in ms;
    m.step + Total(ms - {m})
  }

  lemma {:induction false} TotalRemove(ms: set<Member>, m: Member)
    requires m in ms
    ensures Total(ms) == m.step + Total(ms - {m})
    decreases ms
  {
    var x :| x in ms && Total(ms) == x.step + Total(ms - {x});
    if x != m {
      TotalRemove(ms - {x}, m);
      TotalRemove(ms - {m}, x);
      assert ms - {x} - {m} == ms - {m} - {x};
    }
  }

  lemma {:induction false} TotalMonotonic(ms: set<Member>, ns: set<Member>)
    requires ms <= ns
    ensures Total(ms) <= Total(ns)
    decreases ms
  {
    if ms != {} {
      var m :| m in ms;
      TotalRemove(ms, m);
      TotalRemove(ns, m);
      TotalMonotonic(ms - {m}, ns - {m});
    }
  }

  lemma {:induction false} TotalOfUnitSteps(ms: set<Member>)
    requires forall m :: m in ms ==> m.step == 1
    ensures Total(ms) == |ms|
    decreases ms
  {
    if ms != {} {
      var m :| m in ms;
      TotalRemove(ms, m);
      TotalOfUnitSteps(ms - {m});
    }
  }

  ghost function Printed(ms: set<Member>): set<string> {
    set m | m in ms :: Print(m)
  }

  /** The same sum, over the members as the sorted set stores them. */
  ghost function TotalOf(members: set<string>): nat {
    if members == {} then 0 else
    var s :| s in members;
    StepOf(s) + TotalOf(members - {s})
  }

  lemma {:induction false} TotalOfRemove(members: set<string>, s: string)
    requires s in members
    ensures TotalOf(members) == StepOf(s) + TotalOf(members - {s})
    decreases members
  {
    var x :| x in members && TotalOf(members) == StepOf(x) + TotalOf(members - {x});
    if x != s {
      TotalOfRemove(members - {x}, s);
      TotalOfRemove(members - {s}, x);
      assert members - {x} - {s} == members - {s} - {x};
    }
  }

  /** The reduce over ZRANGE's answer does not depend on its order. */
  lemma {:induction false} SumIsTotal(members: seq<string>, all: set<string>)
    requires Enumerates(members, all)
    ensures SumSteps(members) == TotalOf(all)
    decreases |members|
  {
    if members == [] {
      assert all == {};
    } else {
      var last, front := members[|members| - 1], members[..|members| - 1];
      assert last in members;
      forall x ensures x in front <==> x in all - {last} {
        EnumeratesFront(members, all, x);
      }
      SumIsTotal(front, all - {last});
      TotalOfRemove(all, last);
    }
  }

  lemma EnumeratesFront<T(!new)>(s: seq<T>, all: set<T>, x: T)
    requires s != [] && Enumerates(s, all)
    ensures x in s[..|s| - 1] <==> x in all && x != s[|s| - 1]
  {
    var front := s[..|s| - 1];
    if x in front {
      var i :| 0 <= i < |front| && front[i] == x;
      assert s[i] == x;
    }
    if x in all && x != s[|s| - 1] {
      var i :| 0 <= i < |s| && s[i] == x;
      assert front[i] == x;
    }
  }

  /** Printing loses no member and no step. */
  lemma {:induction false} PrintedTotal(ms: set<Member>)
    ensures TotalOf(Printed(ms)) == Total(ms)
    decreases ms
  {
    if ms == {} {
      assert Printed(ms) == {};
    } else {
      var m :| m in ms;
      forall s ensures s in Printed(ms - {m}) <==> s in Printed(ms) - {Print(m)} {
        if s in Printed(ms - {m}) {
          var n :| n in ms - {m} && Print(n) == s;
          if s == Print(m) { PrintInjective(m, n); }
        }
      }
      assert Printed(ms - {m}) == Printed(ms) - {Print(m)};
      PrintedTotal(ms - {m});
      TotalOfRemove(Printed(ms), Print(m));
      TotalRemove(ms, m);
      MemberRoundTrip(m);
    }
  }

  // ---- hits -----------------------------------------------------------------------------

  datatype HitRecord = HitRecord(key: string, timestamp: nat, step: nat, period: nat)

  function MemberOf(h: HitRecord): Member {
    Member(h.timestamp, h.step)
  }

  /** The members summed for a hit: the live ones still in the window, and its own. */
  function HitMembers(store: Store, h: HitRecord): SortedSet {
    var live := Live(store, h.key, h.timestamp);
    (map m | m in live && !(0 <= live[m] <= h.timestamp - h.period) :: live[m])[Print(MemberOf(h)) := h.timestamp]
  }

  /** The period, in milliseconds, is what the key's expiry in seconds is set to. */
  function AfterHit(store: Store, h: HitRecord): Store {
    if h.period == 0 then store - {h.key}
    else store[h.key := Entry(HitMembers(store, h), Some(h.timestamp + 1000 * h.period))]
  }

  /** The answer to a hit, as computed from the pruned and expiring set. */
  ghost predicate Limited(store: Store, h: HitRecord, rate: nat) {
    TotalOf(HitMembers(store, h).Keys) > rate
  }

  /** The four commands of a hit, in the order the connection sends them, have that effect. */
  lemma CommandsOfHit(store: Store, h: HitRecord, pruned: Store, counted: Store)
    requires pruned == Prune(store, h.key, 0, h.timestamp - h.period, h.timestamp)
    requires counted == Add(pruned, h.key, Print(MemberOf(h)), h.timestamp, h.timestamp)
    ensures Live(counted, h.key, h.timestamp) == HitMembers(store, h)
    ensures Expire(counted, h.key, h.period, h.timestamp) == AfterHit(store, h)
  {
    var key, live := h.key, Live(store, h.key, h.timestamp);
    var kept := map m | m in live && !(0 <= live[m] <= h.timestamp - h.period) :: live[m];
    assert pruned == Put(store, key, kept, LiveExpiry(store, key, h.timestamp));
    assert Live(pruned, key, h.timestamp) == kept;
    assert Print(MemberOf(h)) in HitMembers(store, h);
    assert counted == store[key := counted[key]] && counted[key].members == HitMembers(store, h);
    assert counted - {key} == store - {key};
  }

  class SlidingWindowRateLimiter {
    const cache: RedisAdapter

    constructor (cache: RedisAdapter)
      ensures this.cache == cache
    {
      this.cache := cache;
    }

    /** The four commands of one hit, in the order the connection sends them. */
    method Hit(key: string, step: nat, period: nat, rate: nat, timestamp: nat) returns (limited: bool)
      modifies cache
      ensures var h := HitRecord(key, timestamp, step, period);
              && cache.store == AfterHit(old(cache.store), h)
              && limited == Limited(old(cache.store), h, rate)
    {
      ghost var before := cache.store;
      ghost var h := HitRecord(key, timestamp, step, period);
      var member := Print(Member(timestamp, step));
      cache.RemoveRangeByScoreFromSortedSet(key, 0, timestamp - period, timestamp);
      ghost var pruned := cache.store;
      cache.AddToSortedSet(key, member, timestamp, timestamp);
      CommandsOfHit(before, h, pruned, cache.store);
      var entries := cache.GetRangeFromSortedSet(key, timestamp);
      SumIsTotal(entries, Live(cache.store, key, timestamp).Keys);
      cache.SetKeyExpiry(key, period, timestamp);
      var hits := SumEntries(entries);
      limited := hits > rate;
    }

    method SumEntries(entries: seq<string>) returns (hits: nat)
      ensures hits == SumSteps(entries)
    {
      hits := 0;
      var i := 0;
      while i < |entries|
        invariant 0 <= i <= |entries|
        invariant hits == SumSteps(entries[..i])
      {
        hits := hits + StepOf(entries[i]);
        assert entries[..i + 1][..i] == entries[..i];
        i := i + 1;
      }
      assert entries[..i] == entries;
    }
  }

  // ---- runs -----------------------------------------------------------------------------

  ghost function AfterHits(hits: seq<HitRecord>): Store {
    if hits == [] then map[] else AfterHit(AfterHits(hits[..|hits| - 1]), hits[|hits| - 1])
  }

  /** A run the limiter is used in: the clock never goes back, and a key always has the same positive period. */
  ghost predicate IsRun(hits: seq<HitRecord>) {
    && (forall i, j :: 0 <= i <= j < |hits| ==> hits[i].timestamp <= hits[j].timestamp)
    && (forall i, j :: 0 <= i < j < |hits| && hits[i].key == hits[j].key ==> hits[i].period == hits[j].period)
    && (forall i :: 0 <= i < |hits| ==> hits[i].period > 0)
  }

  /** The distinct members of the whole history of a key, in the window (now - period, now]. */
  ghost function Window(hits: seq<HitRecord>, key: string, period: nat, now: nat): set<Member> {
    set i | 0 <= i < |hits| && hits[i].key == key && now - period < hits[i].timestamp <= now :: MemberOf(hits[i])
  }

  /** What the limiter's set for a key holds after a run, given the time of the last hit on the key. */
  ghost predicate Tracks(store: Store, hits: seq<HitRecord>, key: string) {
    if key in store then
      exists last: nat :: LastOn(hits, key, last) && TracksSince(store[key], hits, key, hits[last])
    else
      forall i :: 0 <= i < |hits| ==> hits[i].key != key
  }

  predicate LastOn(hits: seq<HitRecord>, key: string, last: nat) {
    && last < |hits| && hits[last].key == key
    && (forall i :: last < i < |hits| ==> hits[i].key != key)
  }

  ghost predicate TracksSince(entry: Entry, hits: seq<HitRecord>, key: string, last: HitRecord) {
    && entry.expiry == Some(last.timestamp + 1000 * last.period)
    && entry.members.Keys == Printed(Window(hits, key, last.period, last.timestamp))
    && (forall m: Member :: Print(m) in entry.members ==> entry.members[Print(m)] == m.timestamp)
  }

  lemma OtherKeysUntouched(store: Store, h: HitRecord, key: string)
    requires key != h.key
    ensures key in AfterHit(store, h) <==> key in store
    ensures key in store ==> AfterHit(store, h)[key] == store[key]
  {
  }

  /** A hit on the key sees the window of the last hit, cut at the new time, plus itself. */
  lemma WindowMoves(hits: seq<HitRecord>, h: HitRecord, last: nat)
    requires IsRun(hits + [h])
    requires LastOn(hits, h.key, last)
    ensures hits[last].period == h.period
    ensures var w := Window(hits, h.key, h.period, hits[last].timestamp);
            Window(hits + [h], h.key, h.period, h.timestamp)
            == (set m | m in w && m.timestamp > h.timestamp - h.period) + {MemberOf(h)}
  {
    var all := hits + [h];
    var w := Window(hits, h.key, h.period, hits[last].timestamp);
    var cut := (set m | m in w && m.timestamp > h.timestamp - h.period) + {MemberOf(h)};
    var next := Window(all, h.key, h.period, h.timestamp);
    assert all[last] == hits[last] && all[|hits|] == h;
    forall m | m in next ensures m in cut {
      var i :| 0 <= i < |all| && all[i].key == h.key && h.timestamp - h.period < all[i].timestamp <= h.timestamp
               && m == MemberOf(all[i]);
      if i < |hits| {
        assert all[i] == hits[i] && i <= last;
        assert all[i].timestamp <= all[last].timestamp <= h.timestamp;
      }
    }
    forall m | m in cut ensures m in next {
      if m != MemberOf(h) {
        var i :| 0 <= i < |hits| && hits[i].key == h.key
                 && hits[last].timestamp - h.period < hits[i].timestamp <= hits[last].timestamp
                 && m == MemberOf(hits[i]);
        assert all[i] == hits[i];
        assert all[i].timestamp <= all[|hits|].timestamp;
      } else {
        assert MemberOf(all[|hits|]) == m;
      }
    }
  }

  /** The first hit on a key sees only itself. */
  lemma WindowStarts(hits: seq<HitRecord>, h: HitRecord)
    requires IsRun(hits + [h])
    requires forall i :: 0 <= i < |hits| && hits[i].key == h.key ==> hits[i].timestamp <= h.timestamp - h.period
    ensures Window(hits + [h], h.key, h.period, h.timestamp) == {MemberOf(h)}
  {
    var all := hits + [h];
    assert forall i :: 0 <= i < |hits| ==> all[i] == hits[i];
    assert all[|hits|] == h && MemberOf(all[|hits|]) in Window(all, h.key, h.period, h.timestamp);
  }

  ghost predicate Scored(members: SortedSet) {
    forall m: Member :: Print(m) in members ==> members[Print(m)] == m.timestamp
  }

  /** Pruning and expiry lose nothing: the limiter sums exactly the full history's window. */
  lemma CountedIsWindow(store: Store, hits: seq<HitRecord>, h: HitRecord)
    requires IsRun(hits + [h]) && Tracks(store, hits, h.key)
    ensures var live := HitMembers(store, h);
            && live.Keys == Printed(Window(hits + [h], h.key, h.period, h.timestamp))
            && Scored(live)
  {
    var all := hits + [h];
    assert all[|hits|] == h && forall i :: 0 <= i < |hits| ==> all[i] == hits[i];
    var key := h.key;
    var before := Live(store, key, h.timestamp);
    var live := HitMembers(store, h);
    var next := Window(all, key, h.period, h.timestamp);
    if key in store {
      var last: nat :| LastOn(hits, key, last) && TracksSince(store[key], hits, key, hits[last]);
      WindowMoves(hits, h, last);
      var w := Window(hits, key, h.period, hits[last].timestamp);
      assert all[last].timestamp <= h.timestamp;
      if before == map[] {
        forall i | 0 <= i < |hits| && hits[i].key == key ensures hits[i].timestamp <= h.timestamp - h.period {
          LastIsLatest(hits, h, last, i);
          assert MemberOf(hits[last]) in w;
          assert Print(MemberOf(hits[last])) in store[key].members;
        }
        WindowStarts(hits, h);
        OneMember(live, MemberOf(h), next);
      } else {
        CutMembers(before, live, w, h, next);
      }
    } else {
      WindowStarts(hits, h);
      OneMember(live, MemberOf(h), next);
    }
  }

  lemma LastIsLatest(hits: seq<HitRecord>, h: HitRecord, last: nat, i: nat)
    requires IsRun(hits + [h]) && i < |hits|
    requires LastOn(hits, hits[i].key, last)
    ensures hits[i].timestamp <= hits[last].timestamp
  {
    var all := hits + [h];
    assert all[i] == hits[i] && all[last] == hits[last];
  }

  lemma OneMember(live: SortedSet, m: Member, next: set<Member>)
    requires live == map[Print(m) := m.timestamp] && next == {m}
    ensures live.Keys == Printed(next) && Scored(live)
  {
    forall n: Member | Print(n) in live ensures n == m {
      PrintInjective(m, n);
    }
    assert Printed(next) == {Print(m)};
  }

  lemma CutMembers(before: SortedSet, live: SortedSet, w: set<Member>, h: HitRecord, next: set<Member>)
    requires before.Keys == Printed(w) && Scored(before)
    requires live == (map s | s in before && !(0 <= before[s] <= h.timestamp - h.period) :: before[s])
                     [Print(MemberOf(h)) := h.timestamp]
    requires next == (set m | m in w && m.timestamp > h.timestamp - h.period) + {MemberOf(h)}
    ensures live.Keys == Printed(next) && Scored(live)
  {
    forall m: Member | Print(m) in live ensures live[Print(m)] == m.timestamp {
      if Print(m) == Print(MemberOf(h)) {
        PrintInjective(m, MemberOf(h));
      }
    }
    forall s ensures s in live <==> s in Printed(next) {
      if s in live && s != Print(MemberOf(h)) {
        var m :| m in w && Print(m) == s;
        assert m in next;
      }
      if s in Printed(next) {
        var m :| m in next && Print(m) == s;
        if m != MemberOf(h) {
          assert Print(m) in Printed(w);
        }
      }
    }
  }

  lemma TracksOtherKey(store: Store, next: Store, hits: seq<HitRecord>, h: HitRecord, key: string)
    requires Tracks(store, hits, key) && h.key != key
    requires key in next <==> key in store
    requires key in store ==> next[key] == store[key]
    ensures Tracks(next, hits + [h], key)
  {
    var all := hits + [h];
    if key in store {
      var last: nat :| LastOn(hits, key, last) && TracksSince(store[key], hits, key, hits[last]);
      WindowUnchanged(hits, h, key, hits[last].period, hits[last].timestamp);
      assert all[last] == hits[last];
      assert LastOn(all, key, last) && TracksSince(store[key], all, key, all[last]);
    }
  }

  lemma TracksOwnKey(store: Store, hits: seq<HitRecord>, h: HitRecord)
    requires IsRun(hits + [h]) && Tracks(store, hits, h.key)
    ensures Tracks(AfterHit(store, h), hits + [h], h.key)
  {
    CountedIsWindow(store, hits, h);
    var all, live := hits + [h], HitMembers(store, h);
    assert Print(MemberOf(h)) in live;
    assert all[|hits|] == h && h.period > 0;
    assert hits + [h] == all;
    assert AfterHit(store, h)[h.key] == Entry(live, Some(h.timestamp + 1000 * h.period));
    assert LastOn(all, h.key, |hits|) && TracksSince(AfterHit(store, h)[h.key], all, h.key, all[|hits|]);
  }

  lemma {:induction false} RunTracks(hits: seq<HitRecord>, key: string)
    requires IsRun(hits)
    ensures Tracks(AfterHits(hits), hits, key)
  {
    if hits != [] {
      var n := |hits| - 1;
      var front, h := hits[..n], hits[n];
      assert front + [h] == hits;
      RunTracks(front, key);
      if h.key != key {
        OtherKeysUntouched(AfterHits(front), h, key);
        TracksOtherKey(AfterHits(front), AfterHits(hits), front, h, key);
      } else {
        TracksOwnKey(AfterHits(front), front, h);
      }
    }
  }

  lemma WindowUnchanged(hits: seq<HitRecord>, h: HitRecord, key: string, period: nat, now: nat)
    requires h.key != key
    ensures Window(hits + [h], key, period, now) == Window(hits, key, period, now)
  {
    var all := hits + [h];
    forall m ensures m in Window(all, key, period, now) <==> m in Window(hits, key, period, now) {
      if m in Window(hits, key, period, now) {
        var i :| 0 <= i < |hits| && hits[i].key == key && now - period < hits[i].timestamp <= now
                 && MemberOf(hits[i]) == m;
        assert all[i] == hits[i];
      }
    }
  }

  /** The limiter's answer to a hit is a statement about the whole history. */
  lemma AnswerIsFullWindow(hits: seq<HitRecord>, h: HitRecord, rate: nat)
    requires IsRun(hits + [h])
    ensures Limited(AfterHits(hits), h, rate)
            <==> Total(Window(hits + [h], h.key, h.period, h.timestamp)) > rate
  {
    var all := hits + [h];
    assert forall i :: 0 <= i < |hits| ==> hits[i] == all[i];
    RunTracks(hits, h.key);
    CountedIsWindow(AfterHits(hits), hits, h);
    PrintedTotal(Window(all, h.key, h.period, h.timestamp));
  }

  ghost predicate ClockRuns(hits: seq<HitRecord>) {
    forall i, j :: 0 <= i <= j < |hits| ==> hits[i].timestamp <= hits[j].timestamp
  }

  /** No member has a score later than the last hit. */
  lemma {:induction false} ScoresArePast(hits: seq<HitRecord>, key: string, now: nat)
    requires ClockRuns(hits) && (hits != [] ==> hits[|hits| - 1].timestamp <= now) && key in AfterHits(hits)
    ensures forall m :: m in AfterHits(hits)[key].members ==> AfterHits(hits)[key].members[m] <= now
  {
    var front, h := hits[..|hits| - 1], hits[|hits| - 1];
    if key in AfterHits(front) {
      ScoresArePast(front, key, now);
    }
  }

  /** With a period of zero only the hit itself is counted, although the window (now, now] is empty: whatever
      the history, the answer is that of the window if and only if the step is within the rate. */
  lemma ZeroPeriodCountsItself(hits: seq<HitRecord>, h: HitRecord, rate: nat)
    requires ClockRuns(hits + [h]) && h.period == 0
    ensures Limited(AfterHits(hits), h, rate) <==> h.step > rate
    ensures (Limited(AfterHits(hits), h, rate) <==> Total(Window(hits + [h], h.key, 0, h.timestamp)) > rate)
            <==> h.step <= rate
  {
    var all, store := hits + [h], AfterHits(hits);
    var m := MemberOf(h);
    assert forall i :: 0 <= i < |hits| ==> hits[i] == all[i];
    assert all[|hits|] == h;
    if h.key in store {
      ScoresArePast(hits, h.key, h.timestamp);
    }
    assert HitMembers(store, h).Keys == Printed({m});
    assert Window(all, h.key, 0, h.timestamp) == {};
    PrintedTotal({m});
    TotalRemove({m}, m);
  }

  // ---- the bound that rate limiting is for ----------------------------------------------

  /** Hit i of a run was answered "not limited". */
  ghost predicate Accepted(hits: seq<HitRecord>, rate: nat, i: nat)
    requires i < |hits|
  {
    !Limited(AfterHits(hits[..i]), hits[i], rate)
  }

  ghost function MembersAt(hits: seq<HitRecord>, at: set<nat>): set<Member>
    requires forall i :: i in at ==> i < |hits|
  {
    set i | i in at :: MemberOf(hits[i])
  }

  /** In every window (end - period, end], whenever it ends, any accepted hits have distinct members that
      together stay within the rate. */
  lemma WindowBound(hits: seq<HitRecord>, rate: nat, key: string, period: nat, end: int, at: set<nat>)
    requires IsRun(hits)
    requires forall i :: 0 <= i < |hits| && hits[i].key == key ==> hits[i].period == period
    requires forall i :: i in at ==>
      i < |hits| && hits[i].key == key && end - period < hits[i].timestamp <= end && Accepted(hits, rate, i)
    ensures Total(MembersAt(hits, at)) <= rate
  {
    if at == {} {
      assert MembersAt(hits, at) == {};
    } else {
      var i := Largest(at);
      var h, before := hits[i], hits[..i];
      assert before + [h] == hits[..i + 1];
      AnswerIsFullWindow(before, h, rate);
      MembersInWindow(hits, key, period, end, at, i);
      TotalMonotonic(MembersAt(hits, at), Window(hits[..i + 1], key, period, h.timestamp));
    }
  }

  lemma MembersInWindow(hits: seq<HitRecord>, key: string, period: nat, end: int, at: set<nat>, i: nat)
    requires IsRun(hits) && i in at && forall j :: j in at ==> j <= i
    requires forall j :: j in at ==> j < |hits| && hits[j].key == key && end - period < hits[j].timestamp <= end
    ensures MembersAt(hits, at) <= Window(hits[..i + 1], key, period, hits[i].timestamp)
  {
    forall m | m in MembersAt(hits, at) ensures m in Window(hits[..i + 1], key, period, hits[i].timestamp) {
      var j :| j in at && MemberOf(hits[j]) == m;
      assert hits[..i + 1][j] == hits[j] && hits[j].timestamp <= hits[i].timestamp;
    }
  }

  lemma {:induction false} Largest(s: set<nat>) returns (max: nat)
    requires s != {}
    ensures max in s && forall i :: i in s ==> i <= max
    decreases s
  {
    var x :| x in s;
    if s == {x} {
      max := x;
    } else {
      var other := Largest(s - {x});
      max := if other > x then other else x;
      forall i | i in s ensures i <= max {
        assert i == x || i in s - {x};
      }
    }
  }

  /** Accepted unit hits at distinct times: no window holds more of them than the rate. */
  lemma WindowBoundOnHits(hits: seq<HitRecord>, rate: nat, key: string, period: nat, end: int, at: set<nat>)
    requires IsRun(hits)
    requires forall i :: 0 <= i < |hits| && hits[i].key == key ==> hits[i].period == period && hits[i].step == 1
    requires forall i :: i in at ==>
      i < |hits| && hits[i].key == key && end - period < hits[i].timestamp <= end && Accepted(hits, rate, i)
    requires forall i, j :: i in at && j in at && i != j ==> hits[i].timestamp != hits[j].timestamp
    ensures |at| <= rate
  {
    WindowBound(hits, rate, key, period, end, at);
    TotalOfUnitSteps(MembersAt(hits, at));
    DistinctMembers(hits, at);
  }

  lemma {:induction false} DistinctMembers(hits: seq<HitRecord>, at: set<nat>)
    requires forall i :: i in at ==> i < |hits|
    requires forall i, j :: i in at && j in at && i != j ==> hits[i].timestamp != hits[j].timestamp
    ensures |MembersAt(hits, at)| == |at|
    decreases at
  {
    if at == {} {
      assert MembersAt(hits, at) == {};
    } else {
      var i :| i in at;
      DistinctMembers(hits, at - {i});
      assert MembersAt(hits, at) == MembersAt(hits, at - {i}) + {MemberOf(hits[i])};
    }
  }

  /** Hits of the same millisecond count once: any number of them pass a limit of one. */
  lemma SameMillisecondPasses(n: nat, key: string, timestamp: nat, period: nat, i: nat)
    requires period > 0 && i < n
    ensures Accepted(seq(n, _ => HitRecord(key, timestamp, 1, period)), 1, i)
  {
    var h := HitRecord(key, timestamp, 1, period);
    var hits := seq(n, _ => h);
    var upTo := hits[..i] + [h];
    AnswerIsFullWindow(hits[..i], h, 1);
    assert upTo[i] == h;
    assert Window(upTo, key, period, timestamp) == {MemberOf(h)};
    TotalRemove({MemberOf(h)}, MemberOf(h));
  }
}
