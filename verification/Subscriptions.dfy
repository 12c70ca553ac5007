/** The subscriptions of one client: what a REQ registers, what it refuses, and what the table holds after any run. */
module Subscriptions {
  import opened Events
  import opened Sets
  import opened Strings
  import opened Wrappers

  type SubscriptionId = string

  datatype Entry = Entry(id: SubscriptionId, filters: seq<Filter>)

  /** A map in the order of its keys' insertion. */
  type Table = seq<Entry>

  datatype OutgoingMessage =
    | EventMessage(id: SubscriptionId, event: Event)
    | EndOfStoredEvents(id: SubscriptionId)
    | Notice(text: string)

  // ---- the table ------------------------------------------------------------------------

  function Get(t: Table, id: SubscriptionId): Option<seq<Filter>> {
    if t == [] then None else if t[0].id == id then Some(t[0].filters) else Get(t[1..], id)
  }

  /** A known key keeps its place. */
  function Set(t: Table, id: SubscriptionId, filters: seq<Filter>): Table {
    if t == [] then [Entry(id, filters)]
    else if t[0].id == id then [Entry(id, filters)] + t[1..]
    else [t[0]] + Set(t[1..], id, filters)
  }

  function Delete(t: Table, id: SubscriptionId): Table {
    if t == [] then [] else if t[0].id == id then t[1..] else [t[0]] + Delete(t[1..], id)
  }

  predicate DistinctIds(t: Table) {
    forall i, j :: 0 <= i < j < |t| ==> t[i].id != t[j].id
  }

  lemma {:induction false} GetExact(t: Table, id: SubscriptionId)
    requires DistinctIds(t)
    ensures forall i :: 0 <= i < |t| && t[i].id == id ==> Get(t, id) == Some(t[i].filters)
    ensures Get(t, id).None? <==> forall i :: 0 <= i < |t| ==> t[i].id != id
  {
    if t != [] {
      var rest := t[1..];
      GetExact(rest, id);
      assert forall i :: 0 < i < |t| ==> t[i] == rest[i - 1];
      assert forall i :: 0 <= i < |rest| ==> rest[i] == t[i + 1];
    }
  }

  lemma {:induction false} SetElements(t: Table, id: SubscriptionId, filters: seq<Filter>)
    requires DistinctIds(t)
    ensures var r := Set(t, id, filters);
            && |r| == (if Get(t, id).None? then |t| + 1 else |t|)
            && (forall i :: 0 <= i < |t| ==> r[i] == if t[i].id == id then Entry(id, filters) else t[i])
            && (|r| > |t| ==> r[|t|] == Entry(id, filters))
  {
    if t != [] && t[0].id != id {
      SetElements(t[1..], id, filters);
    }
  }

  lemma SetDistinct(t: Table, id: SubscriptionId, filters: seq<Filter>)
    requires DistinctIds(t)
    ensures DistinctIds(Set(t, id, filters)) && Entry(id, filters) in Set(t, id, filters)
  {
    var r := Set(t, id, filters);
    SetElements(t, id, filters);
    GetExact(t, id);
    if i :| 0 <= i < |t| && t[i].id == id {
      assert r[i] == Entry(id, filters);
    } else {
      assert r[|t|] == Entry(id, filters);
    }
  }

  /** The map laws of registering. */
  lemma SetExact(t: Table, id: SubscriptionId, filters: seq<Filter>, other: SubscriptionId)
    requires DistinctIds(t)
    ensures DistinctIds(Set(t, id, filters))
    ensures Get(Set(t, id, filters), other) == if other == id then Some(filters) else Get(t, other)
    ensures |Set(t, id, filters)| == if Get(t, id).None? then |t| + 1 else |t|
  {
    var r := Set(t, id, filters);
    SetElements(t, id, filters);
    SetDistinct(t, id, filters);
    GetExact(r, other);
    if other != id {
      GetExact(t, other);
      if i :| 0 <= i < |t| && t[i].id == other {
        assert r[i] == t[i];
      }
    }
  }

  lemma DistinctHead(t: Table, x: Entry)
    requires t != [] && DistinctIds(t) && x in t[1..]
    ensures x.id != t[0].id
  {
    var i :| 0 <= i < |t[1..]| && t[1..][i] == x;
    assert x == t[i + 1];
  }

  lemma {:induction false} DeleteElements(t: Table, id: SubscriptionId)
    requires DistinctIds(t)
    ensures DistinctIds(Delete(t, id)) && |Delete(t, id)| <= |t|
    ensures forall x :: x in Delete(t, id) <==> x in t && x.id != id
  {
    if t != [] {
      var rest := t[1..];
      assert t == [t[0]] + rest;
      DeleteElements(rest, id);
      forall x | x in rest ensures x.id != t[0].id {
        DistinctHead(t, x);
      }
      var r := Delete(rest, id);
      assert forall i :: 0 <= i < |r| ==> r[i] in r;
    }
  }

  /** The map laws of closing. */
  lemma DeleteExact(t: Table, id: SubscriptionId, other: SubscriptionId)
    requires DistinctIds(t)
    ensures DistinctIds(Delete(t, id)) && |Delete(t, id)| <= |t|
    ensures Get(Delete(t, id), other) == if other == id then None else Get(t, other)
  {
    var r := Delete(t, id);
    DeleteElements(t, id);
    GetExact(t, other);
    GetExact(r, other);
    if i :| 0 <= i < |t| && t[i].id == other && other != id {
      assert t[i] in r;
    }
    if i :| 0 <= i < |r| && r[i].id == other {
      assert r[i] in t;
    }
  }

  // ---- which subscriptions an event reaches ---------------------------------------------

  function LiveMessages(t: Table, e: Event): seq<OutgoingMessage> {
    if t == [] then []
    else
      var last := t[|t| - 1];
      LiveMessages(t[..|t| - 1], e) + if MatchesAny(last.filters, e) then [EventMessage(last.id, e)] else []
  }

  lemma GetLast(t: Table, id: SubscriptionId)
    requires DistinctIds(t) && t != []
    ensures var front, last := t[..|t| - 1], t[|t| - 1];
            && DistinctIds(front)
            && Get(t, id) == (if last.id == id then Some(last.filters) else Get(front, id))
            && (last.id == id ==> Get(front, id).None?)
  {
    var front := t[..|t| - 1];
    GetExact(t, id);
    GetExact(front, id);
    if i :| 0 <= i < |front| && front[i].id == id {
      assert t[i].id == id;
    }
  }

  /** How often a message is sent for one entry. */
  function Sends(m: OutgoingMessage, e: Event, id: SubscriptionId, filters: Option<seq<Filter>>): nat {
    if filters.Some? && m == EventMessage(id, e) && MatchesAny(filters.value, e) then 1 else 0
  }

  lemma LastMessage(before: seq<OutgoingMessage>, m: OutgoingMessage, e: Event, id: SubscriptionId,
                    filters: seq<Filter>)
    ensures multiset(before + if MatchesAny(filters, e) then [EventMessage(id, e)] else [])[m]
            == multiset(before)[m] + Sends(m, e, id, Some(filters))
  {
  }

  /** Every matching subscription of the table gets the event exactly once, and nothing else is sent. */
  lemma {:induction false} LiveMessagesExact(t: Table, e: Event, m: OutgoingMessage)
    requires DistinctIds(t)
    ensures multiset(LiveMessages(t, e))[m] == if m.EventMessage? then Sends(m, e, m.id, Get(t, m.id)) else 0
  {
    if t != [] {
      var front, last := t[..|t| - 1], t[|t| - 1];
      GetLast(t, if m.EventMessage? then m.id else last.id);
      LiveMessagesExact(front, e, m);
      LastMessage(LiveMessages(front, e), m, e, last.id, last.filters);
    }
  }

  // ---- equality of filters --------------------------------------------------------------

  /** Structural equality, whatever the order of the keys. */
  predicate SameFilter(f: Filter, g: Filter) {
    && f.ids == g.ids && f.authors == g.authors && f.kinds == g.kinds
    && f.since == g.since && f.until == g.until && f.limit == g.limit
    && |f.tags| == |g.tags| && forall c :: c in f.tags ==> c in g.tags
  }

  predicate SameFilters(a: seq<Filter>, b: seq<Filter>) {
    |a| == |b| && forall i :: 0 <= i < |a| ==> SameFilter(a[i], b[i])
  }

  /** A filter equal to one that was kept is dropped. */
  function Unique(filters: seq<Filter>): seq<Filter> {
    if filters == [] then []
    else
      var kept, last := Unique(filters[..|filters| - 1]), filters[|filters| - 1];
      if exists g :: g in kept && SameFilter(last, g) then kept else kept + [last]
  }

  lemma SameFilterMatchesAlike(f: Filter, g: Filter, e: Event)
    requires ValidFilter(f) && SameFilter(f, g)
    ensures IsEventMatchingFilter(f, e) <==> IsEventMatchingFilter(g, e)
  {
    DistinctCount(f.tags);
    DistinctCount(g.tags);
    assert forall i, j :: 0 <= i < j < |f.tags| ==> f.tags[i].name != f.tags[j].name;
    SubsetOfSameSize(ToSet(f.tags), ToSet(g.tags));
    assert forall c :: c in g.tags ==> c in ToSet(g.tags);
    assert forall c :: c in f.tags <==> c in g.tags;
  }

  lemma {:induction false} UniqueIsDistinct(filters: seq<Filter>)
    ensures var r := Unique(filters); forall i, j :: 0 <= i < j < |r| ==> !SameFilter(r[j], r[i])
    ensures forall f :: f in Unique(filters) ==> f in filters
    ensures filters != [] ==> Unique(filters) != []
  {
    if filters != [] {
      UniqueIsDistinct(filters[..|filters| - 1]);
    }
  }

  lemma MatchesAnyLast(filters: seq<Filter>, last: Filter, e: Event)
    ensures MatchesAny(filters + [last], e) <==> MatchesAny(filters, e) || IsEventMatchingFilter(last, e)
  {
    assert last in filters + [last];
    if f :| f in filters && IsEventMatchingFilter(f, e) { assert f in filters + [last]; }
  }

  /** Dropping repeated filters changes nothing about which events match. */
  lemma {:induction false} UniqueMatchesAlike(filters: seq<Filter>, e: Event)
    requires forall f :: f in filters ==> ValidFilter(f)
    ensures MatchesAny(Unique(filters), e) <==> MatchesAny(filters, e)
  {
    if filters != [] {
      var front, last := filters[..|filters| - 1], filters[|filters| - 1];
      assert filters == front + [last];
      UniqueMatchesAlike(front, e);
      MatchesAnyLast(front, last, e);
      MatchesAnyLast(Unique(front), last, e);
      if g :| g in Unique(front) && SameFilter(last, g) {
        SameFilterMatchesAlike(last, g, e);
      }
    }
  }

  // ---- what a REQ may register ----------------------------------------------------------

  datatype Limits = Limits(maxSubscriptions: nat, maxFilters: nat, maxSubscriptionIdLength: Option<nat>)

  datatype Decision = Accept | Reject(reason: string) | Fail

  /** Without configured limits the last check fails on the missing settings. */
  function CanSubscribe(t: Table, id: SubscriptionId, filters: seq<Filter>, limits: Option<Limits>): Decision {
    var existing := Get(t, id);
    var open := existing.Some? && existing.value != [];
    var maxSubscriptions := if limits.Some? then limits.value.maxSubscriptions else 0;
    var maxFilters := if limits.Some? then limits.value.maxFilters else 0;
    if open && SameFilters(filters, existing.value) then
      Reject("Duplicate subscription " + id + ": Ignoring")
    else if maxSubscriptions > 0 && !open && |t| + 1 > maxSubscriptions then
      Reject("Too many subscriptions: Number of subscriptions must be less than or equal to "
             + Decimal(maxSubscriptions))
    else if maxFilters > 0 && |filters| > maxFilters then
      Reject("Too many filters: Number of filters per susbscription must be less then or equal to "
             + Decimal(maxFilters))
    else if limits.None? then
      Fail
    else if limits.value.maxSubscriptionIdLength.Some? && |id| > limits.value.maxSubscriptionIdLength.value then
      Reject("Subscription ID too long: Subscription ID must be less or equal to "
             + Decimal(limits.value.maxSubscriptionIdLength.value))
    else Accept
  }

  // ---- runs of one client ---------------------------------------------------------------

  datatype Request = Req(id: SubscriptionId, filters: seq<Filter>) | Close(id: SubscriptionId) | Disconnect

  datatype Client = Client(open: bool, table: Table)

  predicate Accepts(c: Client, limits: Option<Limits>, r: Request) {
    c.open && r.Req? && CanSubscribe(c.table, r.id, Unique(r.filters), limits) == Accept
  }

  function Handle(c: Client, limits: Option<Limits>, r: Request): Client {
    if !c.open then c
    else
      match r
      case Req(id, filters) => if Accepts(c, limits, r) then c.(table := Set(c.table, id, Unique(filters))) else c
      case Close(id) => c.(table := Delete(c.table, id))
      case Disconnect => Client(false, [])
  }

  function After(limits: Option<Limits>, rs: seq<Request>): Client {
    if rs == [] then Client(true, []) else Handle(After(limits, rs[..|rs| - 1]), limits, rs[|rs| - 1])
  }

  predicate AcceptedAt(limits: Option<Limits>, rs: seq<Request>, k: nat)
    requires k < |rs|
  {
    Accepts(After(limits, rs[..k]), limits, rs[k])
  }

  /** The request ends the subscription as it stands, or registers it anew. */
  predicate Ends(limits: Option<Limits>, rs: seq<Request>, k: nat, id: SubscriptionId)
    requires k < |rs|
  {
    rs[k] == Close(id) || rs[k].Disconnect? || (rs[k].Req? && rs[k].id == id && AcceptedAt(limits, rs, k))
  }

  /** Request k is the accepted REQ by which the subscription stands after the first n requests. */
  predicate Standing(limits: Option<Limits>, rs: seq<Request>, n: nat, k: nat, id: SubscriptionId)
    requires k < n <= |rs|
  {
    && rs[k].Req? && rs[k].id == id && AcceptedAt(limits, rs, k)
    && forall j :: k < j < n ==> !Ends(limits, rs, j, id)
  }

  lemma {:induction false} AfterHasDistinctIds(limits: Option<Limits>, rs: seq<Request>)
    ensures DistinctIds(After(limits, rs).table)
  {
    if rs != [] {
      var c, r := After(limits, rs[..|rs| - 1]), rs[|rs| - 1];
      AfterHasDistinctIds(limits, rs[..|rs| - 1]);
      match r
      case Req(id, filters) => SetExact(c.table, id, Unique(filters), id);
      case Close(id) => DeleteElements(c.table, id);
      case Disconnect =>
    }
  }

  /** With a positive limit, no run registers more subscriptions than the limit. */
  lemma {:induction false} NeverTooMany(limits: Limits, rs: seq<Request>)
    requires limits.maxSubscriptions > 0
    ensures |After(Some(limits), rs).table| <= limits.maxSubscriptions
  {
    if rs != [] {
      var front, r := rs[..|rs| - 1], rs[|rs| - 1];
      var c := After(Some(limits), front);
      NeverTooMany(limits, front);
      AfterHasDistinctIds(Some(limits), front);
      match r
      case Req(id, filters) => SetExact(c.table, id, Unique(filters), id);
      case Close(id) => DeleteElements(c.table, id);
      case Disconnect =>
    }
  }

  ghost predicate StandsBy(limits: Option<Limits>, rs: seq<Request>, n: nat, id: SubscriptionId, filters: seq<Filter>)
    requires n <= |rs|
  {
    exists k: nat :: k < n && Standing(limits, rs, n, k, id) && filters == Unique(rs[k].filters)
  }

  lemma StandingNext(limits: Option<Limits>, rs: seq<Request>, n: nat, k: nat, id: SubscriptionId)
    requires k < n < |rs|
    ensures Standing(limits, rs, n + 1, k, id) <==> Standing(limits, rs, n, k, id) && !Ends(limits, rs, n, id)
  {
  }

  lemma StandsByNext(limits: Option<Limits>, rs: seq<Request>, n: nat, id: SubscriptionId, filters: seq<Filter>)
    requires n < |rs|
    ensures StandsBy(limits, rs, n + 1, id, filters)
            <==> if Ends(limits, rs, n, id) then rs[n].Req? && filters == Unique(rs[n].filters)
                 else StandsBy(limits, rs, n, id, filters)
  {
    forall k: nat | k < n
      ensures Standing(limits, rs, n + 1, k, id) <==> Standing(limits, rs, n, k, id) && !Ends(limits, rs, n, id)
    {
      StandingNext(limits, rs, n, k, id);
    }
    assert Standing(limits, rs, n + 1, n, id) <==> Ends(limits, rs, n, id) && rs[n].Req?;
  }

  lemma {:induction false} ClosedIsEmpty(limits: Option<Limits>, rs: seq<Request>)
    ensures !After(limits, rs).open ==> After(limits, rs).table == []
  {
    if rs != [] { ClosedIsEmpty(limits, rs[..|rs| - 1]); }
  }

  /** What one request leaves of a subscription. */
  lemma HandledGet(c: Client, limits: Option<Limits>, r: Request, id: SubscriptionId)
    requires DistinctIds(c.table) && (!c.open ==> c.table == [])
    ensures Get(Handle(c, limits, r).table, id)
            == if r == Close(id) || r.Disconnect? then None
               else if r.Req? && r.id == id && Accepts(c, limits, r) then Some(Unique(r.filters))
               else Get(c.table, id)
  {
    if c.open {
      match r
      case Req(key, filters) => SetExact(c.table, key, Unique(filters), id);
      case Close(key) => DeleteExact(c.table, key, id);
      case Disconnect =>
    }
  }

  lemma {:induction false} LatestUpTo(limits: Option<Limits>, rs: seq<Request>, n: nat, id: SubscriptionId,
                                      filters: seq<Filter>)
    requires n <= |rs|
    ensures Get(After(limits, rs[..n]).table, id) == Some(filters) <==> StandsBy(limits, rs, n, id, filters)
  {
    if n > 0 {
      LatestUpTo(limits, rs, n - 1, id, filters);
      NextGet(limits, rs, n - 1, id);
      StandsByNext(limits, rs, n - 1, id, filters);
    }
  }

  lemma NextGet(limits: Option<Limits>, rs: seq<Request>, n: nat, id: SubscriptionId)
    requires n < |rs|
    ensures Get(After(limits, rs[..n + 1]).table, id)
            == if !Ends(limits, rs, n, id) then Get(After(limits, rs[..n]).table, id)
               else if rs[n].Req? then Some(Unique(rs[n].filters)) else None
  {
    assert rs[..n + 1][..n] == rs[..n];
    AfterHasDistinctIds(limits, rs[..n]);
    ClosedIsEmpty(limits, rs[..n]);
    HandledGet(After(limits, rs[..n]), limits, rs[n], id);
  }

  /** The table holds a subscription exactly if its last accepted REQ was not followed by a CLOSE of it
      or a disconnect, and holds exactly that request's filters, without the repeated ones. */
  lemma TableIsLatest(limits: Option<Limits>, rs: seq<Request>, id: SubscriptionId, filters: seq<Filter>)
    ensures Get(After(limits, rs).table, id) == Some(filters) <==> StandsBy(limits, rs, |rs|, id, filters)
  {
    LatestUpTo(limits, rs, |rs|, id, filters);
    assert rs[..|rs|] == rs;
  }

  /** Every subscription of every reachable table: no filter twice, and the events it matches are those
      that the filters of its standing request match. */
  lemma TableSafety(limits: Option<Limits>, rs: seq<Request>, id: SubscriptionId, e: Event)
    requires forall r, f :: r in rs && r.Req? && f in r.filters ==> ValidFilter(f)
    requires Get(After(limits, rs).table, id).Some?
    ensures var filters := Get(After(limits, rs).table, id).value;
            && (forall i, j :: 0 <= i < j < |filters| ==> !SameFilter(filters[j], filters[i]))
            && exists k: nat :: k < |rs| && Standing(limits, rs, |rs|, k, id)
                                && (MatchesAny(filters, e) <==> MatchesAny(rs[k].filters, e))
  {
    var filters := Get(After(limits, rs).table, id).value;
    TableIsLatest(limits, rs, id, filters);
    var k: nat :| k < |rs| && Standing(limits, rs, |rs|, k, id) && filters == Unique(rs[k].filters);
    assert rs[k] in rs;
    UniqueIsDistinct(rs[k].filters);
    UniqueMatchesAlike(rs[k].filters, e);
  }

  /** Every subscription of every reachable table is within the limits on filters and on ids. */
  lemma EntriesWithinLimits(limits: Limits, rs: seq<Request>, id: SubscriptionId)
    requires Get(After(Some(limits), rs).table, id).Some?
    ensures limits.maxFilters > 0 ==> |Get(After(Some(limits), rs).table, id).value| <= limits.maxFilters
    ensures limits.maxSubscriptionIdLength.Some? ==> |id| <= limits.maxSubscriptionIdLength.value
  {
    TableIsLatest(Some(limits), rs, id, Get(After(Some(limits), rs).table, id).value);
  }

  /** Without configured limits nothing is ever registered. */
  lemma {:induction false} NothingWithoutLimits(rs: seq<Request>)
    ensures After(None, rs).table == []
  {
    if rs != [] { NothingWithoutLimits(rs[..|rs| - 1]); }
  }
}
