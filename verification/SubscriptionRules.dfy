/** Which REQs a client may register: when two lists of filters are the same, and exactly what is accepted. */
module SubscriptionRules {
  import opened Events
  import opened Sets
  import opened Subscriptions
  import opened Wrappers

  // ---- the same filters -----------------------------------------------------------------

  lemma {:induction false} DistinctOccurOnce<T>(s: seq<T>, x: T)
    requires forall i, j :: 0 <= i < j < |s| ==> s[i] != s[j]
    ensures multiset(s)[x] == if x in s then 1 else 0
  {
    if s != [] {
      var front, last := s[..|s| - 1], s[|s| - 1];
      DistinctOccurOnce(front, x);
      assert s == front + [last];
    }
  }

  /** Two filters are the same exactly if they differ at most in the order of their tag keys. */
  lemma SameFilterExactly(f: Filter, g: Filter)
    requires ValidFilter(f) && ValidFilter(g)
    ensures SameFilter(f, g) <==> f.(tags := []) == g.(tags := []) && multiset(f.tags) == multiset(g.tags)
  {
    forall c ensures multiset(f.tags)[c] == (if c in f.tags then 1 else 0)
      ensures multiset(g.tags)[c] == if c in g.tags then 1 else 0
    {
      DistinctOccurOnce(f.tags, c);
      DistinctOccurOnce(g.tags, c);
    }
    if SameFilter(f, g) {
      SameTags(f, g);
    } else if multiset(f.tags) == multiset(g.tags) {
      assert |f.tags| == |multiset(f.tags)| == |multiset(g.tags)| == |g.tags|;
      assert forall c :: c in f.tags ==> c in multiset(g.tags);
    }
  }

  lemma SameTags(f: Filter, g: Filter)
    requires ValidFilter(f) && SameFilter(f, g)
    ensures forall c :: c in f.tags <==> c in g.tags
  {
    DistinctCount(f.tags);
    DistinctCount(g.tags);
    assert forall i, j :: 0 <= i < j < |f.tags| ==> f.tags[i].name != f.tags[j].name;
    SubsetOfSameSize(ToSet(f.tags), ToSet(g.tags));
    assert forall c :: c in g.tags ==> c in ToSet(g.tags);
  }

  /** Two lists are the same exactly if they are filter by filter. */
  lemma SameFiltersLast(a: seq<Filter>, b: seq<Filter>, f: Filter, g: Filter)
    ensures SameFilters([], [])
    ensures SameFilters(a + [f], b + [g]) <==> SameFilters(a, b) && SameFilter(f, g)
    ensures SameFilters(a, b) ==> |a| == |b|
  {
    var x, y := a + [f], b + [g];
    if |a| == |b| {
      assert x[|a|] == f && y[|a|] == g;
      assert forall i :: 0 <= i < |a| ==> x[i] == a[i] && y[i] == b[i];
    }
  }

  /** Every filter of a REQ is kept, or the same one is. */
  lemma {:induction false} EveryFilterIsKept(filters: seq<Filter>, f: Filter)
    requires f in filters
    ensures exists g :: g in Unique(filters) && SameFilter(f, g)
  {
    var front, last := filters[..|filters| - 1], filters[|filters| - 1];
    assert filters == front + [last];
    if f in front {
      EveryFilterIsKept(front, f);
      var g :| g in Unique(front) && SameFilter(f, g);
      assert g in Unique(filters);
    } else {
      assert SameFilter(last, last);
      assert Unique(filters) == Unique(front) + [last] ==> last in Unique(filters);
    }
  }

  // ---- what is accepted -----------------------------------------------------------------

  /** The table has a subscription of that id with some filters. */
  predicate IsOpen(t: Table, id: SubscriptionId) {
    exists i :: 0 <= i < |t| && t[i].id == id && t[i].filters != []
  }

  /** The REQ repeats the subscription it names. */
  predicate Repeats(t: Table, id: SubscriptionId, filters: seq<Filter>) {
    exists i :: 0 <= i < |t| && t[i].id == id && t[i].filters != [] && SameFilters(filters, t[i].filters)
  }

  lemma EntryIsGot(t: Table, id: SubscriptionId, filters: seq<Filter>)
    requires DistinctIds(t)
    ensures IsOpen(t, id) <==> Get(t, id).Some? && Get(t, id).value != []
    ensures Repeats(t, id, filters) <==> IsOpen(t, id) && SameFilters(filters, Get(t, id).value)
  {
    GetExact(t, id);
    if i :| 0 <= i < |t| && t[i].id == id {
      assert Get(t, id) == Some(t[i].filters);
    }
  }

  lemma DecidedByGet(t: Table, id: SubscriptionId, filters: seq<Filter>, limits: Option<Limits>, open: bool, same: bool)
    requires open <==> Get(t, id).Some? && Get(t, id).value != []
    requires same <==> open && SameFilters(filters, Get(t, id).value)
    ensures CanSubscribe(t, id, filters, limits) == Accept
            <==> limits.Some? && !same
                 && (limits.value.maxSubscriptions > 0 ==> open || |t| < limits.value.maxSubscriptions)
                 && (limits.value.maxFilters > 0 ==> |filters| <= limits.value.maxFilters)
                 && (limits.value.maxSubscriptionIdLength.Some? ==> |id| <= limits.value.maxSubscriptionIdLength.value)
    ensures CanSubscribe(t, id, filters, limits) == Fail <==> limits.None? && !same
  {
  }

  /** A REQ is accepted exactly if there are settings, it is no repetition of the subscription it names, a new
      one still fits, it has no more filters than allowed, and its id is short enough. */
  lemma AcceptedExactly(t: Table, id: SubscriptionId, filters: seq<Filter>, limits: Option<Limits>)
    requires DistinctIds(t)
    ensures CanSubscribe(t, id, filters, limits) == Accept
            <==> limits.Some? && !Repeats(t, id, filters)
                 && (limits.value.maxSubscriptions > 0 ==> IsOpen(t, id) || |t| < limits.value.maxSubscriptions)
                 && (limits.value.maxFilters > 0 ==> |filters| <= limits.value.maxFilters)
                 && (limits.value.maxSubscriptionIdLength.Some? ==> |id| <= limits.value.maxSubscriptionIdLength.value)
    ensures CanSubscribe(t, id, filters, limits) == Fail <==> limits.None? && !Repeats(t, id, filters)
  {
    EntryIsGot(t, id, filters);
    DecidedByGet(t, id, filters, limits, IsOpen(t, id), Repeats(t, id, filters));
  }

  /** A client stays open until it disconnects. */
  lemma {:induction false} OpenUntilDisconnect(limits: Option<Limits>, rs: seq<Request>)
    ensures After(limits, rs).open <==> Disconnect !in rs
  {
    if rs != [] {
      OpenUntilDisconnect(limits, rs[..|rs| - 1]);
      assert rs == rs[..|rs| - 1] + [rs[|rs| - 1]];
    }
  }

  /** Also at the limit, a registered subscription can be replaced: by everything but the same filters again,
      and by no more filters than allowed. */
  lemma ReplacedExactly(limits: Limits, rs: seq<Request>, id: SubscriptionId, filters: seq<Filter>)
    requires Get(After(Some(limits), rs).table, id).Some? && Get(After(Some(limits), rs).table, id).value != []
    ensures Get(After(Some(limits), rs + [Req(id, filters)]).table, id)
            == var was := Get(After(Some(limits), rs).table, id).value;
               if SameFilters(Unique(filters), was) || (limits.maxFilters > 0 && |Unique(filters)| > limits.maxFilters)
               then Some(was) else Some(Unique(filters))
  {
    var c := After(Some(limits), rs);
    assert (rs + [Req(id, filters)])[..|rs|] == rs;
    AfterHasDistinctIds(Some(limits), rs);
    ClosedIsEmpty(Some(limits), rs);
    EntriesWithinLimits(limits, rs, id);
    HandledGet(c, Some(limits), Req(id, filters), id);
  }
}
