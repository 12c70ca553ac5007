/** Subscription filters compiled to row predicates of the database, and what those rows mean. */
module FilterCompiler {
  import opened Events
  import opened Hex
  import opened TagIndex
  import opened Wrappers

  // ---- the conditions the query builder collects ----------------------------------------

  datatype Column = EventPubkey | EventId

  datatype Condition =
    | Never
    | WhereIn(column: Column, values: seq<Bytes>)
    | SubstringIs(column: Column, length: nat, value: Bytes)
    | SubstringBetween(column: Column, length: nat, low: Bytes, high: Bytes)
    | KindIn(kinds: seq<nat>)
    | CreatedFrom(since: nat)
    | CreatedUntil(until: nat)
    | TagIs(tagName: string, tagValue: string)

  /** A group is a disjunction, the query the conjunction of its groups. */
  type Group = seq<Condition>

  datatype Query = Query(where: seq<Group>, joinTags: bool)

  // ---- evaluation -----------------------------------------------------------------------

  /** SQL truth: a comparison with a missing joined row is unknown. */
  datatype Truth = True | False | Unknown

  function Truly(b: bool): Truth {
    if b then True else False
  }

  function Or(a: Truth, b: Truth): Truth {
    if a == True || b == True then True else if a == Unknown || b == Unknown then Unknown else False
  }

  function And(a: Truth, b: Truth): Truth {
    if a == False || b == False then False else if a == Unknown || b == Unknown then Unknown else True
  }

  function Rank(t: Truth): nat {
    match t
    case False => 0
    case Unknown => 1
    case True => 2
  }

  /** In the order false, unknown, true a disjunction is the greatest of its parts and a conjunction the least. */
  lemma ThreeValues(a: Truth, b: Truth)
    ensures Rank(Or(a, b)) == (if Rank(a) >= Rank(b) then Rank(a) else Rank(b))
    ensures Rank(And(a, b)) == if Rank(a) <= Rank(b) then Rank(a) else Rank(b)
  {
  }

  function ColumnOf(column: Column, row: Row): Bytes {
    match column
    case EventPubkey => row.eventPubkey
    case EventId => row.eventId
  }

  function EvalCondition(c: Condition, row: Row, joined: Option<TagRow>): Truth {
    match c
    case Never => False
    case WhereIn(column, values) => Truly(ColumnOf(column, row) in values)
    case SubstringIs(column, length, value) => Truly(Substring(ColumnOf(column, row), length) == value)
    case SubstringBetween(column, length, low, high) =>
      var s := Substring(ColumnOf(column, row), length);
      Truly(BytesLe(low, s) && BytesLe(s, high))
    case KindIn(kinds) => Truly(row.eventKind in kinds)
    case CreatedFrom(since) => Truly(row.eventCreatedAt >= since)
    case CreatedUntil(until) => Truly(row.eventCreatedAt <= until)
    case TagIs(name, value) =>
      if joined.None? then And(Unknown, Unknown)
      else And(Truly(joined.value.tagName == name), Truly(joined.value.tagValue == value))
  }

  function EvalGroup(group: Group, row: Row, joined: Option<TagRow>): Truth {
    if group == [] then False else Or(EvalCondition(group[0], row, joined), EvalGroup(group[1..], row, joined))
  }

  /** The builder leaves out a group without conditions. */
  function EvalWhere(where: seq<Group>, row: Row, joined: Option<TagRow>): Truth {
    if where == [] then True
    else And(if where[0] == [] then True else EvalGroup(where[0], row, joined), EvalWhere(where[1..], row, joined))
  }

  /** The row is in the answer of the query: for some row of its left join the conditions are true. */
  predicate Selected(q: Query, row: Row, index: seq<TagRow>) {
    if q.joinTags && RowsFor(index, row.eventId) != [] then
      exists r :: r in RowsFor(index, row.eventId) && EvalWhere(q.where, row, Some(r)) == True
    else
      EvalWhere(q.where, row, None) == True
  }

  /** How many of the joined rows the conditions are true for. */
  function TrueRows(where: seq<Group>, row: Row, joined: seq<TagRow>): nat {
    if joined == [] then 0
    else (if EvalWhere(where, row, Some(joined[0])) == True then 1 else 0) + TrueRows(where, row, joined[1..])
  }

  /** How often the row is in the answer of the query: once for each such row of its left join. */
  function Copies(q: Query, row: Row, index: seq<TagRow>): nat {
    if q.joinTags && RowsFor(index, row.eventId) != [] then TrueRows(q.where, row, RowsFor(index, row.eventId))
    else if EvalWhere(q.where, row, None) == True then 1 else 0
  }

  // ---- compilation ----------------------------------------------------------------------

  datatype LengthClass = Exact | Even | Odd

  function ClassOf(prefix: string): LengthClass {
    if |prefix| == 64 then Exact else if |prefix| % 2 == 0 then Even else Odd
  }

  function OfClass(prefixes: seq<string>, c: LengthClass): (r: seq<string>)
    ensures forall p :: p in r <==> p in prefixes && ClassOf(p) == c
  {
    if prefixes == [] then []
    else
      assert prefixes == [prefixes[0]] + prefixes[1..];
      (if ClassOf(prefixes[0]) == c then [prefixes[0]] else []) + OfClass(prefixes[1..], c)
  }

  function EvenCondition(column: Column, prefix: string): Condition {
    SubstringIs(column, |prefix| / 2, ToBuffer(prefix))
  }

  function OddCondition(column: Column, prefix: string): Condition {
    SubstringBetween(column, |prefix| / 2 + 1, ToBuffer(prefix + "0"), ToBuffer(prefix + "f"))
  }

  function PrefixConditions(column: Column, prefixes: seq<string>, c: LengthClass): (r: Group)
    ensures |r| == |prefixes|
    ensures forall i :: 0 <= i < |r| ==>
      r[i] == if c.Even? then EvenCondition(column, prefixes[i]) else OddCondition(column, prefixes[i])
  {
    seq(|prefixes|, i requires 0 <= i < |prefixes| =>
      if c.Even? then EvenCondition(column, prefixes[i]) else OddCondition(column, prefixes[i]))
  }

  function PrefixGroup(column: Column, prefixes: Option<seq<string>>): Group {
    match prefixes
    case None => []
    case Some(ps) =>
      if ps == [] then [Never]
      else
        var exact := OfClass(ps, Exact);
        (if exact != [] then [WhereIn(column, Buffers(exact))] else [])
        + PrefixConditions(column, OfClass(ps, Even), Even)
        + PrefixConditions(column, OfClass(ps, Odd), Odd)
  }

  function TagGroup(c: TagCriteria): (r: Group)
    ensures c.values != [] ==> |r| == |c.values| && forall i :: 0 <= i < |r| ==> r[i] == TagIs([c.name], c.values[i])
  {
    if c.values == [] then [Never] else seq(|c.values|, i requires 0 <= i < |c.values| => TagIs([c.name], c.values[i]))
  }

  function TagGroups(tags: seq<TagCriteria>): (r: seq<Group>)
    ensures |r| == |tags| && forall i :: 0 <= i < |r| ==> r[i] == TagGroup(tags[i])
  {
    seq(|tags|, i requires 0 <= i < |tags| => TagGroup(tags[i]))
  }

  function ColumnGroups(f: Filter): seq<Group> {
    [PrefixGroup(EventPubkey, f.authors), PrefixGroup(EventId, f.ids)]
    + (if f.kinds.Some? then [[KindIn(f.kinds.value)]] else [])
    + (if f.since.Some? then [[CreatedFrom(f.since.value)]] else [])
    + (if f.until.Some? then [[CreatedUntil(f.until.value)]] else [])
  }

  function Compile(f: Filter): Query {
    Query(ColumnGroups(f) + TagGroups(f.tags), f.tags != [])
  }

  class QueryBuilder {
    var where: seq<Group>
    var joinTags: bool

    constructor ()
      ensures where == [] && !joinTags
    {
      where, joinTags := [], false;
    }

    method AndWhere(group: Group)
      modifies this
      ensures where == old(where) + [group] && joinTags == old(joinTags)
    {
      where := where + [group];
    }

    method LeftJoinEventTags()
      modifies this
      ensures where == old(where) && joinTags
    {
      joinTags := true;
    }
  }

  /** The callback of one prefix list: the conditions of its three length classes, or-ed. */
  method BuildPrefixGroup(column: Column, prefixes: Option<seq<string>>) returns (group: Group)
    ensures group == PrefixGroup(column, prefixes)
  {
    group := [];
    if prefixes.None? {
      return;
    }
    if prefixes.value == [] {
      return [Never];
    }
    var exact, even, odd := OfClass(prefixes.value, Exact), OfClass(prefixes.value, Even), OfClass(prefixes.value, Odd);
    if exact != [] {
      group := [WhereIn(column, Buffers(exact))];
    }
    group := AddPrefixes(group, column, even, Even);
    group := AddPrefixes(group, column, odd, Odd);
  }

  /** The forEach over the prefixes of one length class. */
  method AddPrefixes(start: Group, column: Column, prefixes: seq<string>, c: LengthClass) returns (group: Group)
    ensures group == start + PrefixConditions(column, prefixes, c)
  {
    group := start;
    for i := 0 to |prefixes|
      invariant group == start + PrefixConditions(column, prefixes, c)[..i]
    {
      group := group + [if c.Even? then EvenCondition(column, prefixes[i]) else OddCondition(column, prefixes[i])];
    }
  }

  method AddColumns(builder: QueryBuilder, f: Filter)
    requires builder.where == []
    modifies builder
    ensures builder.where == ColumnGroups(f) && builder.joinTags == old(builder.joinTags)
  {
    var authors := BuildPrefixGroup(EventPubkey, f.authors);
    builder.AndWhere(authors);
    var ids := BuildPrefixGroup(EventId, f.ids);
    builder.AndWhere(ids);
    if f.kinds.Some? {
      builder.AndWhere([KindIn(f.kinds.value)]);
    }
    if f.since.Some? {
      builder.AndWhere([CreatedFrom(f.since.value)]);
    }
    if f.until.Some? {
      builder.AndWhere([CreatedUntil(f.until.value)]);
    }
  }

  /** The forEach over the tag queries; any of them asks for the join. */
  method AddTags(builder: QueryBuilder, tags: seq<TagCriteria>)
    requires !builder.joinTags
    modifies builder
    ensures builder.where == old(builder.where) + TagGroups(tags) && builder.joinTags == (tags != [])
  {
    var isTagQuery := false;
    for i := 0 to |tags|
      invariant builder.where == old(builder.where) + TagGroups(tags)[..i] && !builder.joinTags
      invariant isTagQuery == (i > 0)
    {
      isTagQuery := true;
      builder.AndWhere(TagGroup(tags[i]));
    }
    assert TagGroups(tags)[..|tags|] == TagGroups(tags);
    if isTagQuery {
      builder.LeftJoinEventTags();
    }
  }

  method BuildQuery(f: Filter) returns (q: Query)
    ensures q == Compile(f)
  {
    var builder := new QueryBuilder();
    AddColumns(builder, f);
    AddTags(builder, f.tags);
    q := Query(builder.where, builder.joinTags);
  }

  /** findByFilters: one query for each filter, joined by UNION; no filter at all is an error. */
  method FindByFilters(filters: seq<Filter>) returns (r: Result<seq<Query>, string>)
    ensures filters == [] ==> r == Err("Filters cannot be empty")
    ensures filters != [] ==> r.Ok? && |r.value| == |filters|
                              && forall i :: 0 <= i < |filters| ==> r.value[i] == Compile(filters[i])
  {
    if filters == [] {
      return Err("Filters cannot be empty");
    }
    var queries: seq<Query> := [];
    for i := 0 to |filters|
      invariant |queries| == i
      invariant forall j :: 0 <= j < i ==> queries[j] == Compile(filters[j])
    {
      var q := BuildQuery(filters[i]);
      queries := queries + [q];
    }
    r := Ok(queries);
  }

  // ---- meaning of one list of prefixes --------------------------------------------------

  lemma {:induction false} GroupTrue(group: Group, row: Row, joined: Option<TagRow>)
    ensures EvalGroup(group, row, joined) == True
            <==> exists i :: 0 <= i < |group| && EvalCondition(group[i], row, joined) == True
  {
    if group != [] {
      GroupTrue(group[1..], row, joined);
      if i :| 0 <= i < |group[1..]| && EvalCondition(group[1..][i], row, joined) == True {
        assert group[i + 1] == group[1..][i];
      }
      if i :| 0 < i < |group| && EvalCondition(group[i], row, joined) == True {
        assert group[1..][i - 1] == group[i];
      }
    }
  }

  ghost predicate GroupHolds(group: Group, row: Row, joined: Option<TagRow>) {
    group == [] || EvalGroup(group, row, joined) == True
  }

  lemma {:induction false} WhereTrue(where: seq<Group>, row: Row, joined: Option<TagRow>)
    ensures EvalWhere(where, row, joined) == True <==> forall g :: g in where ==> GroupHolds(g, row, joined)
  {
    if where != [] {
      WhereTrue(where[1..], row, joined);
      assert forall g :: g in where <==> g == where[0] || g in where[1..];
      assert where[0] in where;
    }
  }

  lemma {:induction false} GroupAdds(a: Group, b: Group, row: Row, joined: Option<TagRow>)
    ensures EvalGroup(a + b, row, joined) == True
            <==> EvalGroup(a, row, joined) == True || EvalGroup(b, row, joined) == True
  {
    if a == [] {
      assert a + b == b;
    } else {
      GroupAdds(a[1..], b, row, joined);
      assert (a + b)[1..] == a[1..] + b;
    }
  }

  /** The string a column's bytes stand for. */
  ghost predicate Represents(column: Column, row: Row, s: string) {
    IsHexOf(s, 64) && ColumnOf(column, row) == ToBuffer(s)
  }

  lemma ExactClass(column: Column, ps: seq<string>, row: Row, joined: Option<TagRow>, s: string)
    requires Represents(column, row, s) && forall p :: p in ps ==> IsLowerHex(p) && ClassOf(p) == Exact
    ensures EvalGroup([WhereIn(column, Buffers(ps))], row, joined) == True <==> exists p :: p in ps && p <= s
  {
    GroupTrue([WhereIn(column, Buffers(ps))], row, joined);
    assert [WhereIn(column, Buffers(ps))][0] == WhereIn(column, Buffers(ps));
    if ToBuffer(s) in Buffers(ps) {
      var i :| 0 <= i < |ps| && Buffers(ps)[i] == ToBuffer(s);
      PrefixCompilationExact(s, ps[i]);
      assert ps[i] in ps;
    }
    if p :| p in ps && p <= s {
      var i :| 0 <= i < |ps| && ps[i] == p;
      PrefixCompilationExact(s, p);
      assert Buffers(ps)[i] == ToBuffer(s);
    }
  }

  lemma PrefixConditionExact(column: Column, p: string, row: Row, joined: Option<TagRow>, s: string)
    requires Represents(column, row, s) && IsLowerHex(p) && ClassOf(p) != Exact
    ensures var c := if ClassOf(p).Even? then EvenCondition(column, p) else OddCondition(column, p);
            EvalCondition(c, row, joined) == True <==> p <= s
  {
    PrefixCompilationExact(s, p);
  }

  lemma PrefixClass(column: Column, ps: seq<string>, c: LengthClass, row: Row, joined: Option<TagRow>, s: string)
    requires c != Exact
    requires Represents(column, row, s) && forall p :: p in ps ==> IsLowerHex(p) && ClassOf(p) == c
    ensures EvalGroup(PrefixConditions(column, ps, c), row, joined) == True <==> exists p :: p in ps && p <= s
  {
    var group := PrefixConditions(column, ps, c);
    GroupTrue(group, row, joined);
    forall i | 0 <= i < |ps| ensures EvalCondition(group[i], row, joined) == True <==> ps[i] <= s {
      PrefixConditionExact(column, ps[i], row, joined, s);
    }
    SomeElement(ps, group, row, joined, s);
  }

  lemma SomeElement(ps: seq<string>, group: Group, row: Row, joined: Option<TagRow>, s: string)
    requires |group| == |ps|
    requires forall i :: 0 <= i < |ps| ==> (EvalCondition(group[i], row, joined) == True <==> ps[i] <= s)
    ensures (exists i :: 0 <= i < |group| && EvalCondition(group[i], row, joined) == True)
            <==> exists p :: p in ps && p <= s
  {
    if p :| p in ps && p <= s {
      var i :| 0 <= i < |ps| && ps[i] == p;
      assert EvalCondition(group[i], row, joined) == True;
    }
    if i :| 0 <= i < |group| && EvalCondition(group[i], row, joined) == True {
      assert ps[i] in ps && ps[i] <= s;
    }
  }

  /** The three length classes together test exactly "some prefix matches". */
  lemma PrefixGroupExact(column: Column, prefixes: Option<seq<string>>, row: Row, joined: Option<TagRow>, s: string)
    requires Represents(column, row, s) && HexPrefixes(prefixes)
    ensures GroupHolds(PrefixGroup(column, prefixes), row, joined) <==> SomePrefix(prefixes, s)
  {
    SingleCondition(Never, row, joined);
    if prefixes.Some? && prefixes.value != [] {
      var ps := prefixes.value;
      var exact, even, odd := OfClass(ps, Exact), OfClass(ps, Even), OfClass(ps, Odd);
      var a := if exact != [] then [WhereIn(column, Buffers(exact))] else [];
      var b, c := PrefixConditions(column, even, Even), PrefixConditions(column, odd, Odd);
      GroupAdds(a + b, c, row, joined);
      GroupAdds(a, b, row, joined);
      ExactClass(column, exact, row, joined, s);
      PrefixClass(column, even, Even, row, joined, s);
      PrefixClass(column, odd, Odd, row, joined, s);
      NotEmptyGroup(ps, exact, even, odd);
      assert forall p :: p in ps <==> p in exact || p in even || p in odd;
      assert PrefixGroup(column, prefixes) == a + b + c && a + b + c != [];
    }
  }

  lemma NotEmptyGroup(ps: seq<string>, exact: seq<string>, even: seq<string>, odd: seq<string>)
    requires ps != []
    requires exact == OfClass(ps, Exact) && even == OfClass(ps, Even) && odd == OfClass(ps, Odd)
    ensures exact != [] || even != [] || odd != []
  {
    var p := ps[0];
    assert p in ps;
    assert p in exact || p in even || p in odd;
  }

  // ---- meaning of the whole query -------------------------------------------------------

  ghost predicate ColumnsMatch(f: Filter, e: Event) {
    IsEventMatchingFilter(f.(tags := []), e)
  }

  lemma ColumnGroupsExact(f: Filter, e: Event, row: Row, joined: Option<TagRow>)
    requires ValidFilter(f)
    requires Represents(EventPubkey, row, e.pubkey) && Represents(EventId, row, e.id)
    requires row.eventKind == e.kind && row.eventCreatedAt == e.createdAt
    ensures (forall g :: g in ColumnGroups(f) ==> GroupHolds(g, row, joined)) <==> ColumnsMatch(f, e)
  {
    PrefixGroupExact(EventPubkey, f.authors, row, joined, e.pubkey);
    PrefixGroupExact(EventId, f.ids, row, joined, e.id);
    var a, b := PrefixGroup(EventPubkey, f.authors), PrefixGroup(EventId, f.ids);
    assert a in ColumnGroups(f) && b in ColumnGroups(f);
    if f.kinds.Some? {
      SingleCondition(KindIn(f.kinds.value), row, joined);
      assert [KindIn(f.kinds.value)] in ColumnGroups(f);
    }
    if f.since.Some? {
      SingleCondition(CreatedFrom(f.since.value), row, joined);
      assert [CreatedFrom(f.since.value)] in ColumnGroups(f);
    }
    if f.until.Some? {
      SingleCondition(CreatedUntil(f.until.value), row, joined);
      assert [CreatedUntil(f.until.value)] in ColumnGroups(f);
    }
  }

  lemma SingleCondition(c: Condition, row: Row, joined: Option<TagRow>)
    ensures GroupHolds([c], row, joined) <==> EvalCondition(c, row, joined) == True
  {
    GroupTrue([c], row, joined);
    assert [c][0] == c;
  }

  lemma TagGroupExact(c: TagCriteria, row: Row, joined: Option<TagRow>)
    ensures GroupHolds(TagGroup(c), row, joined)
            <==> joined.Some? && joined.value.tagName == [c.name] && joined.value.tagValue in c.values
  {
    var g := TagGroup(c);
    GroupTrue(g, row, joined);
    if c.values != [] {
      if joined.Some? && joined.value.tagName == [c.name] && joined.value.tagValue in c.values {
        var i :| 0 <= i < |c.values| && c.values[i] == joined.value.tagValue;
        assert EvalCondition(g[i], row, joined) == True;
      }
    }
  }
}
