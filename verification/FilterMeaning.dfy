/** The compiled query means what the filter means: on which filters, and on which not. */
module FilterMeaning {
  import opened Events
  import opened FilterCompiler
  import opened Hex
  import opened TagIndex
  import opened Wrappers

  /** The row is in the table and holds the event. */
  ghost predicate Stores(rows: Rows, row: Row, e: Event) {
    && row.eventId in rows && rows[row.eventId] == row
    && row.eventId == ToBuffer(e.id) && row.eventPubkey == ToBuffer(e.pubkey)
    && row.eventKind == e.kind && row.eventCreatedAt == e.createdAt && row.eventTags == e.tags
  }

  /** All tag conditions of a query are about one row of the index. */
  ghost predicate OneIndexRow(f: Filter, id: Bytes, index: seq<TagRow>) {
    exists r :: r in RowsFor(index, id) && forall c :: c in f.tags ==> r.tagName == [c.name] && r.tagValue in c.values
  }

  /** The joined row answers for every tag key of the filter. */
  predicate AnswersAll(f: Filter, joined: Option<TagRow>) {
    forall c :: c in f.tags ==>
      joined.Some? && joined.value.tagName == [c.name] && joined.value.tagValue in c.values
  }

  lemma TagGroupsTrue(f: Filter, row: Row, joined: Option<TagRow>)
    ensures (forall g :: g in TagGroups(f.tags) ==> GroupHolds(g, row, joined))
            <==> AnswersAll(f, joined)
  {
    forall c | c in f.tags ensures TagGroup(c) in TagGroups(f.tags) {
      var i :| 0 <= i < |f.tags| && f.tags[i] == c;
      assert TagGroups(f.tags)[i] == TagGroup(c);
    }
    forall c | c in f.tags {
      TagGroupExact(c, row, joined);
    }
  }

  lemma WhereExact(f: Filter, e: Event, row: Row, joined: Option<TagRow>)
    requires ValidFilter(f) && ValidEvent(e) && Stores(map[row.eventId := row], row, e)
    ensures EvalWhere(Compile(f).where, row, joined) == True
            <==> ColumnsMatch(f, e) && AnswersAll(f, joined)
  {
    WhereTrue(Compile(f).where, row, joined);
    ColumnGroupsExact(f, e, row, joined);
    TagGroupsTrue(f, row, joined);
    assert forall g :: g in Compile(f).where <==> g in ColumnGroups(f) || g in TagGroups(f.tags);
  }

  lemma SelectedMeans(f: Filter, e: Event, row: Row, index: seq<TagRow>)
    requires ValidFilter(f) && ValidEvent(e) && Stores(map[row.eventId := row], row, e)
    ensures Selected(Compile(f), row, index)
            <==> ColumnsMatch(f, e) && (f.tags == [] || OneIndexRow(f, row.eventId, index))
  {
    WhereExact(f, e, row, None);
    forall r: TagRow | r in RowsFor(index, row.eventId) {
      WhereExact(f, e, row, Some(r));
    }
    if f.tags != [] {
      assert f.tags[0] in f.tags;
    }
  }

  /** Criteria that the index can answer for: not empty, and left alone by JSON. */
  predicate PlainCriteria(f: Filter) {
    forall c, v :: c in f.tags && v in c.values ==> Plain(v) && v != ""
  }

  lemma LetterIsPlain(c: char)
    requires IsLetter(c)
    ensures Plain([c]) && StoredText([c]) == [c]
  {
    PlainStoredText([c]);
  }

  /** The tag behind a row of the index that has the name of a tag key. */
  lemma IndexedTag(id: Bytes, tags: seq<Tag>, name: char, r: TagRow) returns (t: Tag)
    requires IsLetter(name) && r in IndexTags(id, tags) && r.tagName == [name]
    ensures t in tags && |t| > 1 && t[0] == [name] && StoredText(t[1]) == r.tagValue != ""
  {
    InIndexTags(id, tags, r);
    t :| t in tags && r in IndexTag(id, t);
    LetterIsPlain(name);
    StoredTextIsPlain(t[0], [name]);
  }

  /** Some row of the index answers for the tag key. */
  predicate Answers(index: seq<TagRow>, c: TagCriteria) {
    exists r :: r in index && r.tagName == [c.name] && r.tagValue in c.values
  }

  lemma TagAnswers(id: Bytes, tags: seq<Tag>, c: TagCriteria)
    requires IsLetter(c.name) && (forall v :: v in c.values ==> Plain(v) && v != "")
    ensures Answers(IndexTags(id, tags), c) <==> HasTag(tags, c)
  {
    if r :| r in IndexTags(id, tags) && r.tagName == [c.name] && r.tagValue in c.values {
      var t := IndexedTag(id, tags, c.name, r);
      StoredTextIsPlain(t[1], r.tagValue);
    }
    if t :| t in tags && |t| > 1 && t[0] == [c.name] && t[1] in c.values {
      var r := TagRow(id, [c.name], t[1]);
      LetterIsPlain(c.name);
      PlainStoredText(t[1]);
      assert r in IndexTag(id, t);
      InIndexTags(id, tags, r);
    }
  }

  lemma OneKeyAnswers(f: Filter, c: TagCriteria, index: seq<TagRow>, id: Bytes)
    requires f.tags == [c]
    ensures OneIndexRow(f, id, index) <==> Answers(RowsFor(index, id), c)
  {
    assert c in f.tags;
  }

  lemma OneKeyExact(f: Filter, c: TagCriteria, rows: Rows, index: seq<TagRow>, id: Bytes)
    requires ValidFilter(f) && f.tags == [c] && PlainCriteria(f)
    requires Agrees(rows, index) && id in rows
    ensures OneIndexRow(f, id, index) <==> HasTag(rows[id].eventTags, c)
  {
    OneKeyAnswers(f, c, index, id);
    forall v | v in c.values ensures Plain(v) && v != "" {
      assert c in f.tags && v in c.values;
    }
    assert c in f.tags;
    TagAnswers(id, rows[id].eventTags, c);
  }

  /** With at most one tag key, and criteria the index can answer for, the query selects a row
      exactly if the filter matches its event. */
  lemma QueryAgrees(f: Filter, e: Event, row: Row, rows: Rows, index: seq<TagRow>)
    requires ValidFilter(f) && ValidEvent(e) && Stores(rows, row, e) && Agrees(rows, index)
    requires |f.tags| <= 1 && PlainCriteria(f)
    ensures Selected(Compile(f), row, index) <==> IsEventMatchingFilter(f, e)
  {
    SelectedMeans(f, e, row, index);
    if f.tags != [] {
      assert f.tags == [f.tags[0]];
      OneKeyExact(f, f.tags[0], rows, index, row.eventId);
    }
  }

  /** With two tag keys or more the query selects nothing, whatever is stored. */
  lemma ManyTagKeysSelectNothing(f: Filter, e: Event, row: Row, index: seq<TagRow>)
    requires ValidFilter(f) && ValidEvent(e) && Stores(map[row.eventId := row], row, e)
    requires |f.tags| >= 2
    ensures !Selected(Compile(f), row, index)
  {
    SelectedMeans(f, e, row, index);
    assert f.tags[0] in f.tags && f.tags[1] in f.tags;
    assert [f.tags[0].name][0] != [f.tags[1].name][0];
  }

  /** No string but a criterion itself is stored as that criterion. */
  ghost predicate Unambiguous(f: Filter) {
    forall c, w: string :: c in f.tags && StoredText(w) in c.values && StoredText(w) != "" ==> w in c.values
  }

  /** For any number of tag keys, what is selected matches; for a single one, if its criteria are
      unambiguous. */
  lemma SelectedImpliesMatching(f: Filter, e: Event, row: Row, rows: Rows, index: seq<TagRow>)
    requires ValidFilter(f) && ValidEvent(e) && Stores(rows, row, e) && Agrees(rows, index)
    requires |f.tags| == 1 ==> Unambiguous(f)
    requires Selected(Compile(f), row, index)
    ensures IsEventMatchingFilter(f, e)
  {
    if |f.tags| >= 2 {
      ManyTagKeysSelectNothing(f, e, row, index);
    } else {
      SelectedMeans(f, e, row, index);
      MeaningIsSound(f, e, rows, index, row.eventId);
    }
  }

  /** The same, about what the query means. */
  lemma MeaningIsSound(f: Filter, e: Event, rows: Rows, index: seq<TagRow>, id: Bytes)
    requires ValidFilter(f) && Agrees(rows, index) && id in rows && rows[id].eventTags == e.tags
    requires |f.tags| <= 1 && (|f.tags| == 1 ==> Unambiguous(f))
    requires ColumnsMatch(f, e) && (f.tags == [] || OneIndexRow(f, id, index))
    ensures IsEventMatchingFilter(f, e)
  {
    MatchingParts(f, e);
    if f.tags != [] {
      assert f.tags == [f.tags[0]];
      OneKeySound(f, f.tags[0], rows, index, id);
    }
  }

  lemma MatchingParts(f: Filter, e: Event)
    ensures IsEventMatchingFilter(f, e) <==> ColumnsMatch(f, e) && forall c :: c in f.tags ==> HasTag(e.tags, c)
  {
  }

  lemma OneKeySound(f: Filter, c: TagCriteria, rows: Rows, index: seq<TagRow>, id: Bytes)
    requires ValidFilter(f) && f.tags == [c] && Unambiguous(f) && Agrees(rows, index) && id in rows
    requires OneIndexRow(f, id, index)
    ensures HasTag(rows[id].eventTags, c)
  {
    assert c in f.tags;
    OneKeyAnswers(f, c, index, id);
    var tags := rows[id].eventTags;
    var r :| r in IndexTags(id, tags) && r.tagName == [c.name] && r.tagValue in c.values;
    var t := IndexedTag(id, tags, c.name, r);
  }

  // ---- lists of filters -----------------------------------------------------------------

  predicate Answerable(f: Filter) {
    ValidFilter(f) && |f.tags| <= 1 && PlainCriteria(f)
  }

  /** The union of the queries of a list of filters. */
  predicate SelectedByAny(filters: seq<Filter>, row: Row, index: seq<TagRow>) {
    exists f :: f in filters && Selected(Compile(f), row, index)
  }

  /** How often the answer for a list of filters has the row: a single query is sent as it is, and UNION
      takes away what the queries of more filters repeat. */
  function AnswerCopies(filters: seq<Filter>, row: Row, index: seq<TagRow>): nat {
    if |filters| == 1 then Copies(Compile(filters[0]), row, index)
    else if SelectedByAny(filters, row, index) then 1 else 0
  }

  lemma UnionAgrees(filters: seq<Filter>, e: Event, row: Row, rows: Rows, index: seq<TagRow>)
    requires forall f :: f in filters ==> Answerable(f)
    requires ValidEvent(e) && Stores(rows, row, e) && Agrees(rows, index)
    ensures SelectedByAny(filters, row, index) <==> MatchesAny(filters, e)
  {
    forall f | f in filters {
      QueryAgrees(f, e, row, rows, index);
    }
  }

  // ---- exactly which filters ------------------------------------------------------------

  /** The query and the filter agree on every event, stored alone. */
  ghost predicate AgreesOnEveryEvent(f: Filter) {
    forall e: Event :: ValidEvent(e) ==> AgreesOn(f, e)
  }

  ghost predicate AgreesOn(f: Filter, e: Event) {
    var row := RowOf(e, None);
    Selected(Compile(f), row, IndexTags(row.eventId, e.tags)) <==> IsEventMatchingFilter(f, e)
  }

  predicate SatisfiablePrefixes(prefixes: Option<seq<string>>) {
    prefixes.Some? ==> exists p :: p in prefixes.value && |p| <= 64
  }

  /** The filter is not empty by its own terms. */
  predicate Satisfiable(f: Filter) {
    && SatisfiablePrefixes(f.ids) && SatisfiablePrefixes(f.authors)
    && (f.kinds.Some? ==> f.kinds.value != [])
    && (f.since.Some? && f.until.Some? ==> f.since.value <= f.until.value)
    && (forall c :: c in f.tags ==> c.values != [])
  }

  lemma StoredAlone(e: Event)
    requires ValidEvent(e)
    ensures var row := RowOf(e, None);
            && Stores(map[row.eventId := row], row, e)
            && Agrees(map[row.eventId := row], IndexTags(row.eventId, e.tags))
  {
    var row := RowOf(e, None);
    forall id: Bytes
      ensures RowsFor(IndexTags(row.eventId, e.tags), id) == if id == row.eventId then IndexTags(id, e.tags) else []
    {
      RowsForIndexTags(row.eventId, e.tags, id);
    }
  }

  lemma UnsatisfiableAgrees(f: Filter, e: Event)
    requires ValidFilter(f) && ValidEvent(e) && !Satisfiable(f)
    ensures AgreesOn(f, e)
  {
    var row := RowOf(e, None);
    StoredAlone(e);
    SelectedMeans(f, e, row, IndexTags(row.eventId, e.tags));
    assert forall p :: p <= e.id || p <= e.pubkey ==> |p| <= 64;
  }

  function Zeros(n: nat): (s: string)
    ensures |s| == n && IsLowerHex(s)
  {
    seq(n, _ => '0')
  }

  lemma Padded(prefixes: Option<seq<string>>) returns (s: string)
    requires HexPrefixes(prefixes) && SatisfiablePrefixes(prefixes)
    ensures IsHexOf(s, 64) && SomePrefix(prefixes, s)
  {
    if prefixes.None? {
      s := Zeros(64);
    } else {
      var p :| p in prefixes.value && |p| <= 64;
      s := p + Zeros(64 - |p|);
      assert p <= s;
    }
  }

  /** An event that satisfies every condition of the filter that is not about tags. */
  lemma Witness(f: Filter, tags: seq<Tag>) returns (e: Event)
    requires ValidFilter(f) && Satisfiable(f)
    ensures ValidEvent(e) && e.tags == tags && ColumnsMatch(f, e)
  {
    var id := Padded(f.ids);
    var pubkey := Padded(f.authors);
    var at := if f.since.Some? then f.since.value else if f.until.Some? then f.until.value else 0;
    var kind := if f.kinds.Some? then f.kinds.value[0] else 0;
    e := Event(id, pubkey, at, kind, tags, "", Zeros(128));
  }

  function FirstValues(tags: seq<TagCriteria>): (r: seq<Tag>)
    requires forall c :: c in tags ==> c.values != []
    ensures |r| == |tags| && forall i :: 0 <= i < |r| ==> r[i] == [[tags[i].name], tags[i].values[0]]
  {
    seq(|tags|, i requires 0 <= i < |tags| => [[tags[i].name], tags[i].values[0]])
  }

  lemma ManyKeysDisagree(f: Filter) returns (e: Event)
    requires ValidFilter(f) && Satisfiable(f) && |f.tags| >= 2
    ensures ValidEvent(e) && !AgreesOn(f, e)
  {
    var tags := FirstValues(f.tags);
    e := Witness(f, tags);
    forall c | c in f.tags ensures HasTag(tags, c) {
      var i :| 0 <= i < |f.tags| && f.tags[i] == c;
      assert tags[i] in tags && tags[i][1] in c.values;
    }
    StoredAlone(e);
    ManyTagKeysSelectNothing(f, e, RowOf(e, None), IndexTags(ToBuffer(e.id), e.tags));
  }

  /** Among the criteria that JSON escapes, one with the most backslashes is not stored as any criterion. */
  lemma {:induction false} UnansweredCriterion(values: seq<string>, n: nat) returns (v: string)
    requires n <= |values| && exists i :: 0 <= i < n && !Plain(values[i])
    ensures v in values && !Plain(v)
    ensures forall i :: 0 <= i < n && !Plain(values[i]) ==> Backslashes(values[i]) <= Backslashes(v)
  {
    var last := values[n - 1];
    if exists i :: 0 <= i < n - 1 && !Plain(values[i]) {
      v := UnansweredCriterion(values, n - 1);
      if !Plain(last) && Backslashes(last) > Backslashes(v) { v := last; }
    } else {
      v := last;
    }
  }

  lemma OddCriterion(values: seq<string>) returns (v: string)
    requires exists v :: v in values && !(Plain(v) && v != "")
    ensures v in values
    ensures v == "" || StoredText(v) !in values
  {
    if "" in values {
      v := "";
    } else {
      var w :| w in values && !Plain(w);
      var k :| 0 <= k < |values| && values[k] == w;
      v := UnansweredCriterion(values, |values|);
      StoredTextExact(v);
      if StoredText(v) in values {
        var i :| 0 <= i < |values| && values[i] == StoredText(v);
        if Plain(values[i]) { PlainHasNoBackslash(values[i]); }
      }
    }
  }

  lemma OddCriteriaDisagree(f: Filter) returns (e: Event)
    requires ValidFilter(f) && Satisfiable(f) && |f.tags| == 1 && !PlainCriteria(f)
    ensures ValidEvent(e) && !AgreesOn(f, e)
  {
    var c := f.tags[0];
    assert f.tags == [c] && c in f.tags;
    var v := OddCriterion(c.values);
    var tag: Tag := [[c.name], v];
    e := Witness(f, [tag]);
    var id := ToBuffer(e.id);
    assert tag in [tag] && HasTag([tag], c);
    StoredAlone(e);
    SelectedMeans(f, e, RowOf(e, None), IndexTags(id, [tag]));
    NotIndexed(id, c, v);
  }

  /** The one tag is not in the index under any of the criteria. */
  lemma NotIndexed(id: Bytes, c: TagCriteria, v: string)
    requires v == "" || StoredText(v) !in c.values
    ensures forall r :: r in RowsFor(IndexTags(id, [[[c.name], v]]), id) ==> r.tagValue !in c.values
  {
    var tags: seq<Tag> := [[[c.name], v]];
    StoredTextExact("");
    forall r | r in RowsFor(IndexTags(id, tags), id) ensures r.tagValue !in c.values {
      InRowsFor(IndexTags(id, tags), id, r);
      InIndexTags(id, tags, r);
    }
  }

  /** Compilation preserves the meaning of a filter exactly if the filter is unsatisfiable as it
      stands, or has at most one tag key with plain, non-empty criteria. */
  lemma CompilationExactlyWhen(f: Filter)
    requires ValidFilter(f)
    ensures AgreesOnEveryEvent(f) <==> !Satisfiable(f) || Answerable(f)
  {
    if !Satisfiable(f) {
      forall e: Event | ValidEvent(e) ensures AgreesOn(f, e) {
        UnsatisfiableAgrees(f, e);
      }
    } else if Answerable(f) {
      forall e: Event | ValidEvent(e) ensures AgreesOn(f, e) {
        StoredAlone(e);
        var row := RowOf(e, None);
        QueryAgrees(f, e, row, map[row.eventId := row], IndexTags(row.eventId, e.tags));
      }
    } else if |f.tags| >= 2 {
      var e := ManyKeysDisagree(f);
    } else {
      var e := OddCriteriaDisagree(f);
    }
  }

  // ---- exactly which filters select only what matches -----------------------------------

  ghost predicate SoundOn(f: Filter, e: Event) {
    var row := RowOf(e, None);
    Selected(Compile(f), row, IndexTags(row.eventId, e.tags)) ==> IsEventMatchingFilter(f, e)
  }

  ghost predicate SoundOnEveryEvent(f: Filter) {
    forall e: Event :: ValidEvent(e) ==> SoundOn(f, e)
  }

  lemma StoredUnder(id: Bytes, c: TagCriteria, w: string)
    requires IsLetter(c.name) && StoredText(w) in c.values && StoredText(w) != ""
    ensures Answers(RowsFor(IndexTags(id, [[[c.name], w]]), id), c)
  {
    var tag: Tag := [[c.name], w];
    var r := TagRow(id, [c.name], StoredText(w));
    LetterIsPlain(c.name);
    assert tag in [tag] && r in IndexTag(id, tag);
    InIndexTags(id, [tag], r);
    InRowsFor(IndexTags(id, [tag]), id, r);
  }

  /** An ambiguous criterion selects an event that does not match. */
  lemma AmbiguousSelectsTooMuch(f: Filter, c: TagCriteria, w: string) returns (e: Event)
    requires ValidFilter(f) && Satisfiable(f) && f.tags == [c]
    requires StoredText(w) in c.values && StoredText(w) != "" && w !in c.values
    ensures ValidEvent(e) && !SoundOn(f, e)
  {
    var tag: Tag := [[c.name], w];
    assert c in f.tags;
    e := Witness(f, [tag]);
    var id := ToBuffer(e.id);
    StoredUnder(id, c, w);
    StoredAlone(e);
    SelectedMeans(f, e, RowOf(e, None), IndexTags(id, [tag]));
    OneKeyAnswers(f, c, IndexTags(id, [tag]), id);
    assert !HasTag(e.tags, c);
  }

  /** What is selected matches on every event if and only if the filter is unsatisfiable as it stands, or its
      tag keys are not exactly one, or that one has no ambiguous criterion. */
  lemma SoundExactlyWhen(f: Filter)
    requires ValidFilter(f)
    ensures SoundOnEveryEvent(f) <==> !Satisfiable(f) || |f.tags| != 1 || Unambiguous(f)
  {
    if Satisfiable(f) && |f.tags| == 1 && !Unambiguous(f) {
      var c, w: string :| c in f.tags && StoredText(w) in c.values && StoredText(w) != "" && w !in c.values;
      assert f.tags == [c];
      var e := AmbiguousSelectsTooMuch(f, c, w);
    } else {
      forall e: Event | ValidEvent(e) ensures SoundOn(f, e) {
        if !Satisfiable(f) {
          UnsatisfiableAgrees(f, e);
        } else {
          SoundAlone(f, e);
        }
      }
    }
  }

  lemma SoundAlone(f: Filter, e: Event)
    requires ValidFilter(f) && ValidEvent(e) && (|f.tags| == 1 ==> Unambiguous(f))
    ensures SoundOn(f, e)
  {
    var row := RowOf(e, None);
    StoredAlone(e);
    if Selected(Compile(f), row, IndexTags(row.eventId, e.tags)) {
      SelectedImpliesMatching(f, e, row, map[row.eventId := row], IndexTags(row.eventId, e.tags));
    }
  }
}
