/** How often the answer of a query repeats a row: the join on the tag index has no DISTINCT. */
module RepeatedRows {
  import opened Events
  import opened FilterCompiler
  import opened FilterMeaning
  import opened Hex
  import opened TagIndex
  import opened Wrappers

  /** How many of the index rows answer for every tag key of the filter. */
  function AnsweringRows(f: Filter, joined: seq<TagRow>): nat {
    if joined == [] then 0
    else (if AnswersAll(f, Some(joined[0])) then 1 else 0) + AnsweringRows(f, joined[1..])
  }

  lemma {:induction false} TrueRowsExact(f: Filter, e: Event, row: Row, joined: seq<TagRow>)
    requires ValidFilter(f) && ValidEvent(e) && Stores(map[row.eventId := row], row, e)
    ensures TrueRows(Compile(f).where, row, joined) == if ColumnsMatch(f, e) then AnsweringRows(f, joined) else 0
  {
    if joined != [] {
      WhereExact(f, e, row, Some(joined[0]));
      TrueRowsExact(f, e, row, joined[1..]);
    }
  }

  /** A query without tag keys has a matching row once; one with tag keys has it once for each index row
      that answers. */
  lemma CopiesExact(f: Filter, e: Event, row: Row, index: seq<TagRow>)
    requires ValidFilter(f) && ValidEvent(e) && Stores(map[row.eventId := row], row, e)
    ensures Copies(Compile(f), row, index)
            == if !ColumnsMatch(f, e) then 0
               else if f.tags == [] then 1 else AnsweringRows(f, RowsFor(index, row.eventId))
  {
    WhereExact(f, e, row, None);
    TrueRowsExact(f, e, row, RowsFor(index, row.eventId));
    if f.tags != [] {
      assert f.tags[0] in f.tags;
    }
  }

  lemma {:induction false} SomeTrueRow(where: seq<Group>, row: Row, joined: seq<TagRow>)
    ensures TrueRows(where, row, joined) > 0 <==> exists r :: r in joined && EvalWhere(where, row, Some(r)) == True
  {
    if joined != [] {
      SomeTrueRow(where, row, joined[1..]);
      assert joined[0] in joined;
      assert forall r :: r in joined <==> r == joined[0] || r in joined[1..];
    }
  }

  /** The answer has the row at least once exactly if some query selects it. */
  lemma AnswerHolds(filters: seq<Filter>, row: Row, index: seq<TagRow>)
    ensures AnswerCopies(filters, row, index) > 0 <==> SelectedByAny(filters, row, index)
  {
    if |filters| == 1 {
      assert filters == [filters[0]];
      SomeTrueRow(Compile(filters[0]).where, row, RowsFor(index, row.eventId));
      assert SelectedByAny(filters, row, index) <==> Selected(Compile(filters[0]), row, index);
    }
  }

  /** How often a list of filters finds an event that it finds at all. */
  function Repeats(filters: seq<Filter>, e: Event): nat {
    if |filters| == 1 && filters[0].tags != [] then AnsweringRows(filters[0], IndexTags(ToBuffer(e.id), e.tags)) else 1
  }

  lemma AnswerRepeats(filters: seq<Filter>, e: Event, row: Row, rows: Rows, index: seq<TagRow>)
    requires forall f :: f in filters ==> ValidFilter(f)
    requires ValidEvent(e) && Stores(rows, row, e) && Agrees(rows, index)
    requires AnswerCopies(filters, row, index) > 0
    ensures AnswerCopies(filters, row, index) == Repeats(filters, e)
  {
    if |filters| == 1 {
      assert filters[0] in filters;
      CopiesExact(filters[0], e, row, index);
      assert RowsFor(index, row.eventId) == IndexTags(ToBuffer(e.id), e.tags);
    }
  }

  // ---- counted in the event's own tags --------------------------------------------------

  /** How many of the tags have the key's name and one of its criteria. */
  function TagsNaming(tags: seq<Tag>, c: TagCriteria): nat {
    if tags == [] then 0
    else
      var last := tags[|tags| - 1];
      TagsNaming(tags[..|tags| - 1], c)
      + if |last| > 1 && last[0] == [c.name] && last[1] in c.values then 1 else 0
  }

  lemma {:induction false} AnsweringAdds(f: Filter, a: seq<TagRow>, b: seq<TagRow>)
    ensures AnsweringRows(f, a + b) == AnsweringRows(f, a) + AnsweringRows(f, b)
  {
    if a == [] {
      assert a + b == b;
    } else {
      AnsweringAdds(f, a[1..], b);
      assert (a + b)[1..] == a[1..] + b;
    }
  }

  lemma OneTag(f: Filter, c: TagCriteria, id: Bytes, tag: Tag)
    requires IsLetter(c.name) && f.tags == [c] && forall v :: v in c.values ==> Plain(v) && v != ""
    ensures AnsweringRows(f, IndexTag(id, tag))
            == if |tag| > 1 && tag[0] == [c.name] && tag[1] in c.values then 1 else 0
  {
    var rows := IndexTag(id, tag);
    assert c in f.tags;
    LetterIsPlain(c.name);
    if |tag| > 1 {
      StoredTextIsPlain(tag[0], [c.name]);
      if StoredText(tag[1]) in c.values { StoredTextIsPlain(tag[1], StoredText(tag[1])); }
      if tag[1] in c.values { PlainStoredText(tag[1]); }
    }
    if rows != [] {
      assert rows[1..] == [];
    }
  }

  /** For plain criteria: once for each tag of the event that they name, a tag that occurs twice twice. */
  lemma {:induction false} AnsweringTags(f: Filter, c: TagCriteria, id: Bytes, tags: seq<Tag>)
    requires IsLetter(c.name) && f.tags == [c] && forall v :: v in c.values ==> Plain(v) && v != ""
    ensures AnsweringRows(f, IndexTags(id, tags)) == TagsNaming(tags, c)
  {
    if tags != [] {
      var n := |tags| - 1;
      AnsweringTags(f, c, id, tags[..n]);
      OneTag(f, c, id, tags[n]);
      AnsweringAdds(f, IndexTags(id, tags[..n]), IndexTag(id, tags[n]));
    }
  }

  /** A list of filters finds an event once if and only if the list has several filters, or its one filter
      no tag key, or exactly one of the event's tags is named by that filter's criteria. */
  lemma FoundOnceExactly(filters: seq<Filter>, e: Event)
    requires forall f :: f in filters ==> Answerable(f)
    ensures Repeats(filters, e) == 1
            <==> |filters| != 1 || filters[0].tags == [] || TagsNaming(e.tags, filters[0].tags[0]) == 1
  {
    if |filters| == 1 && filters[0].tags != [] {
      var f, c := filters[0], filters[0].tags[0];
      assert f in filters && f.tags == [c] && c in f.tags;
      forall v | v in c.values ensures Plain(v) && v != "" {
        assert c in f.tags && v in c.values;
      }
      AnsweringTags(f, c, ToBuffer(e.id), e.tags);
    }
  }
}
