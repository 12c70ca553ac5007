/** The event_tags table, as the trigger on the events table maintains it. */
module TagIndex {
  import opened Events
  import opened Hex
  import opened Wrappers

  // ---- JSON text of a tag element -------------------------------------------------------

  function HexDigits(c: char): string
    requires c < ' '
  {
    [Digit(c as int / 16), Digit(c as int % 16)]
  }

  predicate NeedsEscape(c: char) {
    c == '"' || c == '\\' || c < ' '
  }

  function EscapeChar(c: char): string {
    if c == '"' then "\\\""
    else if c == '\\' then "\\\\"
    else if c == '\U{0008}' then "\\b"
    else if c == '\U{000C}' then "\\f"
    else if c == '\n' then "\\n"
    else if c == '\r' then "\\r"
    else if c == '\t' then "\\t"
    else if c < ' ' then "\\u00" + HexDigits(c)
    else [c]
  }

  function EscapeJson(s: string): string {
    if s == "" then "" else EscapeChar(s[0]) + EscapeJson(s[1..])
  }

  /** (tag_element->i)::text for a JSON string. */
  function JsonText(s: string): string {
    "\"" + EscapeJson(s) + "\""
  }

  function TrimStart(s: string): string {
    if s != "" && s[0] == '"' then TrimStart(s[1..]) else s
  }

  function TrimEnd(s: string): string {
    if s != "" && s[|s| - 1] == '"' then TrimEnd(s[..|s| - 1]) else s
  }

  /** What the trigger stores for a tag string: trim(text, '"') of its JSON text. */
  function StoredText(s: string): string {
    TrimEnd(TrimStart(JsonText(s)))
  }

  predicate Plain(s: string) {
    forall c :: c in s ==> !NeedsEscape(c)
  }

  function Backslashes(s: string): nat {
    if s == "" then 0 else (if s[0] == '\\' then 1 else 0) + Backslashes(s[1..])
  }

  lemma {:induction false} BackslashesAdd(s: string, t: string)
    ensures Backslashes(s + t) == Backslashes(s) + Backslashes(t)
  {
    if s == "" {
      assert s + t == t;
    } else {
      BackslashesAdd(s[1..], t);
      assert (s + t)[1..] == s[1..] + t;
    }
  }

  lemma {:induction false} TrimStartKeepsBackslashes(s: string)
    ensures Backslashes(TrimStart(s)) == Backslashes(s)
  {
    if s != "" && s[0] == '"' {
      TrimStartKeepsBackslashes(s[1..]);
    }
  }

  lemma {:induction false} TrimEndKeepsBackslashes(s: string)
    ensures Backslashes(TrimEnd(s)) == Backslashes(s)
  {
    if s != "" && s[|s| - 1] == '"' {
      var front := s[..|s| - 1];
      TrimEndKeepsBackslashes(front);
      BackslashesAdd(front, "\"");
      assert s == front + "\"";
      assert Backslashes("\"") == Backslashes(""[..]) == 0;
    }
  }

  lemma EscapeCharBackslashes(c: char)
    ensures Backslashes(EscapeChar(c)) >= Backslashes([c])
    ensures NeedsEscape(c) ==> Backslashes(EscapeChar(c)) > Backslashes([c])
  {
    var e := EscapeChar(c);
    assert [c][1..] == "" && Backslashes([c]) == if c == '\\' then 1 else 0;
    if NeedsEscape(c) {
      assert Backslashes(e) == 1 + Backslashes(e[1..]);
      if c == '\\' {
        assert e[1..] == "\\" && "\\"[1..] == "";
        assert Backslashes("\\") == 1;
      }
    } else {
      assert e == [c];
    }
  }

  lemma {:induction false} EscapeAddsBackslashes(s: string)
    ensures Backslashes(EscapeJson(s)) >= Backslashes(s)
    ensures !Plain(s) ==> Backslashes(EscapeJson(s)) > Backslashes(s)
  {
    if s != "" {
      EscapeAddsBackslashes(s[1..]);
      EscapeCharBackslashes(s[0]);
      BackslashesAdd(EscapeChar(s[0]), EscapeJson(s[1..]));
      BackslashesAdd([s[0]], s[1..]);
      assert s == [s[0]] + s[1..];
      assert Plain(s) <==> !NeedsEscape(s[0]) && Plain(s[1..]);
    }
  }

  lemma {:induction false} PlainEscape(s: string)
    requires Plain(s)
    ensures EscapeJson(s) == s
  {
    if s != "" {
      assert s[0] in s;
      PlainEscape(s[1..]);
    }
  }

  lemma {:induction false} PlainHasNoBackslash(s: string)
    requires Plain(s)
    ensures Backslashes(s) == 0
  {
    if s != "" {
      assert s[0] in s;
      PlainHasNoBackslash(s[1..]);
    }
  }

  lemma PlainStoredText(s: string)
    requires Plain(s)
    ensures StoredText(s) == s
  {
    PlainEscape(s);
    var text := JsonText(s);
    assert text[0] == '"' && text[1..] == s + "\"";
    if s == "" {
      assert text[1..] == "\"" && "\""[1..] == "";
      assert TrimStart("\"") == TrimStart("\""[1..]) == "";
    } else {
      assert s[0] in s && (s + "\"")[0] == s[0];
      assert TrimStart(text) == TrimStart(s + "\"") == s + "\"";
      assert (s + "\"")[..|s|] == s && s[|s| - 1] in s;
      assert TrimEnd(s + "\"") == TrimEnd(s) == s;
    }
  }

  /** Exactly the strings that JSON leaves alone are stored as they are; any other one is stored with
      more backslashes than it has. */
  lemma StoredTextExact(s: string)
    ensures StoredText(s) == s <==> Plain(s)
    ensures !Plain(s) ==> Backslashes(StoredText(s)) > Backslashes(s)
  {
    if Plain(s) {
      PlainStoredText(s);
    } else {
      EscapeAddsBackslashes(s);
      var e := EscapeJson(s);
      TrimStartKeepsBackslashes(JsonText(s));
      TrimEndKeepsBackslashes(TrimStart(JsonText(s)));
      BackslashesAdd("\"" + e, "\"");
      BackslashesAdd("\"", e);
    }
  }

  /** A plain text in the index can only come from that very string. */
  lemma StoredTextIsPlain(s: string, plain: string)
    requires Plain(plain)
    ensures StoredText(s) == plain <==> s == plain
  {
    StoredTextExact(s);
    PlainHasNoBackslash(plain);
  }

  // ---- the index ------------------------------------------------------------------------

  datatype TagRow = TagRow(eventId: Bytes, tagName: string, tagValue: string)

  /** The row inserted for one tag, if any: a name of one character and a value that is not empty. */
  function IndexTag(id: Bytes, tag: Tag): seq<TagRow> {
    if |tag| > 1 && |StoredText(tag[0])| == 1 && StoredText(tag[1]) != ""
    then [TagRow(id, StoredText(tag[0]), StoredText(tag[1]))]
    else []
  }

  function IndexTags(id: Bytes, tags: seq<Tag>): seq<TagRow> {
    if tags == [] then [] else IndexTags(id, tags[..|tags| - 1]) + IndexTag(id, tags[|tags| - 1])
  }

  function RowsFor(index: seq<TagRow>, id: Bytes): seq<TagRow> {
    if index == [] then []
    else (if index[0].eventId == id then [index[0]] else []) + RowsFor(index[1..], id)
  }

  /** DELETE FROM event_tags WHERE event_id = id */
  function Without(index: seq<TagRow>, id: Bytes): seq<TagRow> {
    if index == [] then []
    else (if index[0].eventId == id then [] else [index[0]]) + Without(index[1..], id)
  }

  /** The trigger, for a row that was `was` before the statement and is `now` after it. */
  function ProcessEventTags(index: seq<TagRow>, was: Option<Row>, now: Row): seq<TagRow> {
    (if was.Some? then Without(index, was.value.eventId) else index) + IndexTags(now.eventId, now.eventTags)
  }

  type Rows = map<Bytes, Row>

  /** The index holds, event by event and in tag order, exactly the indexable tags of the current rows. */
  ghost predicate Agrees(rows: Rows, index: seq<TagRow>) {
    forall id: Bytes :: RowsFor(index, id) == if id in rows then IndexTags(id, rows[id].eventTags) else []
  }

  lemma {:induction false} RowsForAdd(a: seq<TagRow>, b: seq<TagRow>, id: Bytes)
    ensures RowsFor(a + b, id) == RowsFor(a, id) + RowsFor(b, id)
  {
    if a == [] {
      assert a + b == b;
    } else {
      RowsForAdd(a[1..], b, id);
      assert (a + b)[1..] == a[1..] + b;
    }
  }

  lemma {:induction false} RowsForWithout(index: seq<TagRow>, gone: Bytes, id: Bytes)
    ensures RowsFor(Without(index, gone), id) == if id == gone then [] else RowsFor(index, id)
  {
    if index != [] {
      RowsForWithout(index[1..], gone, id);
      RowsForAdd(if index[0].eventId == gone then [] else [index[0]], Without(index[1..], gone), id);
    }
  }

  lemma {:induction false} RowsForIndexTags(owner: Bytes, tags: seq<Tag>, id: Bytes)
    ensures RowsFor(IndexTags(owner, tags), id) == if id == owner then IndexTags(owner, tags) else []
  {
    if tags != [] {
      var n := |tags| - 1;
      RowsForIndexTags(owner, tags[..n], id);
      RowsForAdd(IndexTags(owner, tags[..n]), IndexTag(owner, tags[n]), id);
    }
  }

  /** One row written, one run of the trigger: the index agrees again. */
  lemma TriggerKeepsAgreement(rows: Rows, index: seq<TagRow>, was: Option<Row>, now: Row)
    requires Agrees(rows, index)
    requires now.eventId in rows ==> was.Some? && was.value.eventId == now.eventId
    ensures Agrees((if was.Some? then rows - {was.value.eventId} else rows)[now.eventId := now],
                   ProcessEventTags(index, was, now))
  {
    forall id: Bytes
      ensures RowsFor(ProcessEventTags(index, was, now), id)
              == var next := (if was.Some? then rows - {was.value.eventId} else rows)[now.eventId := now];
                 if id in next then IndexTags(id, next[id].eventTags) else []
    {
      RowsForTrigger(index, was, now, id);
      assert RowsFor(index, id) == if id in rows then IndexTags(id, rows[id].eventTags) else [];
    }
  }

  lemma RowsForTrigger(index: seq<TagRow>, was: Option<Row>, now: Row, id: Bytes)
    ensures RowsFor(ProcessEventTags(index, was, now), id)
            == (if was.Some? && was.value.eventId == id then [] else RowsFor(index, id))
               + (if now.eventId == id then IndexTags(now.eventId, now.eventTags) else [])
  {
    var kept := if was.Some? then Without(index, was.value.eventId) else index;
    if was.Some? {
      RowsForWithout(index, was.value.eventId, id);
    }
    RowsForIndexTags(now.eventId, now.eventTags, id);
    RowsForAdd(kept, IndexTags(now.eventId, now.eventTags), id);
  }

  lemma {:induction false} InRowsFor(index: seq<TagRow>, id: Bytes, r: TagRow)
    ensures r in RowsFor(index, id) <==> r in index && r.eventId == id
  {
    if index != [] {
      InRowsFor(index[1..], id, r);
    }
  }

  lemma {:induction false} InIndexTags(id: Bytes, tags: seq<Tag>, r: TagRow)
    ensures r in IndexTags(id, tags) <==> exists t :: t in tags && r in IndexTag(id, t)
  {
    if tags != [] {
      var n := |tags| - 1;
      InIndexTags(id, tags[..n], r);
      assert tags == tags[..n] + [tags[n]];
      if r in IndexTag(id, tags[n]) { assert tags[n] in tags; }
    }
  }

  /** The index answers the tag query: for a letter and a plain, non-empty value, the event has a row
      exactly if it has the tag. */
  lemma IndexedExactly(rows: Rows, index: seq<TagRow>, id: Bytes, name: char, value: string)
    requires Agrees(rows, index) && id in rows
    requires !NeedsEscape(name) && Plain(value) && value != ""
    ensures TagRow(id, [name], value) in index
            <==> exists t :: t in rows[id].eventTags && |t| > 1 && t[0] == [name] && t[1] == value
  {
    var r, tags := TagRow(id, [name], value), rows[id].eventTags;
    InRowsFor(index, id, r);
    InIndexTags(id, tags, r);
    if r in index {
      var t :| t in tags && r in IndexTag(id, t);
      StoredTextIsPlain(t[0], [name]);
      StoredTextIsPlain(t[1], value);
    }
    if exists t :: t in tags && |t| > 1 && t[0] == [name] && t[1] == value {
      var t :| t in tags && |t| > 1 && t[0] == [name] && t[1] == value;
      PlainStoredText([name]);
      PlainStoredText(value);
      assert r in IndexTag(id, t);
    }
  }
}
