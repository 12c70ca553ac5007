/** A rune: restrictions that must all hold, printed to and parsed from one string. */
module RuneLike {
  import opened RuneAlternative
  import opened RuneRestriction
  import opened Strings
  import opened Wrappers

  datatype Rune = Rune(restrictions: seq<Restriction>)

  predicate ValidRune(r: Rune) {
    forall x :: x in r.restrictions ==> ValidRestriction(x)
  }

  predicate Passes(r: Rune, values: Values, parseInt: ParseInt) {
    forall x :: x in r.restrictions ==> Holds(x, values, parseInt)
  }

  /** Stops at the first restriction that fails, and gives its reasons. */
  method TestRune(r: Rune, values: Values, parseInt: ParseInt) returns (passed: bool, reasons: string)
    ensures passed <==> Passes(r, values, parseInt)
    ensures passed ==> reasons == ""
    ensures !passed ==> exists i :: 0 <= i < |r.restrictions| && !Holds(r.restrictions[i], values, parseInt)
                                    && (forall j :: 0 <= j < i ==> Holds(r.restrictions[j], values, parseInt))
                                    && reasons
                                       == Join(Reasons(r.restrictions[i].alternatives, values, parseInt), " AND ")
  {
    var i := 0;
    while i < |r.restrictions|
      invariant 0 <= i <= |r.restrictions|
      invariant forall j :: 0 <= j < i ==> Holds(r.restrictions[j], values, parseInt)
    {
      var reason := TestRestriction(r.restrictions[i], values, parseInt);
      if reason.Some? {
        return false, reason.value;
      }
      i := i + 1;
    }
    return true, "";
  }

  function EncodeRestrictions(rs: seq<Restriction>): string {
    if rs == [] then ""
    else if |rs| == 1 then EncodeAlternatives(rs[0].alternatives)
    else EncodeAlternatives(rs[0].alternatives) + "&" + EncodeRestrictions(rs[1..])
  }

  function EncodeRune(r: Rune): string {
    EncodeRestrictions(r.restrictions)
  }

  /** The characters that \s matches. */
  predicate IsWhitespace(c: char) {
    || '\t' <= c <= '\r' || c == ' ' || c == '\U{00A0}' || c == '\U{1680}' || '\U{2000}' <= c <= '\U{200A}'
    || c == '\U{2028}' || c == '\U{2029}' || c == '\U{202F}' || c == '\U{205F}' || c == '\U{3000}' || c == '\U{FEFF}'
  }

  /** The white space and line terminators of ECMA-262, by code point. */
  lemma WhitespaceExactly(c: char)
    ensures IsWhitespace(c)
            <==> c as int in [0x9, 0xA, 0xB, 0xC, 0xD, 0x20, 0xA0, 0x1680, 0x2000, 0x2001, 0x2002, 0x2003, 0x2004,
                              0x2005, 0x2006, 0x2007, 0x2008, 0x2009, 0x200A, 0x2028, 0x2029, 0x202F, 0x205F, 0x3000,
                              0xFEFF]
  {
  }

  function Strip(s: string): string {
    if s == "" then "" else (if IsWhitespace(s[0]) then "" else [s[0]]) + Strip(s[1..])
  }

  function ParseAll(s: string): Result<seq<Restriction>, RuneError>
    decreases |s|
  {
    if s == "" then Ok([])
    else
      match DecodeRest(s)
      case Err(e) => Err(e)
      case Ok(d) =>
        match ParseAll(d.rest)
        case Err(e) => Err(e)
        case Ok(rs) => Ok([d.restriction] + rs)
  }

  function Parse(s: string): Result<Rune, RuneError> {
    match ParseAll(Strip(s))
    case Err(e) => Err(e)
    case Ok(rs) => Ok(Rune(rs))
  }

  function Prefixed(rs: seq<Restriction>, r: Result<seq<Restriction>, RuneError>): Result<seq<Restriction>, RuneError> {
    match r
    case Err(e) => Err(e)
    case Ok(more) => Ok(rs + more)
  }

  /** RuneLike.from */
  method From(encodedStr: string) returns (r: Result<Rune, RuneError>)
    ensures r == Parse(encodedStr)
  {
    var encStr := Strip(encodedStr);
    ghost var all := encStr;
    var restrictions: seq<Restriction> := [];
    PrefixedNone(ParseAll(encStr));
    while |encStr| > 0
      invariant ParseAll(all) == Prefixed(restrictions, ParseAll(encStr))
      decreases |encStr|
    {
      var decoded := DecodeRestriction(encStr);
      if decoded.Err? {
        return Err(decoded.error);
      }
      PrefixedOne(restrictions, decoded.value.restriction, ParseAll(decoded.value.rest));
      restrictions := restrictions + [decoded.value.restriction];
      encStr := decoded.value.rest;
    }
    assert restrictions + [] == restrictions;
    r := Ok(Rune(restrictions));
  }

  lemma PrefixedNone(r: Result<seq<Restriction>, RuneError>)
    ensures Prefixed([], r) == r
  {
    if r.Ok? {
      assert [] + r.value == r.value;
    }
  }

  lemma PrefixedOne(rs: seq<Restriction>, x: Restriction, r: Result<seq<Restriction>, RuneError>)
    ensures Prefixed(rs, Prefixed([x], r)) == Prefixed(rs + [x], r)
  {
    if r.Ok? {
      assert rs + ([x] + r.value) == rs + [x] + r.value;
    }
  }

  // ---- round trip -----------------------------------------------------------------------

  predicate Solid(s: string) {
    forall c :: c in s ==> !IsWhitespace(c)
  }

  predicate SolidAlternative(a: Alternative) {
    Solid(a.field) && Solid(a.value)
  }

  predicate SolidRestrictions(rs: seq<Restriction>) {
    forall x, a :: x in rs && a in x.alternatives ==> SolidAlternative(a)
  }

  /** A rune that can be written as a string without losing anything. */
  predicate Writable(r: Rune) {
    ValidRune(r) && SolidRestrictions(r.restrictions)
  }

  lemma ParseOne(x: Restriction)
    requires ValidRestriction(x)
    ensures ParseAll(EncodeRestrictions([x])) == Ok([x])
  {
    EncodedNotEmpty(x);
    CollectEncoded(x.alternatives, "");
    assert EncodeAlternatives(x.alternatives) + "" == EncodeRestrictions([x]);
    assert [x] + [] == [x];
  }

  lemma ParseFirst(x: Restriction, tail: seq<Restriction>)
    requires ValidRestriction(x) && tail != [] && ParseAll(EncodeRestrictions(tail)) == Ok(tail)
    ensures ParseAll(EncodeRestrictions([x] + tail)) == Ok([x] + tail)
  {
    var after := "&" + EncodeRestrictions(tail);
    EncodedNotEmpty(x);
    CollectEncoded(x.alternatives, after);
    assert ([x] + tail)[1..] == tail;
    assert EncodeRestrictions([x] + tail) == EncodeAlternatives(x.alternatives) + after;
    assert after[1..] == EncodeRestrictions(tail);
  }

  lemma {:induction false} ParseEncoded(rs: seq<Restriction>)
    requires forall x :: x in rs ==> ValidRestriction(x)
    ensures ParseAll(EncodeRestrictions(rs)) == Ok(rs)
  {
    if |rs| == 1 {
      assert rs == [rs[0]];
      ParseOne(rs[0]);
    } else if rs != [] {
      ParseEncoded(rs[1..]);
      assert rs == [rs[0]] + rs[1..];
      ParseFirst(rs[0], rs[1..]);
    }
  }

  lemma EncodedNotEmpty(x: Restriction)
    requires ValidRestriction(x)
    ensures EncodeAlternatives(x.alternatives) != ""
  {
    EncodeStart(x.alternatives[0]);
  }

  lemma {:induction false} StripSolid(s: string)
    requires Solid(s)
    ensures Strip(s) == s
  {
    if s != "" {
      assert s[0] in s;
      StripSolid(s[1..]);
    }
  }

  lemma {:induction false} SolidEscape(value: string)
    requires Solid(value)
    ensures Solid(Escape(value))
  {
    if value != "" {
      assert value[0] in value;
      SolidEscape(value[1..]);
    }
  }

  lemma SolidEncode(a: Alternative)
    requires Valid(a) && SolidAlternative(a)
    ensures Solid(Encode(a))
  {
    SolidEscape(a.value);
  }

  lemma {:induction false} SolidAlternatives(alternatives: seq<Alternative>)
    requires forall a :: a in alternatives ==> Valid(a) && SolidAlternative(a)
    ensures Solid(EncodeAlternatives(alternatives))
  {
    if alternatives != [] {
      SolidEncode(alternatives[0]);
      SolidAlternatives(alternatives[1..]);
    }
  }

  lemma {:induction false} SolidEncoded(rs: seq<Restriction>)
    requires Writable(Rune(rs))
    ensures Solid(EncodeRestrictions(rs))
  {
    if rs != [] {
      assert rs[0] in rs;
      SolidAlternatives(rs[0].alternatives);
      SolidEncoded(rs[1..]);
    }
  }

  /** Printing a rune and parsing it gives the same rune. */
  lemma RoundTrip(r: Rune)
    requires Writable(r)
    ensures Parse(EncodeRune(r)) == Ok(r)
  {
    SolidEncoded(r.restrictions);
    StripSolid(EncodeRune(r));
    ParseEncoded(r.restrictions);
  }

  // ---- normal form ----------------------------------------------------------------------

  lemma {:induction false} SolidStrip(s: string)
    ensures Solid(Strip(s))
  {
    if s != "" {
      SolidStrip(s[1..]);
    }
  }

  lemma {:induction false} SolidRead(s: string)
    requires Solid(s)
    ensures Solid(ReadValue(s).value) && Solid(ReadValue(s).rest)
  {
    if s != "" && s[0] != '|' && s[0] != '&' {
      if s[0] != '\\' {
        SolidRead(s[1..]);
        assert s[0] in s;
      } else if |s| > 1 {
        SolidRead(s[2..]);
        assert s[1] in s;
      }
    }
  }

  lemma SolidDecode(s: string)
    requires Solid(s) && Decode(s).Ok?
    ensures SolidAlternative(Decode(s).value.alternative) && Solid(Decode(s).value.rest)
  {
    SolidRead(s[FieldLength(s) + 1..]);
  }

  lemma {:induction false} SolidCollect(s: string)
    requires Solid(s) && Collect(s).Ok?
    ensures Solid(Collect(s).value.rest)
    ensures forall a :: a in Collect(s).value.alternatives ==> SolidAlternative(a)
    decreases |s|
  {
    if s != "" && s[0] != '&' {
      SolidDecode(s);
      DecodeShortens(s);
      SolidCollect(Decode(s).value.rest);
    }
  }

  lemma {:induction false} ParsedIsWritable(s: string)
    requires Solid(s) && ParseAll(s).Ok?
    ensures Writable(Rune(ParseAll(s).value))
    decreases |s|
  {
    if s != "" {
      SolidCollect(s);
      ParsedIsWritable(DecodeRest(s).value.rest);
    }
  }

  /** Whatever parses, parses again to the same rune once printed: stray separators and
      spaces disappear, nothing else does. */
  lemma Normalises(s: string)
    requires Parse(s).Ok?
    ensures Parse(EncodeRune(Parse(s).value)) == Parse(s)
  {
    SolidStrip(s);
    ParsedIsWritable(Strip(s));
    RoundTrip(Parse(s).value);
  }
}
