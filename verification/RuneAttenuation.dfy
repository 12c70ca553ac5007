/** Runes are restricted by appending text: when that narrows a rune, and when it does not. */
module RuneAttenuation {
  import opened RuneAlternative
  import opened RuneLike
  import opened RuneRestriction
  import opened Strings
  import opened Wrappers

  // ---- printed runes --------------------------------------------------------------------

  lemma JoinedTexts(x: string, y: string, z: string)
    ensures x + "&" + y + "&" + z == x + "&" + (y + "&" + z)
  {
    Regroup(x + "&", y, "&", z);
    Regroup(y, "&", z, "");
  }

  lemma EncodeFirst(x: Restriction, tail: seq<Restriction>)
    requires tail != []
    ensures EncodeRestrictions([x] + tail) == EncodeAlternatives(x.alternatives) + "&" + EncodeRestrictions(tail)
  {
    assert ([x] + tail)[1..] == tail;
  }

  lemma {:induction false} EncodeAppends(a: seq<Restriction>, b: seq<Restriction>)
    requires a != [] && b != []
    ensures EncodeRestrictions(a + b) == EncodeRestrictions(a) + "&" + EncodeRestrictions(b)
  {
    var x, tail := a[0], a[1..];
    if tail == [] {
      assert a == [x];
      EncodeFirst(x, b);
    } else {
      EncodeAppends(tail, b);
      assert a == [x] + tail && a + b == [x] + (tail + b);
      EncodeFirst(x, tail);
      EncodeFirst(x, tail + b);
      JoinedTexts(EncodeAlternatives(x.alternatives), EncodeRestrictions(tail), EncodeRestrictions(b));
    }
  }

  /** Joining two printed runes with '&' gives their conjunction. */
  lemma StringConjunction(a: Rune, b: Rune, values: Values, parseInt: ParseInt)
    requires Writable(a) && Writable(b) && a.restrictions != [] && b.restrictions != []
    ensures var both := Parse(EncodeRune(a) + "&" + EncodeRune(b));
            && both == Ok(Rune(a.restrictions + b.restrictions))
            && (Passes(both.value, values, parseInt) <==> Passes(a, values, parseInt) && Passes(b, values, parseInt))
  {
    EncodeAppends(a.restrictions, b.restrictions);
    RoundTrip(Rune(a.restrictions + b.restrictions));
  }

  // ---- any text that parses -------------------------------------------------------------

  function TrailingBackslashes(s: string): nat {
    if s == "" || s[|s| - 1] != '\\' then 0 else 1 + TrailingBackslashes(s[..|s| - 1])
  }

  /** The text ends in a backslash that escapes nothing. */
  predicate Dangling(s: string) {
    TrailingBackslashes(s) % 2 == 1
  }

  lemma {:induction false} DanglingTail(c: char, s: string)
    ensures c != '\\' ==> TrailingBackslashes([c] + s) == TrailingBackslashes(s)
    ensures Dangling(['\\', c] + s) == Dangling(s)
  {
    var s1, s2 := [c] + s, ['\\', c] + s;
    if s != "" {
      var front := s[..|s| - 1];
      DanglingTail(c, front);
      assert s1[..|s1| - 1] == [c] + front && s2[..|s2| - 1] == ['\\', c] + front;
    } else {
      assert s1[..0] == "" && s2[..1] == "\\" && "\\"[..0] == "";
      assert TrailingBackslashes("\\") == 1;
    }
  }

  lemma DanglingSkip(s: string)
    requires s != ""
    ensures s[0] != '\\' ==> Dangling(s) == Dangling(s[1..])
    ensures |s| > 1 && s[0] == '\\' ==> Dangling(s) == Dangling(s[2..])
  {
    if s[0] != '\\' {
      DanglingTail(s[0], s[1..]);
      assert s == [s[0]] + s[1..];
    } else if |s| > 1 {
      DanglingTail(s[1], s[2..]);
      assert s == ['\\', s[1]] + s[2..];
    }
  }

  lemma {:induction false} DanglingDrop(s: string, n: nat)
    requires n < |s| && forall i :: 0 <= i <= n ==> s[i] != '\\'
    ensures Dangling(s) == Dangling(s[n + 1..])
  {
    DanglingSkip(s);
    if n > 0 {
      DanglingDrop(s[1..], n - 1);
      assert s[1..][n..] == s[n + 1..];
    }
  }

  predicate StartsSeparator(u: string) {
    u != "" && u[0] == '&'
  }

  lemma DifferentTails(c: char, a: string, b: string)
    ensures [c] + a == [c] + b ==> a == b
  {
    if [c] + a == [c] + b {
      CancelLeft([c], a, b);
    }
  }

  /** Text appended after an '&' does not reach into a value, unless a dangling backslash escapes that '&'. */
  lemma {:induction false} ReadExtends(s: string, u: string)
    requires StartsSeparator(u)
    ensures var r, e := ReadValue(s), ReadValue(s + u);
            if Dangling(s) && r.rest == "" then e.value != r.value
            else e == Read(r.value, r.rest + u) && Dangling(r.rest) == Dangling(s)
  {
    if s == "" {
      assert s + u == u;
    } else {
      DanglingSkip(s);
      if s[0] == '|' {
        assert (s + u)[1..] == s[1..] + u;
      } else if s[0] == '&' {
      } else if s[0] != '\\' {
        ReadExtends(s[1..], u);
        assert (s + u)[1..] == s[1..] + u;
        DifferentTails(s[0], ReadValue(s[1..]).value, ReadValue(s[1..] + u).value);
      } else if |s| > 1 {
        ReadExtends(s[2..], u);
        assert (s + u)[2..] == s[2..] + u;
        DifferentTails(s[1], ReadValue(s[2..]).value, ReadValue(s[2..] + u).value);
      } else {
        assert (s + u)[1] == '&';
        assert ReadValue(s + u).value[0] == '&';
        assert TrailingBackslashes(s[..0]) == 0 && Dangling(s);
      }
    }
  }

  lemma {:induction false} FieldExtends(s: string, u: string)
    requires FieldLength(s) < |s|
    ensures FieldLength(s + u) == FieldLength(s)
  {
    if !IsPunctuation(s[0]) {
      FieldExtends(s[1..], u);
      assert (s + u)[1..] == s[1..] + u;
    }
  }

  lemma DecodeExtends(s: string, u: string)
    requires StartsSeparator(u) && Decode(s).Ok?
    ensures Decode(s + u).Ok?
    ensures var d, e := Decode(s).value, Decode(s + u).value;
            if Dangling(s) && d.rest == "" then e.alternative != d.alternative
            else e == Decoded(d.alternative, d.rest + u) && Dangling(d.rest) == Dangling(s)
  {
    var n := FieldLength(s);
    FieldExtends(s, u);
    SliceOfAppended(s, u, n);
    ReadExtends(s[n + 1..], u);
    CondIsPunctuation(s[n]);
    DanglingDrop(s, n);
  }

  lemma SliceOfAppended(s: string, u: string, n: nat)
    requires n < |s|
    ensures (s + u)[..n] == s[..n] && (s + u)[n] == s[n] && (s + u)[n + 1..] == s[n + 1..] + u
  {
  }

  /** How collecting s relates to collecting s with "&" and t after it. */
  predicate CollectedOn(s: string, t: string, c: Collected, e: Result<Collected, RuneError>) {
    if Dangling(s) && c.rest == "" then e.Ok? ==> !(c.alternatives <= e.value.alternatives)
    else
      && Dangling(c.rest) == Dangling(s)
      && (e == Ok(Collected(c.alternatives, c.rest + ("&" + t)))
          || (c.rest == "" && e == Ok(Collected(c.alternatives, t))))
  }

  lemma CollectedOnMore(a: Alternative, s: string, rest: string, t: string, c: Collected, e: Result<Collected,
                        RuneError>)
    requires Dangling(rest) == Dangling(s) && CollectedOn(rest, t, c, e)
    ensures CollectedOn(s, t, Collected([a] + c.alternatives, c.rest), Prepend([a], e))
  {
    if e.Ok? {
      var x, y := [a] + c.alternatives, [a] + e.value.alternatives;
      if x <= y {
        assert c.alternatives == x[1..] && e.value.alternatives == y[1..];
      }
    }
  }

  lemma CollectNext(s: string)
    requires s != "" && s[0] != '&' && Decode(s).Ok?
    ensures Collect(s) == Prepend([Decode(s).value.alternative], Collect(Decode(s).value.rest))
  {
  }

  lemma {:induction false} CollectExtends(s: string, t: string)
    requires Collect(s).Ok?
    ensures CollectedOn(s, t, Collect(s).value, Collect(s + ("&" + t)))
    decreases |s|
  {
    var u := "&" + t;
    assert u[1..] == t;
    if s == "" {
      assert s + u == u;
    } else if s[0] == '&' {
      DanglingSkip(s);
      assert (s + u)[1..] == s[1..] + u;
    } else {
      DecodeShortens(s);
      DecodeExtends(s, u);
      CollectNext(s);
      CollectNext(s + u);
      var d := Decode(s).value;
      if Dangling(s) && d.rest == "" {
        assert [d.alternative] + [] == [d.alternative];
        DifferentHead(d.alternative, Decode(s + u).value.alternative, Collect(Decode(s + u).value.rest));
      } else {
        CollectExtends(d.rest, t);
        CollectedOnMore(d.alternative, s, d.rest, t, Collect(d.rest).value, Collect(d.rest + u));
      }
    }
  }

  lemma DifferentHead(a: Alternative, b: Alternative, r: Result<Collected, RuneError>)
    requires a != b
    ensures Prepend([b], r).Ok? ==> !([a] <= Prepend([b], r).value.alternatives)
  {
    if r.Ok? {
      assert ([b] + r.value.alternatives)[0] == b && [a][0] == a;
    }
  }

  // ---- whole runes ----------------------------------------------------------------------

  lemma FirstRestriction(s: string)
    requires s != "" && ParseAll(s).Ok?
    ensures DecodeRest(s).Ok? && ParseAll(DecodeRest(s).value.rest).Ok?
    ensures ParseAll(s).value == [DecodeRest(s).value.restriction] + ParseAll(DecodeRest(s).value.rest).value
  {
  }

  lemma SeparatorDoesNotStart(u: string)
    requires StartsSeparator(u)
    ensures ParseAll(u).Err?
  {
    assert Collect(u) == Ok(Collected([], u[1..]));
  }

  lemma DecodeRestExtends(s: string, t: string)
    requires DecodeRest(s).Ok? && DecodeRest(s + ("&" + t)).Ok?
    ensures var d, e := DecodeRest(s).value, DecodeRest(s + ("&" + t)).value;
            if Dangling(s) && d.rest == "" then e.restriction != d.restriction
            else e.restriction == d.restriction && Dangling(d.rest) == Dangling(s)
                 && (e.rest == d.rest + ("&" + t) || (d.rest == "" && e.rest == t))
  {
    CollectExtends(s, t);
  }

  /** What one restriction in front changes nothing about. */
  lemma InFront(x: Restriction, rs: seq<Restriction>, all: seq<Restriction>, more: seq<Restriction>)
    ensures [x] + rs <= [x] + all <==> rs <= all
    ensures all == rs + more ==> [x] + all == [x] + rs + more
  {
    OneMore(x, rs, all);
  }

  /** If s parses and s with "&" and t after it parses too, the second rune is the first with
      the restrictions of t appended: exactly when s does not end in a dangling backslash. */
  lemma {:induction false} ParseExtends(s: string, t: string)
    requires ParseAll(s).Ok? && ParseAll(s + ("&" + t)).Ok?
    ensures var rs, all := ParseAll(s).value, ParseAll(s + ("&" + t)).value;
            if Dangling(s) then !(rs <= all) else ParseAll(t).Ok? && all == rs + ParseAll(t).value
    decreases |s|
  {
    var u := "&" + t;
    SeparatorDoesNotStart(u);
    assert s == "" ==> s + u == u;
    FirstRestriction(s + u);
    FirstRestriction(s);
    DecodeRestExtends(s, t);
    var d, e := DecodeRest(s).value, DecodeRest(s + u).value;
    var tail, last := ParseAll(d.rest).value, ParseAll(e.rest).value;
    if Dangling(s) && d.rest == "" {
      assert ([d.restriction] + tail)[0] != ([e.restriction] + last)[0];
    } else if e.rest == d.rest + u {
      ParseExtends(d.rest, t);
      InFront(d.restriction, tail, last, if ParseAll(t).Ok? then ParseAll(t).value else []);
    } else {
      assert tail == [] && [d.restriction] + tail == [d.restriction];
      assert !Dangling("");
    }
  }

  lemma OneMore(x: Restriction, a: seq<Restriction>, b: seq<Restriction>)
    ensures [x] + a <= [x] + b <==> a <= b
  {
    if [x] + a <= [x] + b {
      assert a == ([x] + a)[1..] && b == ([x] + b)[1..];
    }
  }

  lemma StripFirst(s: string, t: string)
    requires s != ""
    ensures Strip(s + t) == (if IsWhitespace(s[0]) then "" else [s[0]]) + Strip(s[1..] + t)
  {
    assert (s + t)[0] == s[0] && (s + t)[1..] == s[1..] + t;
  }

  lemma {:induction false} StripAppends(s: string, t: string)
    ensures Strip(s + t) == Strip(s) + Strip(t)
  {
    if s == "" {
      assert s + t == t;
    } else {
      StripAppends(s[1..], t);
      StripFirst(s, t);
      Associative(if IsWhitespace(s[0]) then "" else [s[0]], Strip(s[1..]), Strip(t));
    }
  }

  lemma Associative(a: string, b: string, c: string)
    ensures a + (b + c) == a + b + c
  {
  }

  /** Appending "&" and any text to a rune only narrows it, as long as the rune's own text,
      without spaces, does not end in a dangling backslash. */
  lemma Attenuates(s: string, t: string, values: Values, parseInt: ParseInt)
    requires Parse(s).Ok? && Parse(s + ("&" + t)).Ok?
    requires !Dangling(Strip(s))
    ensures Passes(Parse(s + ("&" + t)).value, values, parseInt) ==> Passes(Parse(s).value, values, parseInt)
  {
    StripAppends(s, "&" + t);
    StripAppends("&", t);
    assert Strip("&") == "&";
    ParseExtends(Strip(s), Strip(t));
    var rs, all := ParseAll(Strip(s)).value, ParseAll(Strip(s + ("&" + t))).value;
    assert forall x :: x in rs ==> x in all;
  }

  /** With a dangling backslash the appended '&' becomes part of a value, and the longer rune
      accepts what the shorter one refuses: for every field and every further text. */
  lemma DanglingDoesNotAttenuate(field: string, text: string, parseInt: ParseInt)
    requires Valid(Alternative(field, '=', text)) && Solid(field) && Solid(text)
    ensures var s, values := field + "=" + "\\", map[field := "&" + text];
            var longer := s + ("&" + Escape(text));
            && Parse(s).Ok? && Parse(longer).Ok?
            && !Passes(Parse(s).value, values, parseInt)
            && Passes(Parse(longer).value, values, parseInt)
  {
    EscapedSeparator(text);
    ParseField(field, "\\", "undefined");
    ParseField(field, "\\" + ("&" + Escape(text)), "&" + text);
    LongerField(field, text);
    EqualityTest(field, "undefined", "&" + text, parseInt);
    EqualityTest(field, "&" + text, "&" + text, parseInt);
    assert ("&" + text)[0] != "undefined"[0];
  }

  lemma LongerField(field: string, text: string)
    ensures field + "=" + ("\\" + ("&" + Escape(text))) == field + "=" + "\\" + ("&" + Escape(text))
  {
  }

  lemma EscapedSeparator(text: string)
    requires Solid(text)
    ensures var s := "\\" + ("&" + Escape(text));
            ReadValue(s) == Read("&" + text, "") && Solid(s)
  {
    ReadPair('&', Escape(text));
    ReadEscaped(text, "");
    assert Escape(text) + "" == Escape(text);
    assert "\\" + ("&" + Escape(text)) == ['\\', '&'] + Escape(text);
    SolidEscape(text);
  }

  lemma EqualityTest(field: string, value: string, actual: string, parseInt: ParseInt)
    ensures Passes(Rune([Restriction([Alternative(field, '=', value)])]), map[field := actual], parseInt)
            <==> actual == value
  {
    OneAlternativePasses(Alternative(field, '=', value), map[field := actual], parseInt);
  }

  lemma ParseField(field: string, text: string, value: string)
    requires Valid(Alternative(field, '=', text)) && Solid(field) && Solid(text)
    requires ReadValue(text) == Read(value, "")
    ensures Parse(field + "=" + text) == Ok(Rune([Restriction([Alternative(field, '=', value)])]))
  {
    DecodeField(field, text, Read(value, ""));
    OneAlternative(field + "=" + text, Alternative(field, '=', value));
  }

  lemma DecodeField(field: string, text: string, read: Read)
    requires Valid(Alternative(field, '=', text)) && ReadValue(text) == read
    ensures Decode(field + "=" + text) == Ok(Decoded(Alternative(field, '=', read.value), read.rest))
    ensures (field + "=" + text)[0] != '&'
  {
    var s := field + "=" + text;
    FieldLengthIs(field, "=" + text);
    assert field + ("=" + text) == s && s[..|field|] == field && s[|field| + 1..] == text;
    if field != "" {
      assert field[0] in field && s[0] == field[0];
    }
  }

  lemma OneAlternativePasses(a: Alternative, values: Values, parseInt: ParseInt)
    ensures Passes(Rune([Restriction([a])]), values, parseInt) <==> Test(a, values, parseInt) == None
  {
    assert a in [a] && Restriction([a]) in [Restriction([a])];
  }

  lemma OneAlternative(s: string, a: Alternative)
    requires s != "" && s[0] != '&' && Solid(s) && Decode(s) == Ok(Decoded(a, ""))
    ensures Parse(s) == Ok(Rune([Restriction([a])]))
  {
    StripSolid(s);
    CollectNext(s);
    assert [a] + [] == [a];
    assert DecodeRest(s) == Ok(DecodedRestriction(Restriction([a]), ""));
    assert ParseAll("") == Ok([]);
    assert ParseAll(s) == Ok([Restriction([a])] + []);
    assert [Restriction([a])] + [] == [Restriction([a])];
  }
}
