/** Exactly which runes every appended text narrows, those that end in a dangling backslash included. */
module RuneNarrowing {
  import opened RuneAlternative
  import opened RuneAttenuation
  import opened RuneLike
  import opened RuneRestriction
  import opened Wrappers

  // ---- what appended text leaves of a dangling rune -------------------------------------

  /** The comment, the alternative that holds of all values. */
  const COMMENT := Alternative("", '#', "")

  /** Appended to a dangling text: the '&' goes into the last value, the '|' ends it, and a comment follows. */
  const EXCUSE := "&|#"

  lemma CommentParses()
    ensures Collect("#") == Ok(Collected([COMMENT], ""))
  {
    assert FieldLength("#") == 0 && "#"[..0] == "" && "#"[1..] == "";
    assert Decode("#") == Ok(Decoded(COMMENT, ""));
    assert Collect("") == Ok(Collected([], ""));
    assert [COMMENT] + [] == [COMMENT];
  }

  lemma {:induction false} ReadExcused(s: string)
    requires Dangling(s) && ReadValue(s).rest == ""
    ensures ReadValue(s + EXCUSE).rest == "#"
  {
    DanglingSkip(s);
    if s[0] == '|' || s[0] == '&' {
    } else if s[0] != '\\' {
      assert (s + EXCUSE)[1..] == s[1..] + EXCUSE;
      ReadExcused(s[1..]);
    } else if |s| > 1 {
      assert (s + EXCUSE)[2..] == s[2..] + EXCUSE;
      ReadExcused(s[2..]);
    } else {
      assert (s + EXCUSE)[2..] == "|#" && "|#"[1..] == "#";
    }
  }

  lemma DecodeExcused(s: string)
    requires Dangling(s) && Decode(s).Ok? && Decode(s).value.rest == ""
    ensures Decode(s + EXCUSE).Ok? && Decode(s + EXCUSE).value.rest == "#"
  {
    var n := FieldLength(s);
    FieldExtends(s, EXCUSE);
    SliceOfAppended(s, EXCUSE, n);
    CondIsPunctuation(s[n]);
    DanglingDrop(s, n);
    ReadExcused(s[n + 1..]);
  }

  lemma {:induction false} CollectExcused(s: string)
    requires Dangling(s) && Collect(s).Ok? && Collect(s).value.rest == ""
    ensures var e := Collect(s + EXCUSE);
            e.Ok? && e.value.rest == "" && COMMENT in e.value.alternatives
    decreases |s|
  {
    if s[0] == '&' {
      DanglingSkip(s);
    } else {
      DecodeShortens(s);
      CollectNext(s);
      var d := Decode(s).value;
      if d.rest == "" {
        DecodeExcused(s);
        CommentParses();
      } else {
        DecodeExtends(s, EXCUSE);
        CollectExcused(d.rest);
      }
      CollectNext(s + EXCUSE);
    }
  }

  lemma RestExtends(s: string, t: string)
    requires DecodeRest(s).Ok? && DecodeRest(s).value.rest != ""
    ensures var d := DecodeRest(s).value;
            DecodeRest(s + ("&" + t)) == Ok(DecodedRestriction(d.restriction, d.rest + ("&" + t)))
            && Dangling(d.rest) == Dangling(s)
  {
    CollectExtends(s, t);
  }

  lemma ParseAssembled(s: string, d: DecodedRestriction, rs: seq<Restriction>)
    requires s != "" && DecodeRest(s) == Ok(d) && ParseAll(d.rest) == Ok(rs)
    ensures ParseAll(s) == Ok([d.restriction] + rs)
  {
  }

  /** All restrictions but the last of rs begin the others. */
  predicate KeepsFront(rs: seq<Restriction>, all: seq<Restriction>) {
    rs != [] && rs[..|rs| - 1] <= all
  }

  /** The others are as many, and the last of them always holds. */
  predicate Excused(rs: seq<Restriction>, all: seq<Restriction>) {
    KeepsFront(rs, all) && |all| == |rs| && COMMENT in all[|rs| - 1].alternatives
  }

  lemma MoreFront(x: Restriction, rs: seq<Restriction>, all: seq<Restriction>)
    requires KeepsFront(rs, all)
    ensures KeepsFront([x] + rs, [x] + all)
    ensures Excused(rs, all) ==> Excused([x] + rs, [x] + all)
  {
    assert ([x] + rs)[..|rs|] == [x] + rs[..|rs| - 1];
    OneMore(x, rs[..|rs| - 1], all);
  }

  lemma OneRestriction(s: string)
    requires s != "" && DecodeRest(s).Ok? && DecodeRest(s).value.rest == ""
    ensures ParseAll(s) == Ok([DecodeRest(s).value.restriction])
  {
    var x := DecodeRest(s).value.restriction;
    assert ParseAll("") == Ok([]);
    assert [x] + [] == [x];
  }

  lemma RestExcused(s: string)
    requires Dangling(s) && DecodeRest(s).Ok? && DecodeRest(s).value.rest == ""
    ensures var e := DecodeRest(s + EXCUSE);
            e.Ok? && e.value.rest == "" && COMMENT in e.value.restriction.alternatives
  {
    CollectExcused(s);
  }

  /** With the excuse appended all restrictions but the last are as before, and the last one always holds. */
  lemma {:induction false} ParseExcused(s: string)
    requires Dangling(s) && ParseAll(s).Ok?
    ensures ParseAll(s + EXCUSE).Ok? && Excused(ParseAll(s).value, ParseAll(s + EXCUSE).value)
    decreases |s|
  {
    FirstRestriction(s);
    var d := DecodeRest(s).value;
    if d.rest == "" {
      RestExcused(s);
      OneRestriction(s);
      OneRestriction(s + EXCUSE);
    } else {
      assert EXCUSE == "&" + "|#";
      RestExtends(s, "|#");
      ParseExcused(d.rest);
      var all := ParseAll(d.rest + EXCUSE).value;
      ParseAssembled(s + EXCUSE, DecodedRestriction(d.restriction, d.rest + EXCUSE), all);
      MoreFront(d.restriction, ParseAll(d.rest).value, all);
    }
  }

  /** Whatever is appended to a dangling text, all restrictions but the last are still there. */
  lemma {:induction false} ParseKeepsFront(s: string, t: string)
    requires Dangling(s) && ParseAll(s).Ok? && ParseAll(s + ("&" + t)).Ok?
    ensures KeepsFront(ParseAll(s).value, ParseAll(s + ("&" + t)).value)
    decreases |s|
  {
    FirstRestriction(s);
    var d := DecodeRest(s).value;
    if d.rest == "" {
      OneRestriction(s);
    } else {
      RestExtends(s, t);
      FirstRestriction(s + ("&" + t));
      ParseKeepsFront(d.rest, t);
      MoreFront(d.restriction, ParseAll(d.rest).value, ParseAll(d.rest + ("&" + t)).value);
    }
  }

  // ---- exactly when ---------------------------------------------------------------------

  /** With "&" and t appended the rune passes nothing that it does not pass without. */
  predicate NarrowedBy(s: string, t: string, values: Values, parseInt: ParseInt)
    requires Parse(s).Ok?
  {
    var longer := Parse(s + ("&" + t));
    longer.Ok? && Passes(longer.value, values, parseInt) ==> Passes(Parse(s).value, values, parseInt)
  }

  ghost predicate Narrows(s: string, parseInt: ParseInt)
    requires Parse(s).Ok?
  {
    forall t: string, values: Values :: NarrowedBy(s, t, values, parseInt)
  }

  predicate LastHolds(rs: seq<Restriction>, values: Values, parseInt: ParseInt)
    requires rs != []
  {
    Passes(Rune(rs[..|rs| - 1]), values, parseInt) ==> Holds(rs[|rs| - 1], values, parseInt)
  }

  /** Where the other restrictions hold, the last one holds as well: it could be left out. */
  ghost predicate LastImplied(rs: seq<Restriction>, parseInt: ParseInt)
    requires rs != []
  {
    forall values: Values :: LastHolds(rs, values, parseInt)
  }

  lemma CommentHolds(x: Restriction, values: Values, parseInt: ParseInt)
    requires COMMENT in x.alternatives
    ensures Holds(x, values, parseInt)
  {
    assert Test(COMMENT, values, parseInt) == None;
  }

  lemma PassesParts(rs: seq<Restriction>, values: Values, parseInt: ParseInt)
    requires rs != []
    ensures Passes(Rune(rs), values, parseInt)
            <==> Passes(Rune(rs[..|rs| - 1]), values, parseInt) && Holds(rs[|rs| - 1], values, parseInt)
  {
    assert rs == rs[..|rs| - 1] + [rs[|rs| - 1]];
  }

  lemma StripLonger(s: string, t: string)
    ensures Strip(s + ("&" + t)) == Strip(s) + ("&" + Strip(t))
  {
    StripAppends(s, "&" + t);
    StripAppends("&", t);
    assert Strip("&") == "&";
  }

  lemma ExcusedPasses(rs: seq<Restriction>, all: seq<Restriction>, values: Values, parseInt: ParseInt)
    requires Excused(rs, all) && !LastHolds(rs, values, parseInt)
    ensures Passes(Rune(all), values, parseInt) && !Passes(Rune(rs), values, parseInt)
  {
    assert all[..|rs| - 1] == rs[..|rs| - 1];
    CommentHolds(all[|rs| - 1], values, parseInt);
    PassesParts(all, values, parseInt);
    PassesParts(rs, values, parseInt);
  }

  lemma FrontImplies(rs: seq<Restriction>, all: seq<Restriction>, values: Values, parseInt: ParseInt)
    requires KeepsFront(rs, all) && LastHolds(rs, values, parseInt) && Passes(Rune(all), values, parseInt)
    ensures Passes(Rune(rs), values, parseInt)
  {
    assert forall x :: x in rs[..|rs| - 1] ==> x in all;
    PassesParts(rs, values, parseInt);
  }

  lemma ExcuseParses(s: string)
    requires Parse(s).Ok? && Dangling(Strip(s))
    ensures Parse(s + ("&" + "|#")).Ok?
    ensures Excused(Parse(s).value.restrictions, Parse(s + ("&" + "|#")).value.restrictions)
  {
    StripLonger(s, "|#");
    StripSolid("|#");
    assert "&" + "|#" == EXCUSE;
    ParseExcused(Strip(s));
  }

  lemma LongerKeepsFront(s: string, t: string)
    requires Parse(s).Ok? && Dangling(Strip(s)) && Parse(s + ("&" + t)).Ok?
    ensures KeepsFront(Parse(s).value.restrictions, Parse(s + ("&" + t)).value.restrictions)
  {
    StripLonger(s, t);
    ParseKeepsFront(Strip(s), Strip(t));
  }

  lemma ImpliedStaysNarrow(s: string, t: string, values: Values, parseInt: ParseInt)
    requires Parse(s).Ok? && Dangling(Strip(s)) && Parse(s).value.restrictions != []
    requires LastHolds(Parse(s).value.restrictions, values, parseInt)
    ensures NarrowedBy(s, t, values, parseInt)
  {
    var longer := Parse(s + ("&" + t));
    if longer.Ok? && Passes(longer.value, values, parseInt) {
      LongerKeepsFront(s, t);
      FrontImplies(Parse(s).value.restrictions, longer.value.restrictions, values, parseInt);
    }
  }

  /** Every appended text narrows a rune if and only if the rune's text, without spaces, does not end in a
      dangling backslash, or its last restriction is implied by the others. */
  lemma NarrowsExactly(s: string, parseInt: ParseInt)
    requires Parse(s).Ok?
    ensures Narrows(s, parseInt)
            <==> !Dangling(Strip(s))
                 || (Parse(s).value.restrictions != [] && LastImplied(Parse(s).value.restrictions, parseInt))
  {
    var rs := Parse(s).value.restrictions;
    if !Dangling(Strip(s)) {
      forall t: string, values: Values ensures NarrowedBy(s, t, values, parseInt) {
        if Parse(s + ("&" + t)).Ok? { Attenuates(s, t, values, parseInt); }
      }
    } else {
      ExcuseParses(s);
      if LastImplied(rs, parseInt) {
        forall t: string, values: Values ensures NarrowedBy(s, t, values, parseInt) {
          ImpliedStaysNarrow(s, t, values, parseInt);
        }
      } else {
        var values: Values :| !LastHolds(rs, values, parseInt);
        ExcusedPasses(rs, Parse(s + ("&" + "|#")).value.restrictions, values, parseInt);
        assert !NarrowedBy(s, "|#", values, parseInt);
      }
    }
  }

  /** An alternative fails for some values unless it is a comment. */
  lemma FailingValues(a: Alternative, parseInt: ParseInt) returns (values: Values)
    requires Valid(a) && a.cond != '#'
    ensures Test(a, values, parseInt) != None
  {
    values := if a.cond == '!' then map[a.field := ""] else map[];
  }

  /** So a dangling text of one alternative is narrowed by every appended text exactly if it is a comment. */
  lemma DanglingAlternative(s: string, a: Alternative, parseInt: ParseInt)
    requires Parse(s) == Ok(Rune([Restriction([a])])) && Dangling(Strip(s)) && Valid(a)
    ensures Narrows(s, parseInt) <==> a.cond == '#'
  {
    var rs := [Restriction([a])];
    NarrowsExactly(s, parseInt);
    assert rs[..0] == [];
    assert a in [a];
    if a.cond != '#' {
      var values := FailingValues(a, parseInt);
      assert !LastHolds(rs, values, parseInt);
    }
  }
}
