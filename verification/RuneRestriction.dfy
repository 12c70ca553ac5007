/** A rune restriction: alternatives, of which at least one must hold. */
module RuneRestriction {
  import opened RuneAlternative
  import opened Strings
  import opened Wrappers

  datatype Restriction = Restriction(alternatives: seq<Alternative>)

  /** What the constructors accept. */
  predicate ValidRestriction(r: Restriction) {
    r.alternatives != [] && forall a :: a in r.alternatives ==> Valid(a)
  }

  predicate Holds(r: Restriction, values: Values, parseInt: ParseInt) {
    exists a :: a in r.alternatives && Test(a, values, parseInt) == None
  }

  function Reasons(alternatives: seq<Alternative>, values: Values, parseInt: ParseInt): seq<string> {
    if alternatives == [] then []
    else
      var n := |alternatives| - 1;
      Reasons(alternatives[..n], values, parseInt)
      + match Test(alternatives[n], values, parseInt) { case None => [] case Some(reason) => [reason] }
  }

  /** Stops at the first alternative that holds, else gives every reason. */
  method TestRestriction(r: Restriction, values: Values, parseInt: ParseInt) returns (reason: Option<string>)
    ensures reason.None? <==> Holds(r, values, parseInt)
    ensures reason.Some? ==> reason.value == Join(Reasons(r.alternatives, values, parseInt), " AND ")
                             && |Reasons(r.alternatives, values, parseInt)| == |r.alternatives|
  {
    var reasons: seq<string> := [];
    var i := 0;
    while i < |r.alternatives|
      invariant 0 <= i <= |r.alternatives|
      invariant forall a :: a in r.alternatives[..i] ==> Test(a, values, parseInt).Some?
      invariant reasons == Reasons(r.alternatives[..i], values, parseInt) && |reasons| == i
    {
      var alternative := r.alternatives[i];
      var why := Test(alternative, values, parseInt);
      if why.None? {
        return None;
      }
      reasons := reasons + [why.value];
      assert r.alternatives[..i + 1] == r.alternatives[..i] + [alternative];
      i := i + 1;
    }
    assert r.alternatives[..i] == r.alternatives;
    reason := Some(Join(reasons, " AND "));
  }

  function EncodeAlternatives(alternatives: seq<Alternative>): string {
    if alternatives == [] then ""
    else if |alternatives| == 1 then Encode(alternatives[0])
    else Encode(alternatives[0]) + "|" + EncodeAlternatives(alternatives[1..])
  }

  datatype Collected = Collected(alternatives: seq<Alternative>, rest: string)

  /** Decodes alternatives up to an '&', which is consumed, or to the end. */
  function Collect(s: string): (r: Result<Collected, RuneError>)
    ensures r.Ok? && s != "" ==> |r.value.rest| < |s|
    ensures r.Ok? ==> forall a :: a in r.value.alternatives ==> Valid(a)
    decreases |s|
  {
    if s == "" then Ok(Collected([], ""))
    else if s[0] == '&' then Ok(Collected([], s[1..]))
    else
      match Decode(s)
      case Err(e) => Err(e)
      case Ok(d) =>
        DecodeShortens(s);
        match Collect(d.rest)
        case Err(e) => Err(e)
        case Ok(c) => Ok(Collected([d.alternative] + c.alternatives, c.rest))
  }

  datatype DecodedRestriction = DecodedRestriction(restriction: Restriction, rest: string)

  function DecodeRest(s: string): (r: Result<DecodedRestriction, RuneError>)
    ensures r.Ok? ==> ValidRestriction(r.value.restriction) && |r.value.rest| < |s|
  {
    match Collect(s)
    case Err(e) => Err(e)
    case Ok(c) =>
      if c.alternatives == [] then Err(NoAlternatives)
      else Ok(DecodedRestriction(Restriction(c.alternatives), c.rest))
  }

  function Prepend(alternatives: seq<Alternative>, r: Result<Collected, RuneError>): Result<Collected, RuneError> {
    match r
    case Err(e) => Err(e)
    case Ok(c) => Ok(Collected(alternatives + c.alternatives, c.rest))
  }

  method DecodeRestriction(encodedStr: string) returns (r: Result<DecodedRestriction, RuneError>)
    ensures r == DecodeRest(encodedStr)
  {
    var encStr := encodedStr;
    var alternatives: seq<Alternative> := [];
    PrependNone(Collect(encStr));
    while |encStr| > 0
      invariant Collect(encodedStr) == Prepend(alternatives, Collect(encStr))
      decreases |encStr|
    {
      assert alternatives + [] == alternatives;
      if encStr[0] == '&' {
        encStr := encStr[1..];
        break;
      }
      var decoded := DecodeAlternative(encStr);
      if decoded.Err? {
        return Err(decoded.error);
      }
      DecodeShortens(encStr);
      PrependOne(alternatives, decoded.value.alternative, Collect(decoded.value.rest));
      alternatives := alternatives + [decoded.value.alternative];
      encStr := decoded.value.rest;
    }
    assert alternatives + [] == alternatives;
    if alternatives == [] {
      r := Err(NoAlternatives);
    } else {
      r := Ok(DecodedRestriction(Restriction(alternatives), encStr));
    }
  }

  lemma PrependNone(r: Result<Collected, RuneError>)
    ensures Prepend([], r) == r
  {
    if r.Ok? {
      assert [] + r.value.alternatives == r.value.alternatives;
    }
  }

  lemma PrependOne(alternatives: seq<Alternative>, a: Alternative, r: Result<Collected, RuneError>)
    ensures Prepend(alternatives, Prepend([a], r)) == Prepend(alternatives + [a], r)
  {
    if r.Ok? {
      assert alternatives + ([a] + r.value.alternatives) == alternatives + [a] + r.value.alternatives;
    }
  }

  lemma CollectStep(a: Alternative, after: string)
    requires Valid(a) && EndsValue(after)
    ensures Collect(Encode(a) + after) == Prepend([a], Collect(AfterValue(after)))
  {
    EncodeStart(a);
    DecodeEncode(a, after);
    assert (Encode(a) + after)[0] == Encode(a)[0];
  }

  lemma CollectMore(a: Alternative, tail: seq<Alternative>, text: string, rest: string)
    requires Valid(a) && Collect(text) == Ok(Collected(tail, rest))
    ensures Collect(Encode(a) + ("|" + text)) == Ok(Collected([a] + tail, rest))
  {
    CollectStep(a, "|" + text);
    assert ("|" + text)[1..] == text;
  }

  lemma CollectOne(a: Alternative, rest: string)
    requires Valid(a) && (rest == "" || rest[0] == '&')
    ensures Collect(Encode(a) + rest) == Ok(Collected([a], if rest == "" then "" else rest[1..]))
  {
    CollectStep(a, rest);
    assert [a] + [] == [a];
  }

  /** Decoding encoded alternatives gives them back, with exactly the text after the separator. */
  lemma {:induction false} CollectEncoded(alternatives: seq<Alternative>, rest: string)
    requires alternatives != [] && forall a :: a in alternatives ==> Valid(a)
    requires rest == "" || rest[0] == '&'
    ensures Collect(EncodeAlternatives(alternatives) + rest)
            == Ok(Collected(alternatives, if rest == "" then "" else rest[1..]))
  {
    if |alternatives| == 1 {
      CollectOne(alternatives[0], rest);
      assert alternatives == [alternatives[0]];
    } else {
      var tail := alternatives[1..];
      CollectEncoded(tail, rest);
      EncodeSplit(alternatives, rest);
      CollectMore(alternatives[0], tail, EncodeAlternatives(tail) + rest, if rest == "" then "" else rest[1..]);
      assert alternatives == [alternatives[0]] + tail;
    }
  }

  lemma EncodeSplit(alternatives: seq<Alternative>, rest: string)
    requires |alternatives| > 1
    ensures var tail := EncodeAlternatives(alternatives[1..]) + rest;
            && EncodeAlternatives(alternatives) + rest == Encode(alternatives[0]) + ("|" + tail)
            && AfterValue("|" + tail) == tail
  {
    var tail := EncodeAlternatives(alternatives[1..]);
    Regroup(Encode(alternatives[0]), "|", tail, rest);
    assert ("|" + (tail + rest))[1..] == tail + rest;
  }
}
