/** One alternative of a rune restriction: a field, a condition character and a value. */
module RuneAlternative {
  import opened Strings
  import opened Wrappers

  datatype RuneError =
    | NoOperator(encoded: string)
    | FieldNotValid
    | CondNotValid
    | NoAlternatives

  datatype Alternative = Alternative(field: string, cond: char, value: string)

  /** Every printable ASCII character that is not a letter, a digit, a space or an underscore. */
  predicate IsPunctuation(c: char) {
    '!' <= c <= '/' || ':' <= c <= '@' || '[' <= c <= '^' || c == '`' || '{' <= c <= '~'
  }

  predicate IsCond(c: char) {
    || c == '!' || c == '=' || c == '/' || c == '^' || c == '$' || c == '~'
    || c == '<' || c == '>' || c == '}' || c == '{' || c == '#'
  }

  /** What the constructor accepts. */
  predicate Valid(a: Alternative) {
    && (forall c :: c in a.field ==> !IsPunctuation(c))
    && IsCond(a.cond)
  }

  function Make(field: string, cond: char, value: string): (r: Result<Alternative, RuneError>)
    ensures r.Ok? <==> Valid(Alternative(field, cond, value))
    ensures r.Ok? ==> r.value == Alternative(field, cond, value)
  {
    if exists c :: c in field && IsPunctuation(c) then Err(FieldNotValid)
    else if !IsCond(cond) then Err(CondNotValid)
    else Ok(Alternative(field, cond, value))
  }

  // ---- test -----------------------------------------------------------------------------

  type Values = map<string, string>

  /** Number.parseInt on strings; None stands for NaN. */
  type ParseInt = string -> Option<int>

  predicate Includes(s: string, part: string) {
    part <= s || (s != "" && Includes(s[1..], part))
  }

  predicate StringLess(a: string, b: string) {
    b != "" && (a == "" || a[0] < b[0] || (a[0] == b[0] && StringLess(a[1..], b[1..])))
  }

  function Why(holds: bool, field: string, explanation: string): Option<string> {
    if holds then None else Some(field + ": " + explanation)
  }

  /** None when the alternative holds, else the reason why it does not. */
  function Test(a: Alternative, values: Values, parseInt: ParseInt): Option<string> {
    if a.cond == '#' then None
    else if a.field !in values then Why(a.cond == '!', a.field, "is missing")
    else
      var val := values[a.field];
      match a.cond
      case '!' => Why(false, a.field, "is present")
      case '=' => Why(val == a.value, a.field, "!= " + a.value)
      case '/' => Why(val != a.value, a.field, "= " + a.value)
      case '^' => Why(a.value <= val, a.field, "does not start with " + a.value)
      case '$' =>
        Why(|a.value| <= |val| && val[|val| - |a.value|..] == a.value, a.field, "does not end with " + a.value)
      case '~' => Why(Includes(val, a.value), a.field, "does not contain " + a.value)
      case '{' => Why(StringLess(val, a.value), a.field, "is the same or ordered after " + a.value)
      case '}' => Why(StringLess(a.value, val), a.field, "is the same or ordered before " + a.value)
      case _ =>
        var actual := parseInt(val);
        if actual.None? then Why(false, a.field, "not an integer field")
        else
          var bound := parseInt(a.value);
          if bound.None? then Why(false, a.field, "not a valid integer")
          else if a.cond == '<' then Why(actual.value < bound.value, a.field, ">= " + DecimalInt(bound.value))
          else Why(actual.value > bound.value, a.field, "<= " + DecimalInt(bound.value))
  }

  // ---- encode and decode ----------------------------------------------------------------

  predicate IsSpecial(c: char) {
    c == '\\' || c == '|' || c == '&'
  }

  function Escape(value: string): string {
    if value == "" then ""
    else (if IsSpecial(value[0]) then ['\\', value[0]] else [value[0]]) + Escape(value[1..])
  }

  function Encode(a: Alternative): string {
    a.field + [a.cond] + Escape(a.value)
  }

  /** The number of characters before the first operator character. */
  function FieldLength(s: string): (n: nat)
    ensures n <= |s|
    ensures forall i :: 0 <= i < n ==> !IsPunctuation(s[i])
    ensures n < |s| ==> IsPunctuation(s[n])
  {
    if s == "" || IsPunctuation(s[0]) then 0 else 1 + FieldLength(s[1..])
  }

  datatype Read = Read(value: string, rest: string)

  /** Reads an escaped value: '|' ends it and is consumed, '&' ends it and stays. A backslash that is the
      last character makes the parser append the text of an undefined element. */
  function ReadValue(s: string): Read {
    if s == "" then Read("", "")
    else if s[0] == '|' then Read("", s[1..])
    else if s[0] == '&' then Read("", s)
    else if s[0] != '\\' then
      var r := ReadValue(s[1..]);
      Read([s[0]] + r.value, r.rest)
    else if |s| == 1 then Read("undefined", "")
    else
      var r := ReadValue(s[2..]);
      Read([s[1]] + r.value, r.rest)
  }

  datatype Decoded = Decoded(alternative: Alternative, rest: string)

  function Decode(s: string): Result<Decoded, RuneError> {
    var n := FieldLength(s);
    if n == |s| then Err(NoOperator(s))
    else
      var read := ReadValue(s[n + 1..]);
      match Make(s[..n], s[n], read.value)
      case Ok(a) => Ok(Decoded(a, read.rest))
      case Err(e) => Err(e)
  }

  function Slice(s: string, from: nat): string {
    if from <= |s| then s[from..] else ""
  }

  /** The first scanning loop: where the operator is. */
  method FindOperator(encodedStr: string) returns (endOff: nat)
    ensures endOff == FieldLength(encodedStr)
  {
    endOff := 0;
    while endOff < |encodedStr|
      invariant 0 <= endOff <= |encodedStr|
      invariant FieldLength(encodedStr) == endOff + FieldLength(encodedStr[endOff..])
    {
      if IsPunctuation(encodedStr[endOff]) {
        break;
      }
      endOff := endOff + 1;
    }
  }

  lemma SliceStep(s: string, k: nat)
    requires k < |s|
    ensures Slice(s, k) != "" && Slice(s, k)[0] == s[k] && Slice(s, k)[1..] == Slice(s, k + 1)
    ensures k + 1 < |s| ==> |Slice(s, k)| > 1 && Slice(s, k)[1] == s[k + 1] && Slice(s, k)[2..] == Slice(s, k + 2)
    ensures k + 1 == |s| ==> Slice(s, k) == [s[k]] && Slice(s, k + 2) == ""
  {
  }

  /** The whole value read is the part already collected and then what r reads. */
  ghost predicate ReadsOn(all: Read, value: string, r: Read) {
    all.value == value + r.value && all.rest == r.rest
  }

  lemma ReadStep(s: string, value: string, all: Read)
    requires s != "" && ReadsOn(all, value, ReadValue(s))
    ensures s[0] == '|' ==> all == Read(value, s[1..])
    ensures s[0] == '&' ==> all == Read(value, s)
    ensures s[0] != '|' && s[0] != '&' && s[0] != '\\' ==> ReadsOn(all, value + [s[0]], ReadValue(s[1..]))
    ensures s == "\\" ==> ReadsOn(all, value + "undefined", ReadValue(""))
    ensures s[0] == '\\' && |s| > 1 ==> ReadsOn(all, value + [s[1]], ReadValue(s[2..]))
  {
    if s[0] == '|' || s[0] == '&' {
      assert value + "" == value;
    } else if s[0] != '\\' {
      Reassociate(value, s[0], ReadValue(s[1..]).value);
    } else if |s| > 1 {
      Reassociate(value, s[1], ReadValue(s[2..]).value);
    } else {
      assert value + "undefined" + "" == value + "undefined";
    }
  }

  /** What string concatenation makes of a character of s, or of a missing one. */
  function CharAt(s: string, k: nat): string {
    if k < |s| then [s[k]] else "undefined"
  }

  /** One round of the scanning loop, for what all the rounds together read. */
  lemma ScanStep(s: string, k: nat, value: string, all: Read)
    requires k < |s| && ReadsOn(all, value, ReadValue(Slice(s, k)))
    ensures s[k] == '|' ==> all == Read(value, Slice(s, k + 1))
    ensures s[k] == '&' ==> all == Read(value, Slice(s, k))
    ensures s[k] != '|' && s[k] != '&' ==>
              var at := if s[k] == '\\' then k + 1 else k;
              ReadsOn(all, value + CharAt(s, at), ReadValue(Slice(s, at + 1)))
  {
    SliceStep(s, k);
    ReadStep(Slice(s, k), value, all);
  }

  /** The second scanning loop: the value, and the offset just after it. */
  method ScanValue(encodedStr: string, start: nat, ghost all: Read) returns (value: string, endOff: nat)
    requires start <= |encodedStr| && all == ReadValue(Slice(encodedStr, start))
    ensures all == Read(value, Slice(encodedStr, endOff))
  {
    value, endOff := "", start;
    while endOff < |encodedStr|
      invariant 0 <= endOff <= |encodedStr| + 1
      invariant ReadsOn(all, value, ReadValue(Slice(encodedStr, endOff)))
      decreases |encodedStr| + 1 - endOff
    {
      ScanStep(encodedStr, endOff, value, all);
      if encodedStr[endOff] == '|' {
        endOff := endOff + 1;
        return;
      }
      if encodedStr[endOff] == '&' {
        return;
      }
      if encodedStr[endOff] == '\\' {
        endOff := endOff + 1;
      }
      value := value + CharAt(encodedStr, endOff);
      endOff := endOff + 1;
    }
  }

  lemma Reassociate(a: string, c: char, b: string)
    ensures a + ([c] + b) == a + [c] + b
  {
  }

  method DecodeAlternative(encodedStr: string) returns (r: Result<Decoded, RuneError>)
    ensures r == Decode(encodedStr)
  {
    var endOff := FindOperator(encodedStr);
    if endOff == |encodedStr| {
      return Err(NoOperator(encodedStr));
    }
    var value, rest := ScanValue(encodedStr, endOff + 1, ReadValue(encodedStr[endOff + 1..]));
    match Make(encodedStr[..endOff], encodedStr[endOff], value) {
      case Ok(a) => r := Ok(Decoded(a, Slice(encodedStr, rest)));
      case Err(e) => r := Err(e);
    }
  }

  // ---- what decoding an encoded alternative gives ---------------------------------------

  /** What may follow an alternative in an encoded rune. */
  predicate EndsValue(rest: string) {
    rest == "" || rest[0] == '|' || rest[0] == '&'
  }

  /** The text left once the value before it has been read. */
  function AfterValue(rest: string): string {
    if rest != "" && rest[0] == '|' then rest[1..] else rest
  }

  lemma ReadPlain(c: char, s: string)
    requires !IsSpecial(c)
    ensures ReadValue([c] + s) == Read([c] + ReadValue(s).value, ReadValue(s).rest)
  {
    assert ([c] + s)[1..] == s;
  }

  lemma ReadPair(c: char, s: string)
    ensures ReadValue(['\\', c] + s) == Read([c] + ReadValue(s).value, ReadValue(s).rest)
  {
    assert (['\\', c] + s)[2..] == s;
  }

  /** An escaped character in front of any text is read as that character. */
  lemma ReadOneEscaped(c: char, tail: string)
    ensures ReadValue((if IsSpecial(c) then ['\\', c] else [c]) + tail)
            == Read([c] + ReadValue(tail).value, ReadValue(tail).rest)
  {
    if IsSpecial(c) {
      ReadPair(c, tail);
    } else {
      ReadPlain(c, tail);
    }
  }

  lemma EscapeFirst(value: string, rest: string)
    requires value != ""
    ensures Escape(value) + rest
            == (if IsSpecial(value[0]) then ['\\', value[0]] else [value[0]]) + (Escape(value[1..]) + rest)
  {
  }

  lemma {:induction false} ReadEscaped(value: string, rest: string)
    requires EndsValue(rest)
    ensures ReadValue(Escape(value) + rest) == Read(value, AfterValue(rest))
  {
    if value == "" {
      assert Escape(value) + rest == rest;
    } else {
      ReadEscaped(value[1..], rest);
      ReadOneEscaped(value[0], Escape(value[1..]) + rest);
      EscapeFirst(value, rest);
      assert value == [value[0]] + value[1..];
    }
  }

  lemma {:induction false} FieldLengthIs(field: string, tail: string)
    requires forall c :: c in field ==> !IsPunctuation(c)
    requires tail != "" && IsPunctuation(tail[0])
    ensures FieldLength(field + tail) == |field|
  {
    if field == "" {
      assert field + tail == tail;
    } else {
      assert field[0] in field;
      assert (field + tail)[1..] == field[1..] + tail;
      FieldLengthIs(field[1..], tail);
    }
  }

  lemma CondIsPunctuation(c: char)
    requires IsCond(c)
    ensures IsPunctuation(c) && c != '|' && c != '&' && c != '\\'
  {
  }

  /** Decoding an encoded alternative gives it back, with exactly the text after it. */
  lemma DecodeEncode(a: Alternative, rest: string)
    requires Valid(a) && EndsValue(rest)
    ensures Decode(Encode(a) + rest) == Ok(Decoded(a, AfterValue(rest)))
  {
    var s, tail := Encode(a) + rest, [a.cond] + (Escape(a.value) + rest);
    CondIsPunctuation(a.cond);
    assert s == a.field + tail;
    FieldLengthIs(a.field, tail);
    assert s[..|a.field|] == a.field && s[|a.field| + 1..] == Escape(a.value) + rest;
    ReadEscaped(a.value, rest);
  }

  lemma EncodeStart(a: Alternative)
    requires Valid(a)
    ensures Encode(a) != "" && Encode(a)[0] != '&'
  {
    CondIsPunctuation(a.cond);
    if a.field != "" {
      assert a.field[0] in a.field;
    }
  }

  /** The decoder always makes progress and only builds what the constructor accepts. */
  lemma DecodeShortens(s: string)
    requires Decode(s).Ok?
    ensures |Decode(s).value.rest| < |s| && Valid(Decode(s).value.alternative)
  {
    ReadShortens(s[FieldLength(s) + 1..]);
  }

  lemma {:induction false} ReadShortens(s: string)
    ensures |ReadValue(s).rest| <= |s|
  {
    if s != "" && s[0] != '|' && s[0] != '&' {
      if s[0] != '\\' {
        ReadShortens(s[1..]);
      } else if |s| > 1 {
        ReadShortens(s[2..]);
      }
    }
  }
}
