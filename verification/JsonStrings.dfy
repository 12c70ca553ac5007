/** The JSON text that a tag string is stored as, read back. */
module JsonStrings {
  import opened Hex
  import opened TagIndex

  /** The character that a two-character escape of RFC 8259, section 7, stands for. */
  function ShortEscape(c: char): char {
    match c
    case 'b' => '\U{0008}'
    case 'f' => '\U{000C}'
    case 'n' => '\U{000A}'
    case 'r' => '\U{000D}'
    case 't' => '\U{0009}'
    case _ => c
  }

  /** Reads the inside of a JSON string; of the four-digit escapes those below U+0100. */
  function Unescape(t: string): string {
    if t == "" then ""
    else if t[0] != '\\' then [t[0]] + Unescape(t[1..])
    else if |t| >= 6 && t[1..4] == "u00" && IsHexDigit(t[4]) && IsHexDigit(t[5]) then
      [(16 * Nibble(t[4]) + Nibble(t[5])) as char] + Unescape(t[6..])
    else if |t| >= 2 then [ShortEscape(t[1])] + Unescape(t[2..])
    else ""
  }

  lemma UnescapeShort(c: char, rest: string)
    requires c != 'u'
    ensures Unescape(['\\', c] + rest) == [ShortEscape(c)] + Unescape(rest)
  {
    var t := ['\\', c] + rest;
    assert t[2..] == rest;
    if |t| >= 6 { assert t[1..4][0] == c; }
  }

  lemma UnescapeDigits(hi: char, lo: char, rest: string)
    requires IsHexDigit(hi) && IsHexDigit(lo)
    ensures Unescape("\\u00" + [hi, lo] + rest) == [(16 * Nibble(hi) + Nibble(lo)) as char] + Unescape(rest)
  {
    var t := "\\u00" + [hi, lo] + rest;
    assert t[1..4] == "u00" && t[4] == hi && t[5] == lo && t[6..] == rest;
  }

  lemma UnescapeChar(c: char, rest: string)
    ensures Unescape(EscapeChar(c) + rest) == [c] + Unescape(rest)
  {
    var e := EscapeChar(c);
    if c == '"' || c == '\\' || c == '\U{0008}' || c == '\U{000C}' || c == '\n' || c == '\r' || c == '\t' {
      assert e == ['\\', e[1]];
      UnescapeShort(e[1], rest);
    } else if c < ' ' {
      assert e == "\\u00" + [Digit(c as int / 16), Digit(c as int % 16)];
      UnescapeDigits(Digit(c as int / 16), Digit(c as int % 16), rest);
    } else {
      assert e == [c] && ([c] + rest)[1..] == rest;
    }
  }

  /** The JSON text of a string stands for that very string, so different strings have different texts. */
  lemma {:induction false} JsonRoundTrip(s: string)
    ensures Unescape(EscapeJson(s)) == s
  {
    if s != "" {
      UnescapeChar(s[0], EscapeJson(s[1..]));
      JsonRoundTrip(s[1..]);
    }
  }

  /** No character of the text but the backslash of an escape and what follows it is special. */
  lemma {:induction false} NothingLeftToEscape(s: string)
    ensures forall i :: 0 <= i < |EscapeJson(s)| && EscapeJson(s)[i] == '"' ==> i > 0 && EscapeJson(s)[i - 1] == '\\'
    ensures forall c :: c in EscapeJson(s) ==> c >= ' '
  {
    if s != "" {
      NothingLeftToEscape(s[1..]);
      var e, rest := EscapeChar(s[0]), EscapeJson(s[1..]);
      assert EscapeJson(s) == e + rest;
      assert forall i :: |e| <= i < |e + rest| ==> (e + rest)[i] == rest[i - |e|];
    }
  }
}
