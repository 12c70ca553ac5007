/** Decimal printing and joining, as JavaScript's toString and Array.join do them. */
module Strings {

  predicate IsDecimalDigit(c: char) {
    '0' <= c <= '9'
  }

  function Decimal(n: nat): (s: string)
    ensures s != "" && forall i :: 0 <= i < |s| ==> IsDecimalDigit(s[i])
  {
    var d := [(n % 10 + '0' as int) as char];
    if n < 10 then d else Decimal(n / 10) + d
  }

  function DecimalValue(s: string): nat
    requires forall i :: 0 <= i < |s| ==> IsDecimalDigit(s[i])
  {
    if s == "" then 0
    else
      var last := s[|s| - 1];
      assert IsDecimalDigit(last);
      10 * DecimalValue(s[..|s| - 1]) + (last as int - '0' as int)
  }

  lemma {:induction false} DecimalRoundTrip(n: nat)
    ensures DecimalValue(Decimal(n)) == n
  {
    if n >= 10 {
      DecimalRoundTrip(n / 10);
      assert Decimal(n)[..|Decimal(n)| - 1] == Decimal(n / 10);
    }
  }

  predicate StartsWithDigit(s: string) {
    s != "" && IsDecimalDigit(s[0])
  }

  /** A number ends where its digits end: what follows it can be told apart from it. */
  lemma DecimalPrefix(n: nat, m: nat, s: string, t: string)
    requires Decimal(n) + s == Decimal(m) + t
    requires !StartsWithDigit(s) && !StartsWithDigit(t)
    ensures n == m && s == t
  {
    var a, b := Decimal(n), Decimal(m);
    DigitsRunOn(a, b, s, t);
    DigitsRunOn(b, a, t, s);
    assert a == (a + s)[..|a|] == (b + t)[..|b|] == b;
    assert s == (a + s)[|a|..] == (b + t)[|b|..] == t;
    DecimalRoundTrip(n);
    DecimalRoundTrip(m);
  }

  lemma DigitsRunOn(a: string, b: string, s: string, t: string)
    requires a + s == b + t
    requires forall i :: 0 <= i < |b| ==> IsDecimalDigit(b[i])
    ensures |a| < |b| ==> StartsWithDigit(s)
  {
    if |a| < |b| {
      assert (a + s)[|a|] == s[0] && (b + t)[|a|] == b[|a|];
    }
  }

  lemma CancelLeft(p: string, s: string, t: string)
    requires p + s == p + t
    ensures s == t
  {
    assert s == (p + s)[|p|..] && t == (p + t)[|p|..];
  }

  lemma Regroup(a: string, b: string, c: string, d: string)
    ensures a + b + c + d == a + (b + (c + d))
  {
  }

  lemma RegroupSix(a: string, b: string, c: string, d: string, e: string, f: string)
    ensures a + b + c + d + e + f == a + (b + (c + (d + (e + f))))
  {
    Regroup(a, b, c, d + (e + f));
    Regroup(a + b + c, d, e, f);
  }

  function DecimalInt(i: int): string {
    if i < 0 then "-" + Decimal(-i) else Decimal(i)
  }

  function Join(parts: seq<string>, separator: string): string {
    if parts == [] then ""
    else if |parts| == 1 then parts[0]
    else parts[0] + separator + Join(parts[1..], separator)
  }
}
