/** Hex strings, byte strings, and the two ways the relay tests a hex prefix. */
module Hex {

  type Byte = b: int | 0 <= b < 256
  type Bytes = seq<Byte>

  predicate IsLowerHexDigit(c: char) {
    '0' <= c <= '9' || 'a' <= c <= 'f'
  }

  predicate IsLowerHex(s: string) {
    forall i :: 0 <= i < |s| ==> IsLowerHexDigit(s[i])
  }

  predicate IsHexDigit(c: char) {
    IsLowerHexDigit(c) || 'A' <= c <= 'F'
  }

  function Nibble(c: char): (n: int)
    requires IsHexDigit(c)
    ensures 0 <= n < 16
  {
    if '0' <= c <= '9' then c as int - '0' as int
    else if 'a' <= c <= 'f' then c as int - 'a' as int + 10
    else c as int - 'A' as int + 10
  }

  function Digit(n: int): (c: char)
    requires 0 <= n < 16
    ensures IsLowerHexDigit(c) && Nibble(c) == n
  {
    if n < 10 then (n + '0' as int) as char else (n - 10 + 'a' as int) as char
  }

  /** Upper case is read like lower case. */
  lemma UpperCaseReads(c: char)
    requires 'A' <= c <= 'F'
    ensures IsHexDigit(c) && Nibble(c) == Nibble((c as int + 32) as char)
  {
  }

  /** Buffer.from(s, 'hex'): whole pairs only, up to the first pair that is not hex. */
  function ToBuffer(s: string): Bytes {
    if |s| < 2 || !IsHexDigit(s[0]) || !IsHexDigit(s[1]) then []
    else [16 * Nibble(s[0]) + Nibble(s[1])] + ToBuffer(s[2..])
  }

  function Buffers(ss: seq<string>): (r: seq<Bytes>)
    ensures |r| == |ss| && forall i :: 0 <= i < |r| ==> r[i] == ToBuffer(ss[i])
  {
    seq(|ss|, i requires 0 <= i < |ss| => ToBuffer(ss[i]))
  }

  /** buffer.toString('hex') */
  function FromBuffer(b: Bytes): string {
    if b == [] then "" else [Digit(b[0] / 16), Digit(b[0] % 16)] + FromBuffer(b[1..])
  }

  lemma ByteDigits(x: Byte)
    ensures 16 * Nibble(Digit(x / 16)) + Nibble(Digit(x % 16)) == x
  {
  }

  lemma NibbleDigit(c: char)
    requires IsLowerHexDigit(c)
    ensures Digit(Nibble(c)) == c
  {
  }

  /** The two digits of a byte made of two digits. */
  lemma PairDigits(hi: char, lo: char)
    requires IsLowerHexDigit(hi) && IsLowerHexDigit(lo)
    ensures var x := 16 * Nibble(hi) + Nibble(lo); Digit(x / 16) == hi && Digit(x % 16) == lo
  {
    NibbleDigit(hi);
    NibbleDigit(lo);
  }

  lemma PairToBuffer(hi: char, lo: char, t: string)
    requires IsHexDigit(hi) && IsHexDigit(lo)
    ensures ToBuffer([hi, lo] + t) == [16 * Nibble(hi) + Nibble(lo)] + ToBuffer(t)
  {
    assert ([hi, lo] + t)[2..] == t;
  }

  lemma ByteFromBuffer(x: Byte, t: Bytes)
    ensures FromBuffer([x] + t) == [Digit(x / 16), Digit(x % 16)] + FromBuffer(t)
  {
    assert ([x] + t)[1..] == t;
  }

  lemma {:induction false} HexRoundTrip(s: string)
    requires IsLowerHex(s) && |s| % 2 == 0
    ensures |ToBuffer(s)| * 2 == |s|
    ensures FromBuffer(ToBuffer(s)) == s
  {
    if s != "" {
      var hi, lo, t := s[0], s[1], s[2..];
      assert s == [hi, lo] + t;
      HexRoundTrip(t);
      PairToBuffer(hi, lo, t);
      ByteFromBuffer(16 * Nibble(hi) + Nibble(lo), ToBuffer(t));
      PairDigits(hi, lo);
    }
  }

  lemma {:induction false} BytesRoundTrip(b: Bytes)
    ensures |FromBuffer(b)| == 2 * |b| && IsLowerHex(FromBuffer(b))
    ensures ToBuffer(FromBuffer(b)) == b
  {
    if b != [] {
      var x, t := b[0], b[1..];
      assert b == [x] + t;
      BytesRoundTrip(t);
      ByteFromBuffer(x, t);
      PairToBuffer(Digit(x / 16), Digit(x % 16), FromBuffer(t));
      ByteDigits(x);
    }
  }

  lemma ToBufferInjective(s: string, t: string)
    requires IsLowerHex(s) && |s| % 2 == 0
    requires IsLowerHex(t) && |t| % 2 == 0
    requires ToBuffer(s) == ToBuffer(t)
    ensures s == t
  {
    HexRoundTrip(s);
    HexRoundTrip(t);
  }

  /** substring(b from 1 for n) on a bytea column */
  function Substring(b: Bytes, n: nat): Bytes {
    if n <= |b| then b[..n] else b
  }

  /** The order of the bytea type: byte by byte, a proper prefix comes first. */
  predicate BytesLe(a: Bytes, b: Bytes) {
    a == [] || (b != [] && (a[0] < b[0] || (a[0] == b[0] && BytesLe(a[1..], b[1..]))))
  }

  lemma SingleByteLe(x: Byte, y: Byte)
    ensures BytesLe([x], [y]) <==> x <= y
  {
    var a: Bytes, b: Bytes := [x], [y];
    assert a[1..] == [];
  }

  lemma SubstringStep(b: Bytes, q: Bytes, n: nat)
    requires b != [] && q != [] && n > 0
    ensures Substring(b, n) == q <==> b[0] == q[0] && Substring(b[1..], n - 1) == q[1..]
  {
    var s := Substring(b, n);
    assert s == [b[0]] + Substring(b[1..], n - 1);
    assert q == [q[0]] + q[1..];
  }

  /** The byte of the first two digits, and the bytes of the rest. */
  lemma FirstPair(s: string)
    requires |s| >= 2 && IsHexDigit(s[0]) && IsHexDigit(s[1])
    ensures ToBuffer(s) == [16 * Nibble(s[0]) + Nibble(s[1])] + ToBuffer(s[2..])
  {
  }

  lemma PairPrefix(id: string, p: string)
    requires IsLowerHex(id) && IsLowerHex(p) && |id| >= 2 && |p| >= 2
    ensures p <= id
            <==> 16 * Nibble(id[0]) + Nibble(id[1]) == 16 * Nibble(p[0]) + Nibble(p[1]) && p[2..] <= id[2..]
  {
    DigitsOf(id[0], id[1], p[0], p[1]);
    FirstTwo(id, p);
    PrefixSplit(p, id, 2);
  }

  lemma {:induction false} EvenPrefix(id: string, p: string)
    requires IsLowerHex(id) && |id| % 2 == 0
    requires IsLowerHex(p) && |p| % 2 == 0
    ensures p <= id <==> Substring(ToBuffer(id), |p| / 2) == ToBuffer(p)
  {
    if p != "" && id != "" {
      EvenPrefix(id[2..], p[2..]);
      PairPrefix(id, p);
      FirstPair(id);
      FirstPair(p);
      SubstringStep(ToBuffer(id), ToBuffer(p), |p| / 2);
    }
  }

  /** The BETWEEN test of an odd prefix. */
  predicate Between(column: Bytes, p: string) {
    var s := Substring(column, |p| / 2 + 1);
    BytesLe(ToBuffer(p + "0"), s) && BytesLe(s, ToBuffer(p + "f"))
  }

  lemma BetweenStep(b: Bytes, p: string)
    requires IsLowerHex(p) && |p| % 2 == 1 && |p| > 1
    ensures Between(b, p) <==> b != [] && b[0] == 16 * Nibble(p[0]) + Nibble(p[1]) && Between(b[1..], p[2..])
  {
    assert (p + "0")[2..] == p[2..] + "0" && (p + "f")[2..] == p[2..] + "f";
    var lo, hi := ToBuffer(p + "0"), ToBuffer(p + "f");
    assert lo[1..] == ToBuffer(p[2..] + "0") && hi[1..] == ToBuffer(p[2..] + "f");
    if b != [] {
      var n := |p| / 2 + 1;
      assert Substring(b, n) == [b[0]] + Substring(b[1..], n - 1);
    }
  }

  lemma PairBuffer(hi: char, lo: char)
    requires IsHexDigit(hi) && IsHexDigit(lo)
    ensures ToBuffer([hi, lo]) == [16 * Nibble(hi) + Nibble(lo)]
  {
    PairToBuffer(hi, lo, "");
    assert [hi, lo] + "" == [hi, lo];
    assert ToBuffer("") == [];
  }

  /** A prefix of one digit tests the first byte alone. */
  lemma BetweenOne(b: Bytes, p: string)
    requires IsLowerHex(p) && |p| == 1
    ensures Between(b, p) <==> b != [] && 16 * Nibble(p[0]) <= b[0] <= 16 * Nibble(p[0]) + 15
  {
    assert p + "0" == [p[0], '0'] && p + "f" == [p[0], 'f'];
    PairBuffer(p[0], '0');
    PairBuffer(p[0], 'f');
    if b != [] {
      assert Substring(b, 1) == [b[0]];
      SingleByteLe(16 * Nibble(p[0]), b[0]);
      SingleByteLe(b[0], 16 * Nibble(p[0]) + 15);
    }
  }

  lemma FirstDigitDecides(c: char, hi: char, lo: char)
    requires IsLowerHexDigit(c) && IsLowerHexDigit(hi) && IsLowerHexDigit(lo)
    ensures 16 * Nibble(c) <= 16 * Nibble(hi) + Nibble(lo) <= 16 * Nibble(c) + 15 <==> c == hi
  {
    NibbleDigit(c);
    NibbleDigit(hi);
  }

  lemma OneDigit(id: string, p: string)
    requires IsLowerHex(id) && |id| % 2 == 0 && IsLowerHex(p) && |p| == 1
    ensures p <= id <==> Between(ToBuffer(id), p)
  {
    BetweenOne(ToBuffer(id), p);
    if id != "" {
      FirstBytes(id);
      FirstDigitDecides(p[0], id[0], id[1]);
    }
  }

  lemma FirstBytes(id: string)
    requires IsLowerHex(id) && |id| % 2 == 0 && id != ""
    ensures ToBuffer(id) != [] && ToBuffer(id)[0] == 16 * Nibble(id[0]) + Nibble(id[1])
  {
  }

  lemma {:induction false} OddPrefix(id: string, p: string)
    requires IsLowerHex(id) && |id| % 2 == 0
    requires IsLowerHex(p) && |p| % 2 == 1
    ensures p <= id <==> Between(ToBuffer(id), p)
  {
    if |p| == 1 {
      OneDigit(id, p);
    } else {
      BetweenStep(ToBuffer(id), p);
      if id != "" {
        OddPrefix(id[2..], p[2..]);
        PairPrefix(id, p);
        FirstPair(id);
      }
    }
  }

  lemma DigitsOf(a: char, b: char, c: char, d: char)
    requires IsLowerHexDigit(a) && IsLowerHexDigit(b) && IsLowerHexDigit(c) && IsLowerHexDigit(d)
    ensures 16 * Nibble(a) + Nibble(b) == 16 * Nibble(c) + Nibble(d) <==> a == c && b == d
  {
  }

  lemma FirstTwo(s: string, t: string)
    requires |s| >= 2 && |t| >= 2
    ensures s[..2] == t[..2] <==> s[0] == t[0] && s[1] == t[1]
  {
    if s[..2] == t[..2] {
      assert s[0] == s[..2][0] && s[1] == s[..2][1];
    }
  }

  lemma PrefixSplit(p: string, s: string, n: nat)
    requires n <= |p| && n <= |s|
    ensures p <= s <==> p[..n] == s[..n] && p[n..] <= s[n..]
  {
    assert p == p[..n] + p[n..] && s == s[..n] + s[n..];
    if p[..n] == s[..n] && p[n..] <= s[n..] {
      assert forall i :: n <= i < |p| ==> p[i] == p[n..][i - n] == s[n..][i - n] == s[i];
      assert forall i :: 0 <= i < n ==> p[i] == p[..n][i] == s[..n][i] == s[i];
    }
    if p <= s {
      assert forall i :: 0 <= i < |p| ==> p[i] == s[i];
    }
  }

  /** The byte-level test that the filter compiler emits for one prefix, chosen by its length. */
  predicate RowTest(column: Bytes, prefix: string) {
    if |prefix| == 64 then column == ToBuffer(prefix)
    else if |prefix| % 2 == 0 then Substring(column, |prefix| / 2) == ToBuffer(prefix)
    else Between(column, prefix)
  }

  /** The byte-level test answers string.startsWith, for prefixes of every length. */
  lemma PrefixCompilationExact(id: string, prefix: string)
    requires IsLowerHex(id) && |id| == 64 && IsLowerHex(prefix)
    ensures prefix <= id <==> RowTest(ToBuffer(id), prefix)
  {
    HexRoundTrip(id);
    if |prefix| % 2 == 0 {
      EvenPrefix(id, prefix);
    } else {
      OddPrefix(id, prefix);
    }
  }
}
