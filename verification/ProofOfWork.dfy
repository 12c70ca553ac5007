/** Proof of work by leading zero bits (section "Validating" of NIP-13). */
module ProofOfWork {
  import opened Hex

  function Pow2(n: nat): (p: nat)
    ensures p >= 1
  {
    if n == 0 then 1 else 2 * Pow2(n - 1)
  }

  /** The big-endian value of a buffer. */
  function BigEndian(b: Bytes): nat {
    if b == [] then 0 else b[0] * Pow2(8 * (|b| - 1)) + BigEndian(b[1..])
  }

  /** k is the number of leading zero bits of a value written on the given number of bits. */
  predicate LeadingZeros(value: nat, bits: nat, k: nat) {
    && k <= bits
    && value < Pow2(bits - k)
    && (k == bits || Pow2(bits - k - 1) <= value)
  }

  lemma {:induction false} Pow2Adds(a: nat, b: nat)
    ensures Pow2(a + b) == Pow2(a) * Pow2(b)
  {
    if a != 0 {
      Pow2Adds(a - 1, b);
      TwiceProduct(Pow2(a - 1), Pow2(b));
    }
  }

  lemma TwiceProduct(p: nat, q: nat)
    ensures 2 * (p * q) == (2 * p) * q
  {
  }

  lemma {:induction false} Pow2Monotonic(a: nat, b: nat)
    requires a <= b
    ensures Pow2(a) <= Pow2(b)
  {
    if a < b {
      Pow2Monotonic(a, b - 1);
    }
  }

  lemma MulMonotonic(a: nat, b: nat, c: nat)
    requires a <= b
    ensures a * c <= b * c
  {
  }

  lemma {:induction false} BigEndianBound(b: Bytes)
    ensures BigEndian(b) < Pow2(8 * |b|)
  {
    if b != [] {
      var rest := Pow2(8 * (|b| - 1));
      BigEndianBound(b[1..]);
      Pow2Adds(8, 8 * (|b| - 1));
      assert Pow2(8) == 256;
      var first: int := b[0];
      var next: nat := first + 1;
      MulMonotonic(next, 256, rest);
      assert next * rest == b[0] * rest + rest;
    }
  }

  lemma ScaledBounds(f: nat, lo: nat, hi: nat, p: nat, tail: nat)
    requires lo <= f < hi && tail < p
    ensures lo * p <= f * p + tail < hi * p
  {
    MulMonotonic(lo, f, p);
    MulMonotonic(f + 1, hi, p);
    assert (f + 1) * p == f * p + p;
  }

  /** A first byte that is not zero decides the leading zero bits of the whole buffer. */
  lemma FirstByteDecides(b: Bytes, k: nat)
    requires b != [] && k < 8 && LeadingZeros(b[0], 8, k)
    ensures LeadingZeros(BigEndian(b), 8 * |b|, k)
  {
    var n := 8 * (|b| - 1);
    BigEndianBound(b[1..]);
    ScaledBounds(b[0], Pow2(7 - k), Pow2(8 - k), Pow2(n), BigEndian(b[1..]));
    Pow2Adds(8 - k, n);
    Pow2Adds(7 - k, n);
  }

  /** The shift loop: how many leading zero bits one byte has. */
  method Msb(byte: Byte) returns (zeros: nat)
    ensures LeadingZeros(byte, 8, zeros)
    ensures zeros == 8 <==> byte == 0
  {
    var b, n := byte, 0;
    if b == 0 {
      return 8;
    }
    assert Pow2(8) == 256;
    b := b / 2;
    while b != 0
      invariant n <= 7
      invariant b * Pow2(n + 1) <= byte < (b + 1) * Pow2(n + 1)
      invariant b == 0 ==> Pow2(n) <= byte
      invariant b != 0 ==> n < 7
      decreases b
    {
      Shift(b, n, byte);
      n := n + 1;
      b := b / 2;
    }
    zeros := 7 - n;
  }

  lemma Shift(b: nat, n: nat, byte: Byte)
    requires b != 0 && n < 7
    requires b * Pow2(n + 1) <= byte < (b + 1) * Pow2(n + 1)
    ensures (b / 2) * Pow2(n + 2) <= byte < (b / 2 + 1) * Pow2(n + 2)
    ensures Pow2(n + 1) <= byte
    ensures b / 2 != 0 ==> n + 1 < 7
  {
    var p, h := Pow2(n + 1), b / 2;
    HalfBounds(b, h, p, byte);
    MulMonotonic(1, b, p);
    assert Pow2(7) == 128;
    if h != 0 {
      MulMonotonic(2, b, p);
    }
  }

  lemma HalfBounds(b: nat, h: nat, p: nat, byte: nat)
    requires b == 2 * h || b == 2 * h + 1
    requires b * p <= byte < (b + 1) * p
    ensures h * (2 * p) <= byte < (h + 1) * (2 * p)
  {
    assert h * (2 * p) == 2 * (h * p) && (h + 1) * (2 * p) == 2 * (h * p) + 2 * p;
    if b == 2 * h {
      assert b * p == 2 * (h * p) && (b + 1) * p == 2 * (h * p) + p;
    } else {
      assert b * p == 2 * (h * p) + p && (b + 1) * p == 2 * (h * p) + 2 * p;
    }
  }

  /** The byte loop. */
  method GetLeadingZeroBits(hash: Bytes) returns (total: nat)
    ensures LeadingZeros(BigEndian(hash), 8 * |hash|, total)
  {
    total := 0;
    var i := 0;
    assert hash[0..] == hash;
    while i < |hash|
      invariant 0 <= i <= |hash| && total == 8 * i
      invariant BigEndian(hash) == BigEndian(hash[i..])
    {
      var bits := Msb(hash[i]);
      var suffix := hash[i..];
      assert suffix[0] == hash[i] && suffix[1..] == hash[i + 1..];
      total := total + bits;
      if bits != 8 {
        FirstByteDecides(suffix, bits);
        return;
      }
      i := i + 1;
    }
    assert hash[|hash|..] == [];
  }

  /** What the relay uses the number for: difficulty d is met exactly below the target 2^(bits - d). */
  lemma DifficultyMet(value: nat, bits: nat, k: nat, d: nat)
    requires LeadingZeros(value, bits, k) && d <= bits
    ensures k >= d <==> value < Pow2(bits - d)
  {
    if k >= d {
      Pow2Monotonic(bits - k, bits - d);
    } else {
      Pow2Monotonic(bits - d, bits - k - 1);
    }
  }

  /** The number is unique, so the two loops leave no choice. */
  lemma LeadingZerosUnique(value: nat, bits: nat, k: nat, m: nat)
    requires LeadingZeros(value, bits, k) && LeadingZeros(value, bits, m)
    ensures k == m
  {
    DifficultyMet(value, bits, k, m);
    DifficultyMet(value, bits, m, k);
  }
}
