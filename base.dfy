/// Value types shared by every part of the decoder: bytes, the fixed-width
/// unsigned integers the archive format stores, `Option` and `Either`, and
/// little-endian byte strings.
module Base {

  type Bytes = seq<bv8>

  type U16 = x: int | 0 <= x < 0x1_0000
  type U32 = x: int | 0 <= x < 0x1_0000_0000
  type U64 = x: int | 0 <= x < 0x1_0000_0000_0000_0000

  /// `usize::MAX` of the target. The crate is `no_std`; the model fixes a
  /// 32-bit target so that the `u64 -> usize` conversion can fail. Every
  /// contract is stated in terms of this constant, not of its value.
  const USIZE_MAX: nat := 0xFFFF_FFFF

  type Usize = x: int | 0 <= x <= USIZE_MAX

  datatype Option<+T> = None | Some(value: T)

  /// `either::Either`: by the crate's convention `Left` is an index into an
  /// external data stream and `Right` is the inline value.
  datatype Either<+L, +R> = Left(left: L) | Right(right: R)

  function Pow2(k: nat): (p: nat)
    ensures 0 < p
  {
    if k == 0 then 1 else 2 * Pow2(k - 1)
  }

  function Pow256(k: nat): (p: nat)
    ensures 0 < p
  {
    if k == 0 then 1 else 256 * Pow256(k - 1)
  }

  /// The powers of two up to a byte.
  lemma Pow2Small()
    ensures Pow2(0) == 1 && Pow2(1) == 2 && Pow2(2) == 4 && Pow2(3) == 8 && Pow2(4) == 16
    ensures Pow2(5) == 32 && Pow2(6) == 64 && Pow2(7) == 128 && Pow2(8) == 256
  {
  }

  lemma MulNat(a: nat, b: nat)
    ensures a * b >= 0
  {
  }

  lemma {:induction false} Pow2Add(a: nat, b: nat)
    ensures Pow2(a + b) == Pow2(a) * Pow2(b)
  {
    if a > 0 {
      Pow2Add(a - 1, b);
      assert Pow2(a + b) == 2 * Pow2(a - 1 + b);
    }
  }

  lemma {:induction false} Pow2Mono(a: nat, b: nat)
    requires a <= b
    ensures Pow2(a) <= Pow2(b)
  {
    if a < b {
      Pow2Mono(a, b - 1);
    }
  }

  lemma {:induction false} Pow256IsPow2(k: nat)
    ensures Pow256(k) == Pow2(8 * k)
  {
    if k > 0 {
      Pow256IsPow2(k - 1);
      Pow2Add(8, 8 * (k - 1));
      assert Pow2(8) == 256;
    }
  }

  /// The byte holding the small number `m`, built from its two hexadecimal
  /// digits (a direct `m as bv8` is far harder for the solver).
  function ByteOf(m: int): (b: bv8)
    requires 0 <= m < 256
    ensures b as int == m
  {
    var h, l := Digit(m / 16), Digit(m % 16);
    assert m == 16 * (m / 16) + m % 16;
    h * 16 + l
  }

  /// The byte holding the hexadecimal digit `x`.
  lemma ByteOfByte(x: bv8)
    ensures ByteOf(x as int) == x
  {
  }

  function Digit(x: int): (b: bv8)
    requires 0 <= x < 16
    ensures b as int == x
  {
    if x < 8 then
      if x < 4 then (if x == 0 then 0 else if x == 1 then 1 else if x == 2 then 2 else 3)
      else (if x == 4 then 4 else if x == 5 then 5 else if x == 6 then 6 else 7)
    else
      if x < 12 then (if x == 8 then 8 else if x == 9 then 9 else if x == 10 then 10 else 11)
      else (if x == 12 then 12 else if x == 13 then 13 else if x == 14 then 14 else 15)
  }

  /// Bit `i` of `b`, counting from the most significant bit.
  predicate Bit(b: bv8, i: nat)
    requires i < 8
  {
    b & TopMask(i) != 0
  }

  /// The byte with only bit `i` set, counting from the most significant bit.
  function TopMask(i: nat): bv8
    requires i < 8
  {
    if i == 0 then 0x80 else if i == 1 then 0x40 else if i == 2 then 0x20 else if i == 3 then 0x10
    else if i == 4 then 0x08 else if i == 5 then 0x04 else if i == 6 then 0x02 else 0x01
  }

  /// The number whose little-endian encoding is `b` (first byte least significant).
  function LeValue(b: Bytes): (v: nat)
    ensures v < Pow256(|b|)
  {
    if |b| == 0 then 0 else b[0] as int + 256 * LeValue(b[1..])
  }

  /// The `k`-byte little-endian encoding of `v`.
  function LeBytes(v: nat, k: nat): (b: Bytes)
    requires v < Pow256(k)
    ensures |b| == k
  {
    if k == 0 then [] else [ByteOf(v % 256)] + LeBytes(v / 256, k - 1)
  }

  lemma {:induction false} LeValueOfLeBytes(v: nat, k: nat)
    requires v < Pow256(k)
    ensures LeValue(LeBytes(v, k)) == v
  {
    if k > 0 {
      var q, m := v / 256, v % 256;
      assert q < Pow256(k - 1);
      LeValueOfLeBytes(q, k - 1);
      var b := LeBytes(v, k);
      assert b[1..] == LeBytes(q, k - 1);
      assert b[0] as int == m;
      assert LeValue(b) == m + 256 * q;
    }
  }

  lemma {:induction false} LeBytesOfLeValue(b: Bytes)
    ensures LeBytes(LeValue(b), |b|) == b
  {
    if |b| > 0 {
      LeBytesOfLeValue(b[1..]);
      var v := LeValue(b);
      var rest := LeValue(b[1..]);
      assert v == b[0] as int + 256 * rest;
      DivMod256(v, rest, b[0] as int);
      assert ByteOf(v % 256) == b[0];
      assert LeBytes(v, |b|) == [ByteOf(v % 256)] + LeBytes(rest, |b| - 1);
    }
  }

  /// The two halves of a concatenation, taken apart again.
  lemma SplitConcat(a: Bytes, b: Bytes)
    ensures (a + b)[..|a|] == a && (a + b)[|a|..] == b
  {
  }

  /// Concatenation regrouped to the right.
  lemma Assoc3(a: Bytes, b: Bytes, c: Bytes)
    ensures a + b + c == a + (b + c)
  {
  }

  lemma Assoc4(a: Bytes, b: Bytes, c: Bytes, d: Bytes)
    ensures a + b + c + d == a + (b + (c + d))
  {
  }

  lemma Assoc5(a: Bytes, b: Bytes, c: Bytes, d: Bytes, e: Bytes)
    ensures a + b + c + d + e == a + (b + (c + (d + e)))
  {
  }

  lemma Assoc6(a: Bytes, b: Bytes, c: Bytes, d: Bytes, e: Bytes, r: Bytes)
    ensures a + b + c + d + e + r == a + (b + (c + (d + (e + r))))
  {
  }

  lemma Assoc7(a: Bytes, b: Bytes, c: Bytes, d: Bytes, e: Bytes, f: Bytes, r: Bytes)
    ensures a + b + c + d + e + f + r == a + (b + (c + (d + (e + (f + r)))))
  {
  }

  lemma Assoc9(a: Bytes, b: Bytes, c: Bytes, d: Bytes, e: Bytes, f: Bytes, g: Bytes, h: Bytes, r: Bytes)
    ensures a + b + c + d + e + f + g + h + r == a + (b + (c + (d + (e + (f + (g + (h + r)))))))
  {
  }

  /// Euclidean division by a positive divisor.
  lemma DivFacts(v: nat, p: nat)
    requires p > 0
    ensures 0 <= v / p && v / p * p <= v && 0 <= v % p < p && v == v / p * p + v % p
  {
  }

  lemma DivMod256(a: int, q: int, r: int)
    requires 0 <= r < 256 && a == r + 256 * q
    ensures a % 256 == r && a / 256 == q
  {
  }

  lemma {:induction false} LeValueSnoc(s: Bytes, b: bv8)
    ensures LeValue(s + [b]) == LeValue(s) + b as int * Pow256(|s|)
  {
    if |s| > 0 {
      var t := s[1..];
      assert (s + [b])[1..] == t + [b];
      assert (s + [b])[0] == s[0];
      LeValueSnoc(t, b);
      var x := b as int;
      var p := Pow256(|t|);
      assert Pow256(|s|) == 256 * p;
      assert LeValue(s + [b]) == s[0] as int + 256 * LeValue(t + [b]);
      assert LeValue(t + [b]) == LeValue(t) + x * p;
      assert LeValue(s) == s[0] as int + 256 * LeValue(t);
      MulDist(LeValue(t), x, p);
    }
  }

  lemma MulDist(a: int, x: int, p: int)
    ensures 256 * (a + x * p) == 256 * a + x * (256 * p)
  {
  }
}
