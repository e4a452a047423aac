/// 7-Zip's packed integer (`src/parser/parsers/sevenz_uint64.rs`): the
/// number `k` of leading one bits of the first byte says how many bytes
/// follow; those `k` bytes are the low part of the value, little-endian, and
/// the first byte's remaining low `8 - k` bits are its high part.
module SevenzUint64 {
  import opened Base
  import opened Err
  import opened Nom

  /// The number of leading one bits of `b`, by the range `b` lies in.
  function LeadingOnes(b: bv8): (k: nat)
    ensures k <= 8
  {
    if b == 0xFF then 8
    else if b >= 0xFE then 7
    else if b >= 0xFC then 6
    else if b >= 0xF8 then 5
    else if b >= 0xF0 then 4
    else if b >= 0xE0 then 3
    else if b >= 0xC0 then 2
    else if b >= 0x80 then 1
    else 0
  }

  /// `LeadingOnes` counts the one bits before the first zero bit.
  lemma LeadingOnesCounts(b: bv8)
    ensures forall i :: 0 <= i < LeadingOnes(b) ==> Bit(b, i)
    ensures LeadingOnes(b) < 8 ==> !Bit(b, LeadingOnes(b))
  {
  }

  /// The source's test `((b << shift) & 0b1000_0000) > 0` reads bit `shift`.
  lemma ShiftedTopBit(b: bv8, shift: nat)
    requires shift < 8
    ensures ((b << shift) & 0x80 != 0) <==> Bit(b, shift)
  {
  }

  /// `count_leading_ones`: scans from the top bit and stops at the first zero.
  method CountLeadingOnes(b: bv8) returns (num: nat)
    ensures num == LeadingOnes(b)
  {
    LeadingOnesCounts(b);
    num := 0;
    var shift := 0;
    while shift < 8
      invariant 0 <= shift <= 8 && num == shift
      invariant forall i :: 0 <= i < shift ==> Bit(b, i)
    {
      ShiftedTopBit(b, shift);
      if (b << shift) & 0x80 != 0 {
        num := num + 1;
      } else {
        return;
      }
      shift := shift + 1;
    }
  }

  /// The first byte masked to its low `8 - k` bits: `first & ((1 << (8 - k)) - 1)`.
  /// For `k = 8` the mask is empty.
  function LowBits(b: bv8, k: nat): nat
    requires k <= 8
  {
    (b as int) % Pow2(8 - k)
  }

  /// The bit after the leading ones is zero and lies inside the mask, so the
  /// masked part is below `2^(7 - k)`; and the first byte is at least
  /// `256 - 2^(8 - k)`, the value of `k` ones followed by zeros.
  lemma LowBitsBound(b: bv8, k: nat)
    requires k == LeadingOnes(b)
    ensures k < 8 ==> LowBits(b, k) < Pow2(7 - k)
    ensures k == 8 ==> LowBits(b, k) == 0
    ensures b as int >= 256 - Pow2(8 - k)
  {
    Pow2Small();
  }

  /// The decoded value of a first byte `b` with `k` leading ones and the
  /// `k` bytes `tail` that follow it; it fits a `u64`.
  function Combine(b: bv8, tail: Bytes): (v: nat)
    requires |tail| == LeadingOnes(b)
    ensures v < 0x1_0000_0000_0000_0000
  {
    var k := |tail|;
    var v := LeValue(tail) + LowBits(b, k) * Pow256(k);
    CombineBits(b, tail, k);
    v
  }

  /// For `k < 8` the value is below `2^(7(k + 1))`; for `k = 8` it is the
  /// eight following bytes.
  lemma CombineBits(b: bv8, tail: Bytes, k: nat)
    requires k == |tail| == LeadingOnes(b)
    ensures k < 8 ==> LeValue(tail) + LowBits(b, k) * Pow256(k) < Pow2(7 * (k + 1))
    ensures k == 8 ==> LeValue(tail) + LowBits(b, k) * Pow256(k) == LeValue(tail)
    ensures 0 <= LowBits(b, k) * Pow256(k)
    ensures LeValue(tail) + LowBits(b, k) * Pow256(k) < 0x1_0000_0000_0000_0000
  {
    MulNat(LowBits(b, k), Pow256(k));
    LowBitsBound(b, k);
    if k < 8 {
      ShortBound(k, LeValue(tail), LowBits(b, k));
    } else {
      assert LowBits(b, k) * Pow256(k) == 0;
      Pow256IsPow2(8);
      Pow64();
    }
  }

  lemma ShortBound(k: nat, lo: nat, low: nat)
    requires k < 8 && lo < Pow256(k) && low < Pow2(7 - k)
    ensures lo + low * Pow256(k) < Pow2(7 * (k + 1))
    ensures lo + low * Pow256(k) < 0x1_0000_0000_0000_0000
  {
    var p := Pow256(k);
    MulMono(low + 1, Pow2(7 - k), p);
    assert (low + 1) * p == low * p + p;
    Pow256IsPow2(k);
    Pow2Add(7 - k, 8 * k);
    assert 7 - k + 8 * k == 7 * (k + 1);
    Pow2Mono(7 * (k + 1), 64);
    Pow64();
  }

  lemma MulMono(a: nat, b: nat, c: nat)
    requires a <= b
    ensures a * c <= b * c
  {
  }

  lemma Pow64()
    ensures Pow2(64) == 0x1_0000_0000_0000_0000
  {
    Pow256IsPow2(8);
    Pow256Widths();
  }

  /// `sevenz_uint64`, as a function of the input: the result the method below computes.
  function Varint(input: Bytes): (r: Res<U64>)
  {
    if |input| == 0 then Fail(Error(Nom(Eof)))
    else
      var k := LeadingOnes(input[0]);
      if |input| < 1 + k then Fail(Error(Nom(Eof)))
      else Ok(Combine(input[0], input[1..1 + k]), input[1 + k..])
  }

  lemma CombineValue(b: bv8, tail: Bytes)
    requires |tail| == LeadingOnes(b)
    ensures Combine(b, tail) == LeValue(tail) + LowBits(b, |tail|) * Pow256(|tail|)
  {
  }

  lemma LeValuePrefixStep(s: Bytes, i: nat)
    requires i < |s|
    ensures LeValue(s[..i + 1]) == LeValue(s[..i]) + s[i] as int * Pow256(i)
  {
    assert s[..i + 1] == s[..i] + [s[i]];
    LeValueSnoc(s[..i], s[i]);
  }

  /// `sevenz_uint64`: read the first byte, count its leading ones, add each
  /// following byte at its place, then the masked first byte above them.
  method SevenzUint64Parse(input: Bytes) returns (r: Res<U64>)
    ensures r == Varint(input)
  {
    if |input| == 0 {
      return Fail(Error(Nom(Eof)));
    }
    var first := input[0];
    var tail := input[1..];
    var rest := tail;
    var val: int := 0;
    var leadingOnes := CountLeadingOnes(first);
    var i := 0;
    while i < leadingOnes
      invariant 0 <= i <= leadingOnes && i <= |tail|
      invariant rest == tail[i..]
      invariant val == LeValue(tail[..i])
    {
      if |rest| == 0 {
        return Fail(Error(Nom(Eof)));
      }
      assert rest[0] == tail[i];
      LeValuePrefixStep(tail, i);
      val := val + rest[0] as int * Pow256(i);
      rest := rest[1..];
      i := i + 1;
    }
    // `<< (leading_ones * 8)` with `leading_ones = 8` shifts a u64 by 64: a
    // panic in a debug build, a shift by 0 of the empty mask in a release
    // build. The release behaviour is modelled: the term is 0.
    val := val + LowBits(first, leadingOnes) * Pow256(leadingOnes);
    VarintOfParts(input, val, rest);
    return Ok(val, rest);
  }

  /// The value the loop of `SevenzUint64Parse` assembles is `Varint`'s.
  lemma VarintOfParts(input: Bytes, val: int, rest: Bytes)
    requires |input| >= 1 && |input| >= 1 + LeadingOnes(input[0])
    requires var k := LeadingOnes(input[0]);
      val == LeValue(input[1..][..k]) + LowBits(input[0], k) * Pow256(k) && rest == input[1..][k..]
    ensures Varint(input) == Ok(val, rest)
  {
    var k := LeadingOnes(input[0]);
    assert input[1..][..k] == input[1..1 + k] && rest == input[1 + k..];
    CombineValue(input[0], input[1..1 + k]);
  }

  /// Exact byte accounting: the parse succeeds exactly when the `k` bytes
  /// announced by the leading ones are present, and consumes `1 + k` bytes.
  lemma VarintConsumes(input: Bytes)
    ensures Varint(input).Ok? <==> |input| >= 1 && |input| >= 1 + LeadingOnes(input[0])
    ensures Varint(input).Ok? ==> Varint(input).rest == input[1 + LeadingOnes(input[0])..]
    ensures Varint(input).Fail? ==> Varint(input).fault == Error(Nom(Eof))
  {
  }

  /// The value is the `k` following bytes read little-endian plus the masked
  /// first byte shifted left by `8 * k` bits.
  lemma VarintValue(input: Bytes)
    requires Varint(input).Ok?
    ensures var k := LeadingOnes(input[0]);
      Varint(input).value == LeValue(input[1..1 + k]) + LowBits(input[0], k) * Pow2(8 * k)
  {
    Pow256IsPow2(LeadingOnes(input[0]));
  }

  /// A `(k + 1)`-byte encoding with `k < 8` holds a value below `2^(7k + 7)`;
  /// with `k = 8` (first byte 0xFF) the value is the eight following bytes.
  lemma VarintBound(input: Bytes)
    requires Varint(input).Ok?
    ensures LeadingOnes(input[0]) < 8 ==> Varint(input).value < Pow2(7 * (LeadingOnes(input[0]) + 1))
    ensures input[0] == 0xFF ==> Varint(input).value == LeValue(input[1..9])
  {
    var k := LeadingOnes(input[0]);
    CombineBits(input[0], input[1..1 + k], k);
  }

  /// The fixtures of `src/parser/parsers/test.rs:44-47`, one lemma each.
  lemma VarintFixtureZero()
    ensures Varint([0, 0, 0, 0, 0, 0, 0, 0]) == Ok(0, [0, 0, 0, 0, 0, 0, 0])
  {
    OneByteFixture(0x00, [0, 0, 0, 0, 0, 0, 0]);
  }

  lemma VarintFixtureMax()
    ensures Varint([0x7F, 0x7F, 0x7F, 0x7F, 0x7F, 0x7F, 0x7F, 0x7F]) == Ok(127, [0x7F, 0x7F, 0x7F, 0x7F, 0x7F, 0x7F, 0x7F])
  {
    OneByteFixture(0x7F, [0x7F, 0x7F, 0x7F, 0x7F, 0x7F, 0x7F, 0x7F]);
  }

  lemma VarintFixtureTwo()
    ensures Varint([0x80, 42, 0, 0, 0, 0, 0, 0]) == Ok(42, [0, 0, 0, 0, 0, 0])
  {
    TwoByteFixture(0x80, 0, [0, 0, 0, 0, 0, 0]);
  }

  lemma VarintFixtureHigh()
    ensures Varint([0x8F, 42, 0, 0, 0, 0, 0, 0]) == Ok(3882, [0, 0, 0, 0, 0, 0])
  {
    TwoByteFixture(0x8F, 15, [0, 0, 0, 0, 0, 0]);
  }

  lemma OneByteFixture(b: bv8, rest: Bytes)
    requires b < 0x80
    ensures Varint([b] + rest) == Ok(b as int, rest)
  {
    var input := [b] + rest;
    assert LeadingOnes(b) == 0;
    assert input[1..][..0] == [] && input[1..][0..] == rest;
    assert Pow2(8) == 256;
    assert LowBits(b, 0) == b as int;
    VarintOfParts(input, b as int, rest);
  }

  lemma TwoByteFixture(b: bv8, high: nat, rest: Bytes)
    requires 0x80 <= b < 0xC0 && high == b as int - 128
    ensures Varint([b, 42] + rest) == Ok(42 + 256 * high, rest)
  {
    var input := [b, 42] + rest;
    assert LeadingOnes(b) == 1;
    assert input[1..][..1] == [42] && input[1..][1..] == rest;
    assert LeValue([42]) == 42;
    assert Pow2(7) == 128;
    assert LowBits(b, 1) == high;
    VarintOfParts(input, 42 + 256 * high, rest);
  }

  /// The number of bytes after the first one in the shortest encoding of `v`.
  function EncodedLength(v: U64): (k: nat)
    ensures k <= 8
    ensures k < 8 ==> v < Pow2(7 * (k + 1))
    ensures 0 < k < 8 ==> v >= Pow2(7 * k)
  {
    EncodedLengthFrom(v, 0)
  }

  function EncodedLengthFrom(v: U64, k: nat): (n: nat)
    requires k <= 8
    requires 0 < k < 8 ==> v >= Pow2(7 * k)
    ensures k <= n <= 8
    ensures n < 8 ==> v < Pow2(7 * (n + 1))
    ensures 0 < n < 8 ==> v >= Pow2(7 * n)
    decreases 8 - k
  {
    if k == 8 || v < Pow2(7 * (k + 1)) then k else EncodedLengthFrom(v, k + 1)
  }

  /// The shortest packed encoding of `v`: `k` one bits, a zero bit and the
  /// high part of `v` in the first byte, then the low `k` bytes of `v`.
  function Encode(v: U64): (e: Bytes)
    ensures 1 <= |e| <= 9
  {
    var k := EncodedLength(v);
    if k < 8 then EncodeShort(v, k) else Pow256Widths(); [0xFF] + LeBytes(v, 8)
  }

  /// The encoding with `k < 8` bytes after the first one.
  function EncodeShort(v: nat, k: nat): (e: Bytes)
    requires k < 8 && v < Pow2(7 * (k + 1))
    ensures |e| == k + 1
  {
    var p := Pow256(k);
    EncodeBoundShort(v, k);
    var first := 256 - Pow2(8 - k) + v / p;
    [ByteOf(first)] + LeBytes(v % p, k)
  }

  lemma EncodeBoundShort(v: nat, k: nat)
    requires k < 8 && v < Pow2(7 * (k + 1))
    ensures v / Pow256(k) < Pow2(7 - k)
    ensures 0 <= 256 - Pow2(8 - k) + v / Pow256(k) < 256 - Pow2(7 - k)
    ensures v % Pow256(k) < Pow256(k)
  {
    var p := Pow256(k);
    var a := Pow2(7 - k);
    Pow256IsPow2(k);
    Pow2Add(7 - k, 8 * k);
    assert 7 - k + 8 * k == 7 * (k + 1);
    assert v < a * p;
    DivLt(v, a, p);
    assert Pow2(8 - k) == 2 * a;
    Pow2Mono(8 - k, 8);
    Pow2Small();
    var q := v / p;
    DivFacts(v, p);
    assert q < a && 2 * a <= 256;
    assert 0 <= 256 - 2 * a + q < 256 - a;
  }

  lemma DivLt(v: nat, a: nat, p: nat)
    requires p > 0 && v < a * p
    ensures v / p < a
  {
    var d := v / p;
    assert d * p <= v;
    if d >= a {
      MulMono(a, d, p);
    }
  }

  lemma LeadingOnesRange(b: bv8)
    ensures 256 - Pow2(8 - LeadingOnes(b)) <= b as int
    ensures LeadingOnes(b) < 8 ==> b as int < 256 - Pow2(7 - LeadingOnes(b))
  {
    Pow2Small();
  }
  lemma SameCount(n: int, k: nat, j: nat, q: nat)
    requires k <= 8 && j <= 8 && q < (if k < 8 then Pow2(7 - k) else 1)
    requires n == 256 - Pow2(8 - k) + q
    requires 256 - Pow2(8 - j) <= n && (j < 8 ==> n < 256 - Pow2(7 - j))
    ensures j == k
  {
    if j < k {
      Pow2Mono(8 - k, 7 - j);
      assert false;
    } else if j > k {
      assert Pow2(8 - k) == 2 * Pow2(7 - k);
      Pow2Mono(8 - j, 7 - k);
      assert false;
    }
  }
  lemma LowOfRange(n: int, k: nat, q: nat)
    requires k <= 8 && q < (if k < 8 then Pow2(7 - k) else 1)
    requires n == 256 - Pow2(8 - k) + q
    ensures n % Pow2(8 - k) == q
  {
    Pow2Small();
    if k == 0 { } else if k == 1 { } else if k == 2 { } else if k == 3 { }
    else if k == 4 { } else if k == 5 { } else if k == 6 { } else if k == 7 { } else { }
  }
  /// A first byte in `[256 - 2^(8 - k), 256 - 2^(7 - k))` has exactly `k`
  /// leading ones, and its masked part is its offset in that range.
  lemma FirstByteOfRange(b: bv8, k: nat, q: nat)
    requires k <= 8 && q < (if k < 8 then Pow2(7 - k) else 1)
    requires b as int == 256 - Pow2(8 - k) + q
    ensures LeadingOnes(b) == k && LowBits(b, k) == q
  {
    LeadingOnesRange(b);
    SameCount(b as int, k, LeadingOnes(b), q);
    LowOfRange(b as int, k, q);
  }

  /// Round trip: the packed encoding of any `u64` decodes to it and
  /// consumes exactly the encoding.
  lemma VarintRoundTrip(v: U64, rest: Bytes)
    ensures Varint(Encode(v) + rest) == Ok(v, rest)
  {
    var k := EncodedLength(v);
    if k < 8 {
      ShortRoundTrip(v, k, rest);
    } else {
      Pow256Widths();
      LongRoundTrip(v, rest);
    }
  }

  lemma LongRoundTrip(v: U64, rest: Bytes)
    requires v < Pow256(8)
    ensures Varint([0xFF] + LeBytes(v, 8) + rest) == Ok(v, rest)
  {
    var input := [0xFF] + LeBytes(v, 8) + rest;
    assert LeadingOnes(0xFF) == 8;
    assert input[1..][..8] == LeBytes(v, 8) && input[1..][8..] == rest;
    LeValueOfLeBytes(v, 8);
    assert LowBits(0xFF, 8) == 0;
    VarintOfParts(input, v, rest);
  }

  lemma ShortRoundTrip(v: U64, k: nat, rest: Bytes)
    requires k < 8 && v < Pow2(7 * (k + 1))
    ensures Varint(EncodeShort(v, k) + rest) == Ok(v, rest)
  {
    var input := EncodeShort(v, k) + rest;
    var p := Pow256(k);
    EncodeBoundShort(v, k);
    DivFacts(v, p);
    var q, low := v / p, v % p;
    var b := input[0];
    assert b as int == 256 - Pow2(8 - k) + q;
    FirstByteOfRange(b, k, q);
    var tail := input[1..1 + k];
    assert tail == LeBytes(low, k);
    assert input[1 + k..] == rest;
    LeValueOfLeBytes(low, k);
    CombineValue(b, tail);
    assert Combine(b, tail) == low + q * p;
  }

  /// `sevenz_uint64_as_usize`: the same bytes, converted to `usize`; a value
  /// above `usize::MAX` is a recoverable conversion error.
  function VarintAsUsize(input: Bytes): (r: Res<Usize>)
    ensures r.Ok? <==> Varint(input).Ok? && Varint(input).value <= USIZE_MAX
    ensures r.Ok? ==> r.value == Varint(input).value && r.rest == Varint(input).rest
    ensures Varint(input).Ok? && Varint(input).value > USIZE_MAX ==>
      r == Fail(Error(ConversionFailure(ToUsize)))
    ensures Varint(input).Fail? ==> r == Fail(Varint(input).fault)
  {
    var v :- Varint(input);
    if v.value <= USIZE_MAX then Ok(v.value, v.rest) else Fail(Error(ConversionFailure(ToUsize)))
  }

  /// `sevenz_uint64_as_usize` reads back the encoding of any `usize`.
  lemma VarintAsUsizeRoundTrip(n: Usize, rest: Bytes)
    ensures VarintAsUsize(Encode(n) + rest) == Ok(n, rest)
  {
    VarintRoundTrip(n, rest);
  }

  /// A value below 128 is stored as the single byte holding it.
  lemma EncodeSmall(v: U64)
    requires v < 128
    ensures Encode(v) == [ByteOf(v)]
  {
    Pow2Small();
    assert EncodedLengthFrom(v, 0) == 0;
    assert Pow256(0) == 1;
  }

  /// `Varint` as a parser value, for the combinators.
  function VarintP(): Bytes -> Res<U64> {
    x => Varint(x)
  }

  function VarintAsUsizeP(): Bytes -> Res<Usize> {
    x => VarintAsUsize(x)
  }

  lemma VarintConsuming()
    ensures Consuming(VarintP())
  {
    forall x | VarintP()(x).Ok? ensures Suffix(VarintP()(x).rest, x) {
      VarintConsumes(x);
    }
  }
}
