/// `take_bitvec` (`src/parser/parsers/bit.rs`): the first `num_bits` bits of
/// the input as a bit vector, the most significant bit of each byte first,
/// consuming every byte that contributes a bit.
module Bits {
  import opened Base
  import opened Err

  /// The number of bytes that hold `n` bits.
  function Ceil8(n: nat): (c: nat)
    ensures 8 * c - 8 < n <= 8 * c
  {
    (n + 7) / 8
  }

  /// The number of bits chunk `j` of an `n`-bit read takes: eight, except
  /// for a last, partial chunk of `n % 8` bits.
  function ChunkWidth(n: nat, j: nat): (w: nat)
    requires j < Ceil8(n)
    ensures 1 <= w <= 8
    ensures w == 8 <==> 8 * j + 8 <= n
    ensures 8 * j + w <= n
  {
    if 8 * j + 8 <= n then 8 else n % 8
  }

  /// The specification: the first `n` bits of `input`, byte by byte and most
  /// significant bit first, and the input after the `Ceil8(n)` bytes they come
  /// from. Too short an input makes nom's bit reader fail, and that failure
  /// is turned into a panic.
  function TakeBits(input: Bytes, n: nat): Res<seq<bool>>
  {
    var c := Ceil8(n);
    if |input| < c then Fail(Panic(BitVecTruncated))
    else Ok(InputBits(input, n), input[c..])
  }

  /// Bit `i` is bit `i % 8` of byte `i / 8`, counting from the top.
  function InputBits(input: Bytes, n: nat): (s: seq<bool>)
    requires |input| >= Ceil8(n)
    ensures |s| == n
  {
    seq(n, i requires 0 <= i < n => Bit(input[i / 8], i % 8))
  }

  lemma InputBitsExt(input: Bytes, n: nat, s: seq<bool>)
    requires |input| >= Ceil8(n) && |s| == n
    requires forall i :: 0 <= i < n ==> s[i] == Bit(input[i / 8], i % 8)
    ensures s == InputBits(input, n)
  {
  }

  lemma TakeBitsShape(input: Bytes, n: nat)
    ensures TakeBits(input, n).Ok? <==> |input| >= Ceil8(n)
    ensures TakeBits(input, n).Ok? ==>
      |TakeBits(input, n).value| == n && TakeBits(input, n).rest == input[Ceil8(n)..]
    ensures TakeBits(input, n).Fail? ==> TakeBits(input, n).fault == Panic(BitVecTruncated)
    ensures n == 0 ==> TakeBits(input, n) == Ok([], input)
  {
  }

  /// nom's `bits(take(w))` on bytes, for `1 <= w <= 8`: the top `w` bits of
  /// the next byte as a right-aligned number; the partly read byte is
  /// consumed whole.
  function BitsTake(input: Bytes, w: nat): (r: Res<bv8>)
    requires 1 <= w <= 8
    ensures r.Ok? <==> |input| > 0
    ensures r.Ok? ==> r.rest == input[1..]
  {
    if |input| == 0 then Fail(Error(Nom(Eof))) else Ok(input[0] >> (8 - w), input[1..])
  }

  /// A right-aligned `w`-bit chunk moved back to the top of its byte.
  function LeftAlign(x: bv8, w: nat): bv8
    requires 1 <= w <= 8
  {
    x << (8 - w)
  }

  /// Shifting the top `w` bits down and back up keeps each of them.
  lemma AlignedBit(b: bv8, w: nat, i: nat)
    requires 1 <= w <= 8 && i < w
    ensures Bit(LeftAlign(b >> (8 - w), w), i) == Bit(b, i)
  {
    if w == 1 {
    } else if w == 2 {
    } else if w == 3 {
    } else if w == 4 {
    } else if w == 5 {
    } else if w == 6 {
    } else if w == 7 {
    }
  }

  /// Chunk `j` of an `n`-bit read of `input`, moved to the top of its byte.
  function Chunk(input: Bytes, n: nat, j: nat): bv8
    requires j < Ceil8(n) && j < |input|
  {
    LeftAlign(RightAligned(input, n, j), ChunkWidth(n, j))
  }

  /// The bytes the read loop collects.
  ghost predicate RawChunks(input: Bytes, n: nat, raw: Bytes)
  {
    |raw| <= Ceil8(n) && |raw| <= |input| &&
    forall j :: 0 <= j < |raw| ==> raw[j] == Chunk(input, n, j)
  }

  /// The bits of `bv` are the bits of `raw`, most significant first.
  ghost predicate MsbView(raw: Bytes, bv: seq<bool>, len: nat)
  {
    |bv| == len && len <= 8 * |raw| &&
    forall i :: 0 <= i < len ==> bv[i] == Bit(raw[i / 8], i % 8)
  }

  /// `take_bitvec` with its read loop as written and the two changes that
  /// make it return the bits most significant first: each chunk is moved
  /// back to the top of its byte before it is stored, and the stored bytes
  /// are viewed most significant bit first. The surplus bits of a partial
  /// last chunk are then the last ones, and the pop loop removes them.
  method TakeBitvec(input: Bytes, numBits: Usize) returns (r: Res<seq<bool>>)
    ensures r == TakeBits(input, numBits)
  {
    var read := ReadChunks(input, numBits);
    if read.Fail? {
      return Fail(read.fault);
    }
    var rawBits := read.value;
    var numTailBits := numBits % 8;

    var bv: seq<bool> := [];
    var j := 0;
    while j < |rawBits|
      invariant 0 <= j <= |rawBits|
      invariant MsbView(rawBits, bv, 8 * j)
    {
      MsbViewByte(rawBits, bv, j);
      bv := bv + seq(8, k requires 0 <= k < 8 => Bit(rawBits[j], k));
      j := j + 1;
    }
    var excessBits := if numTailBits != 0 then 8 - numTailBits else 0;
    Ceil8Excess(numBits);
    for popped := 0 to excessBits
      invariant numBits <= |bv| && MsbView(rawBits, bv, |bv|)
      invariant |bv| == numBits + excessBits - popped
    {
      MsbViewPop(rawBits, bv);
      bv := bv[..|bv| - 1];
    }
    ChunksAreInputBits(input, numBits, rawBits, bv);
    return Ok(bv, read.rest);
  }

  /// The read loop of `take_bitvec`: `Ceil8(numBits)` chunks of at most eight
  /// bits, one byte each. `left` drops by eight while it is at least eight
  /// and otherwise equals `numBits % 8`, so the "not supposed to be reached"
  /// panic is unreachable.
  method ReadChunks(input: Bytes, numBits: Usize) returns (r: Res<Bytes>)
    ensures r.Ok? <==> |input| >= Ceil8(numBits)
    ensures r.Ok? ==> |r.value| == Ceil8(numBits) && RawChunks(input, numBits, r.value)
    ensures r.Ok? ==> r.rest == input[Ceil8(numBits)..]
    ensures r.Fail? ==> r.fault == Panic(BitVecTruncated)
  {
    var numTailBits := numBits % 8;
    var left: nat := numBits;
    var inputMut := input;
    var rawBits: Bytes := [];
    while left > 0
      invariant left <= numBits
      invariant left > 0 ==> 8 * |rawBits| + left == numBits
      invariant left == 0 ==> |rawBits| == Ceil8(numBits)
      invariant RawChunks(input, numBits, rawBits)
      invariant inputMut == input[|rawBits|..]
      decreases left
    {
      var chunk := if left < 8 then left else 8;
      Split8(numBits, |rawBits|, left);
      assert chunk == ChunkWidth(numBits, |rawBits|);
      var step := BitsTake(inputMut, chunk);
      if step.Fail? {
        return Fail(Panic(BitVecTruncated));
      }
      assert LeftAlign(step.value, chunk) == Chunk(input, numBits, |rawBits|);
      RawChunksSnoc(input, numBits, rawBits);
      rawBits := rawBits + [LeftAlign(step.value, chunk)];
      inputMut := step.rest;
      if left >= 8 {
        left := left - 8;
      } else if left == numTailBits {
        left := left - numTailBits;
      } else {
        assert false;
      }
    }
    return Ok(rawBits, inputMut);
  }

  lemma Ceil8Excess(n: nat)
    ensures 8 * Ceil8(n) == n + (if n % 8 != 0 then 8 - n % 8 else 0)
  {
    var q, t := n / 8, n % 8;
    assert n == 8 * q + t;
    if t == 0 {
      assert Ceil8(n) == q;
    } else {
      assert Ceil8(n) == q + 1;
    }
  }

  /// `n` bits of which `8 * q` are read and `left` are left.
  lemma Split8(n: nat, q: nat, left: nat)
    requires 0 < left && n == 8 * q + left
    ensures q < Ceil8(n)
    ensures left < 8 ==> n % 8 == left && Ceil8(n) == q + 1
    ensures left >= 8 ==> (left - 8) % 8 == n % 8
  {
  }

  lemma RawChunksSnoc(input: Bytes, n: nat, raw: Bytes)
    requires RawChunks(input, n, raw) && |raw| < Ceil8(n) && |raw| < |input|
    ensures RawChunks(input, n, raw + [Chunk(input, n, |raw|)])
  {
  }

  lemma MsbViewByte(raw: Bytes, bv: seq<bool>, j: nat)
    requires j < |raw| && MsbView(raw, bv, 8 * j)
    ensures MsbView(raw, bv + seq(8, k requires 0 <= k < 8 => Bit(raw[j], k)), 8 * j + 8)
  {
  }

  lemma MsbViewPop(raw: Bytes, bv: seq<bool>)
    requires |bv| > 0 && MsbView(raw, bv, |bv|)
    ensures MsbView(raw, bv[..|bv| - 1], |bv| - 1)
  {
  }

  lemma ChunksAreInputBits(input: Bytes, n: nat, raw: Bytes, bv: seq<bool>)
    requires |raw| == Ceil8(n) && RawChunks(input, n, raw)
    requires MsbView(raw, bv, n)
    ensures bv == InputBits(input, n)
  {
    forall i | 0 <= i < n
      ensures bv[i] == Bit(input[i / 8], i % 8)
    {
      ChunkBitIsInputBit(input, n, raw[i / 8], i);
    }
    InputBitsExt(input, n, bv);
  }

  lemma ChunkBitIsInputBit(input: Bytes, n: nat, x: bv8, i: nat)
    requires i < n && i / 8 < |input| && i / 8 < Ceil8(n)
    requires x == Chunk(input, n, i / 8)
    ensures Bit(x, i % 8) == Bit(input[i / 8], i % 8)
  {
    var j, m := i / 8, i % 8;
    assert i == 8 * j + m && m < 8;
    var w := ChunkWidth(n, j);
    assert m < w;
    AlignedBit(input[j], w, m);
  }

  /// The bits of `b`, most significant first.
  function MsbBits(b: bv8): (s: seq<bool>)
    ensures |s| == 8 && forall k :: 0 <= k < 8 ==> s[k] == Bit(b, k)
  {
    [Bit(b, 0), Bit(b, 1), Bit(b, 2), Bit(b, 3), Bit(b, 4), Bit(b, 5), Bit(b, 6), Bit(b, 7)]
  }

  /// A byte-at-a-time reference for the bits `TakeBits` returns.
  function BitsOf(input: Bytes, n: nat): (s: seq<bool>)
    requires |input| >= Ceil8(n)
    ensures |s| == n
    decreases n
  {
    if n == 0 then []
    else if n <= 8 then MsbBits(input[0])[..n]
    else MsbBits(input[0]) + BitsOf(input[1..], n - 8)
  }

  lemma {:induction false} BitsOfBit(input: Bytes, n: nat, i: nat)
    requires |input| >= Ceil8(n) && i < n
    ensures BitsOf(input, n)[i] == Bit(input[i / 8], i % 8)
    decreases n
  {
    if n > 8 && i >= 8 {
      BitsOfBit(input[1..], n - 8, i - 8);
      Div8Step(i);
    }
  }

  lemma Div8Step(i: nat)
    requires i >= 8
    ensures (i - 8) / 8 == i / 8 - 1 && (i - 8) % 8 == i % 8
  {
  }

  lemma TakeBitsByBytes(input: Bytes, n: nat)
    requires |input| >= Ceil8(n)
    ensures TakeBits(input, n) == Ok(BitsOf(input, n), input[Ceil8(n)..])
  {
    forall i | 0 <= i < n
      ensures BitsOf(input, n)[i] == Bit(input[i / 8], i % 8)
    {
      BitsOfBit(input, n, i);
    }
    InputBitsExt(input, n, BitsOf(input, n));
  }

  /// The cases of the `take_bitvec` unit test: input bytes, bit count, the
  /// bits returned and the bytes left of ten.
  lemma TakeBitsFixtures()
    ensures TakeBits([0, 0, 0, 0, 0, 0, 0, 0, 0, 0], 0) == Ok([], [0, 0, 0, 0, 0, 0, 0, 0, 0, 0])
    ensures TakeBits([0x10, 0, 0, 0, 0, 0, 0, 0, 0, 0], 4) ==
      Ok([false, false, false, true], [0, 0, 0, 0, 0, 0, 0, 0, 0])
    ensures TakeBits([0x01, 0, 0, 0, 0, 0, 0, 0, 0, 0], 8) ==
      Ok([false, false, false, false, false, false, false, true], [0, 0, 0, 0, 0, 0, 0, 0, 0])
    ensures TakeBits([0xB0, 0, 0, 0, 0, 0, 0, 0, 0, 0], 4) ==
      Ok([true, false, true, true], [0, 0, 0, 0, 0, 0, 0, 0, 0])
    ensures TakeBits([0x82, 0, 0, 0, 0, 0, 0, 0, 0, 0], 8) ==
      Ok([true, false, false, false, false, false, true, false], [0, 0, 0, 0, 0, 0, 0, 0, 0])
    ensures TakeBits([0x5F, 0, 0, 0, 0, 0, 0, 0, 0, 0], 5) ==
      Ok([false, true, false, true, true], [0, 0, 0, 0, 0, 0, 0, 0, 0])
  {
    Fixture1(0x10, 4, [false, false, false, true]);
    Fixture1(0x01, 8, [false, false, false, false, false, false, false, true]);
    Fixture1(0xB0, 4, [true, false, true, true]);
    Fixture1(0x82, 8, [true, false, false, false, false, false, true, false]);
    Fixture1(0x5F, 5, [false, true, false, true, true]);
  }

  /// The three-byte case of the unit test: twenty bits leave seven bytes.
  /// The expected bits are the test's list, written one byte per line.
  lemma TakeBitsFixture20()
    ensures TakeBits([0x82, 0x22, 0x9F, 0, 0, 0, 0, 0, 0, 0], 20) ==
      Ok([true, false, false, false, false, false, true, false] + (
        [false, false, true, false, false, false, true, false] +
        [true, false, false, true]), [0, 0, 0, 0, 0, 0, 0])
  {
    var c: Bytes := [0x82, 0x22, 0x9F, 0, 0, 0, 0, 0, 0, 0];
    TakeBitsByBytes(c, 20);
    FixtureBytes();
    assert c[0] == 0x82 && c[1..][0] == 0x22 && c[1..][1..] == c[2..] && c[2..][0] == 0x9F;
    BitsOfStep(c, 20);
    BitsOfStep(c[1..], 12);
    assert BitsOf(c[2..], 4) == MsbBits(0x9F)[..4] == [true, false, false, true];
    assert BitsOf(c, 20) == MsbBits(0x82) + (MsbBits(0x22) + [true, false, false, true]);
    assert Ceil8(20) == 3 && c[3..] == [0, 0, 0, 0, 0, 0, 0];
  }

  /// The two-byte case of the unit test: sixteen bits leave eight bytes.
  /// The expected bits are the test's list, written one byte per line.
  lemma TakeBitsFixture16()
    ensures TakeBits([0x82, 0x22, 0, 0, 0, 0, 0, 0, 0, 0], 16) ==
      Ok([true, false, false, false, false, false, true, false] +
        [false, false, true, false, false, false, true, false], [0, 0, 0, 0, 0, 0, 0, 0])
  {
    var c: Bytes := [0x82, 0x22, 0, 0, 0, 0, 0, 0, 0, 0];
    TakeBitsByBytes(c, 16);
    FixtureBytes();
    BitsOfStep(c, 16);
    assert c[0] == 0x82 && c[1..][0] == 0x22 && BitsOf(c[1..], 8) == MsbBits(0x22);
    assert BitsOf(c, 16) == MsbBits(0x82) + MsbBits(0x22);
    assert Ceil8(16) == 2 && c[2..] == [0, 0, 0, 0, 0, 0, 0, 0];
  }

  /// The nine-byte case of the unit test: seventy-two bits leave one byte.
  /// The expected bits are the test's list, written one byte per line.
  lemma TakeBitsFixture72()
    ensures TakeBits([0x82, 0x22, 0x9F, 0, 0, 0, 0, 0x5B, 0xB4, 0], 72) ==
      Ok([true, false, false, false, false, false, true, false] + (
        [false, false, true, false, false, false, true, false] + (
        [true, false, false, true, true, true, true, true] + (
        [false, false, false, false, false, false, false, false] + (
        [false, false, false, false, false, false, false, false] + (
        [false, false, false, false, false, false, false, false] + (
        [false, false, false, false, false, false, false, false] + (
        [false, true, false, true, true, false, true, true] + (
        [true, false, true, true, false, true, false, false])))))))), [0])
  {
    var c: Bytes := [0x82, 0x22, 0x9F, 0, 0, 0, 0, 0x5B, 0xB4, 0];
    TakeBitsByBytes(c, 72);
    Fixture72Pieces(c);
    FixtureBytes();
    assert Ceil8(72) == 9 && c[9..] == [0];
  }

  /// The byte-at-a-time reading of the nine-byte case, one byte per piece.
  lemma Fixture72Pieces(c: Bytes)
    requires c == [0x82, 0x22, 0x9F, 0, 0, 0, 0, 0x5B, 0xB4, 0]
    ensures BitsOf(c, 72) == MsbBits(0x82) + (MsbBits(0x22) + (MsbBits(0x9F) + (MsbBits(0) + (MsbBits(0) +
      (MsbBits(0) + (MsbBits(0) + (MsbBits(0x5B) + MsbBits(0xB4))))))))
  {
    assert c[8..][0] == 0xB4 && BitsOf(c[8..], 8) == MsbBits(0xB4);
    assert c[7..][1..] == c[8..] && c[7..][0] == 0x5B;
    BitsOfStep(c[7..], 16);
    assert c[6..][1..] == c[7..] && c[6..][0] == 0;
    BitsOfStep(c[6..], 24);
    assert c[5..][1..] == c[6..] && c[5..][0] == 0;
    BitsOfStep(c[5..], 32);
    assert c[4..][1..] == c[5..] && c[4..][0] == 0;
    BitsOfStep(c[4..], 40);
    assert c[3..][1..] == c[4..] && c[3..][0] == 0;
    BitsOfStep(c[3..], 48);
    assert c[2..][1..] == c[3..] && c[2..][0] == 0x9F;
    BitsOfStep(c[2..], 56);
    assert c[1..][1..] == c[2..] && c[1..][0] == 0x22;
    BitsOfStep(c[1..], 64);
    BitsOfStep(c, 72);
  }
  /// The bits of the bytes the unit test uses, most significant first.
  lemma FixtureBytes()
    ensures MsbBits(0x82) == [true, false, false, false, false, false, true, false]
    ensures MsbBits(0x22) == [false, false, true, false, false, false, true, false]
    ensures MsbBits(0x9F) == [true, false, false, true, true, true, true, true]
    ensures MsbBits(0) == [false, false, false, false, false, false, false, false]
    ensures MsbBits(0x5B) == [false, true, false, true, true, false, true, true]
    ensures MsbBits(0xB4) == [true, false, true, true, false, true, false, false]
  {
  }

  /// One whole byte of the byte-at-a-time reading.
  lemma BitsOfStep(c: Bytes, n: nat)
    requires n > 8 && |c| >= Ceil8(n)
    ensures BitsOf(c, n) == MsbBits(c[0]) + BitsOf(c[1..], n - 8)
  {
  }

  /// A one-byte case of the unit test: `b` then nine zero bytes.
  lemma Fixture1(b: bv8, n: nat, expected: seq<bool>)
    requires 0 < n <= 8 && expected == MsbBits(b)[..n]
    ensures TakeBits([b, 0, 0, 0, 0, 0, 0, 0, 0, 0], n) == Ok(expected, [0, 0, 0, 0, 0, 0, 0, 0, 0])
  {
    var a: Bytes := [b, 0, 0, 0, 0, 0, 0, 0, 0, 0];
    TakeBitsByBytes(a, n);
    assert a[1..] == [0, 0, 0, 0, 0, 0, 0, 0, 0];
  }

  /// The byte whose leading bits are `s` and whose other bits are zero.
  function PackByte(s: seq<bool>): bv8
    requires |s| <= 8
  {
    if |s| == 0 then 0 else (if s[0] then 0x80 else 0) | (PackByte(s[1..]) >> 1)
  }

  lemma ShiftBit(y: bv8, i: nat)
    requires i < 8
    ensures Bit(y >> 1, i) == (i > 0 && Bit(y, i - 1))
  {
    if i == 0 {
    } else if i == 1 {
    } else if i == 2 {
    } else if i == 3 {
    } else if i == 4 {
    } else if i == 5 {
    } else if i == 6 {
    }
  }

  lemma OrBit(a: bv8, b: bv8, i: nat)
    requires i < 8
    ensures Bit(a | b, i) == (Bit(a, i) || Bit(b, i))
  {
  }

  lemma {:induction false} PackByteBit(s: seq<bool>, i: nat)
    requires |s| <= 8 && i < 8
    ensures Bit(PackByte(s), i) == (i < |s| && s[i])
  {
    if |s| > 0 {
      var top: bv8 := if s[0] then 0x80 else 0;
      OrBit(top, PackByte(s[1..]) >> 1, i);
      ShiftBit(PackByte(s[1..]), i);
      if i > 0 {
        PackByteBit(s[1..], i - 1);
        assert !Bit(top, i);
      }
    }
  }

  /// The writer's side: `bits` packed most significant bit first, the last
  /// byte padded with zero bits.
  function Pack(bits: seq<bool>): (b: Bytes)
    ensures |b| == Ceil8(|bits|)
    decreases |bits|
  {
    if |bits| == 0 then []
    else if |bits| <= 8 then [PackByte(bits)]
    else [PackByte(bits[..8])] + Pack(bits[8..])
  }

  lemma {:induction false} PackBit(bits: seq<bool>, i: nat)
    requires i < |bits|
    ensures i / 8 < |Pack(bits)| && Bit(Pack(bits)[i / 8], i % 8) == bits[i]
    decreases |bits|
  {
    if |bits| <= 8 {
      PackByteBit(bits, i);
    } else if i < 8 {
      PackByteBit(bits[..8], i);
    } else {
      PackBit(bits[8..], i - 8);
      Div8Step(i);
    }
  }

  /// Reading back `|bits|` bits of a packing of `bits` gives `bits` and
  /// leaves whatever followed.
  lemma TakeBitsPack(bits: seq<bool>, rest: Bytes)
    ensures TakeBits(Pack(bits) + rest, |bits|) == Ok(bits, rest)
  {
    var input := Pack(bits) + rest;
    var n := |bits|;
    forall i | 0 <= i < n
      ensures Bit(input[i / 8], i % 8) == bits[i]
    {
      PackBit(bits, i);
    }
    InputBitsExt(input, n, bits);
    assert input[Ceil8(n)..] == rest;
  }

  /// Chunk `j` of an `n`-bit read of `input` as nom's bit reader returns it.
  function RightAligned(input: Bytes, n: nat, j: nat): bv8
    requires j < Ceil8(n) && j < |input|
  {
    input[j] >> (8 - ChunkWidth(n, j))
  }

  /// `take_bitvec` as written: each chunk is stored right-aligned, as nom's
  /// bit reader returns it, and the stored bytes are viewed least significant
  /// bit first before the surplus bits are popped off the end.
  function TakeBitvecAsWritten(input: Bytes, n: nat): Res<seq<bool>>
  {
    var c := Ceil8(n);
    if |input| < c then Fail(Panic(BitVecTruncated))
    else
      var raw := seq(c, j requires 0 <= j < c => RightAligned(input, n, j));
      Ok(seq(n, i requires 0 <= i < n => Bit(raw[i / 8], 7 - i % 8)), input[c..])
  }

  /// As written, the unit test's cases come out with each chunk reversed:
  /// for 0b1000_0010 read as eight bits the first bit returned is 0 and the
  /// seventh is 0, and for 0b0001_0000 read as four bits the first is 1.
  lemma TakeBitvecAsWrittenReversesChunks()
    ensures TakeBitvecAsWritten([0x82, 0, 0, 0, 0, 0, 0, 0, 0, 0], 8).value[0] == false
    ensures TakeBitvecAsWritten([0x82, 0, 0, 0, 0, 0, 0, 0, 0, 0], 8).value[1] == true
    ensures TakeBitvecAsWritten([0x10, 0, 0, 0, 0, 0, 0, 0, 0, 0], 4).value[0] == true
    ensures TakeBitvecAsWritten([0x10, 0, 0, 0, 0, 0, 0, 0, 0, 0], 4).value[3] == false
    ensures TakeBits([0x82, 0, 0, 0, 0, 0, 0, 0, 0, 0], 8).value[0] == true
    ensures TakeBits([0x10, 0, 0, 0, 0, 0, 0, 0, 0, 0], 4).value[0] == false
  {
    var x: Bytes := [0x82, 0, 0, 0, 0, 0, 0, 0, 0, 0];
    assert RightAligned(x, 8, 0) == 0x82;
    var y: Bytes := [0x10, 0, 0, 0, 0, 0, 0, 0, 0, 0];
    assert ChunkWidth(4, 0) == 4;
    assert RightAligned(y, 4, 0) == 0x01;
  }
}
