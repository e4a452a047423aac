/// The nom primitives and combinators the decoder is built from, in the
/// "complete input" flavour the crate imports (`nom::*::complete`), plus the
/// crate's own combinators `preceded_opt`, `either`, `many_cond_opt` and
/// `wrap_some`, which are described here by how the parsers use them.
///
/// A parser is a total function `Bytes -> Res<T>`. Every parser of the
/// model hands back a suffix of its input; `Suffix` states that, and the
/// combinators below keep it.
module Nom {
  import opened Base
  import opened Err

  /// `rest` is what is left of `input` after some prefix was consumed.
  predicate Suffix(rest: Bytes, input: Bytes) {
    |rest| <= |input| && rest == input[|input| - |rest|..]
  }

  /// Every successful run of `p` consumes a prefix of its input.
  ghost predicate Consuming<T>(p: Bytes -> Res<T>) {
    forall x :: p(x).Ok? ==> Suffix(p(x).rest, x)
  }

  /// Every successful run of `p` consumes exactly `w` bytes.
  ghost predicate FixedWidth<T>(p: Bytes -> Res<T>, w: nat) {
    forall x :: p(x).Ok? ==> |x| >= w && p(x).rest == x[w..]
  }

  lemma SuffixTrans(a: Bytes, b: Bytes, c: Bytes)
    requires Suffix(a, b) && Suffix(b, c)
    ensures Suffix(a, c)
  {
    assert c[|c| - |b|..][|b| - |a|..] == c[|c| - |a|..];
  }

  /// `nom::number::complete::u8`.
  function U8(input: Bytes): (r: Res<bv8>)
    ensures r.Ok? <==> |input| >= 1
    ensures r.Ok? ==> r.value == input[0] && r.rest == input[1..]
    ensures r.Fail? ==> r.fault == Error(Nom(Eof))
  {
    if |input| == 0 then Fail(Error(Nom(Eof))) else Ok(input[0], input[1..])
  }

  /// `nom::bytes::complete::take(n)`.
  function Take(n: nat, input: Bytes): (r: Res<Bytes>)
    ensures r.Ok? <==> |input| >= n
    ensures r.Ok? ==> r.value == input[..n] && r.rest == input[n..]
    ensures r.Fail? ==> r.fault == Error(Nom(Eof))
  {
    if |input| < n then Fail(Error(Nom(Eof))) else Ok(input[..n], input[n..])
  }

  /// `nom::bytes::complete::tag(t)`: a too short input is a mismatch too.
  function TagSeq(t: Bytes, input: Bytes): (r: Res<Bytes>)
    ensures r.Ok? <==> |input| >= |t| && input[..|t|] == t
    ensures r.Ok? ==> r.value == t && r.rest == input[|t|..]
    ensures r.Fail? ==> r.fault == Error(Nom(Tag))
  {
    if |input| >= |t| && input[..|t|] == t then Ok(t, input[|t|..]) else Fail(Error(Nom(Tag)))
  }

  /// `tag([b])`, the form every property-tag check of the crate takes.
  function TagByte(b: bv8, input: Bytes): (r: Res<Bytes>)
    ensures r.Ok? <==> |input| >= 1 && input[0] == b
    ensures r.Ok? ==> r.rest == input[1..]
    ensures r.Fail? ==> r.fault == Error(Nom(Tag))
  {
    TagSeq([b], input)
  }

  /// The tag byte `b` followed by anything is accepted and consumed.
  lemma TagByteOk(b: bv8, rest: Bytes)
    ensures TagByte(b, [b] + rest) == Ok([b], rest)
  {
    assert ([b] + rest)[..1] == [b];
    assert ([b] + rest)[1..] == rest;
  }

  /// Two tag bytes in a row.
  lemma TagPair(b: bv8, c: bv8, rest: Bytes)
    ensures TagByte(b, [b, c] + rest) == Ok([b], [c] + rest)
    ensures TagByte(c, [c] + rest) == Ok([c], rest)
  {
    assert [b, c] + rest == [b] + ([c] + rest);
    TagByteOk(b, [c] + rest);
    TagByteOk(c, rest);
  }

  /// `le_u16`, `le_u32`, `le_u64`: `k` bytes, least significant first.
  function LeUint(k: nat, input: Bytes): (r: Res<nat>)
    ensures r.Ok? <==> |input| >= k
    ensures r.Ok? ==> r.value == LeValue(input[..k]) && r.value < Pow256(k) && r.rest == input[k..]
    ensures r.Fail? ==> r.fault == Error(Nom(Eof))
  {
    var b :- Take(k, input);
    Ok(LeValue(b.value), b.rest)
  }

  lemma Pow256Widths()
    ensures Pow256(2) == 0x1_0000
    ensures Pow256(4) == 0x1_0000_0000
    ensures Pow256(8) == 0x1_0000_0000_0000_0000
  {
    assert Pow256(1) == 0x100;
    assert Pow256(2) == 0x1_0000;
    assert Pow256(3) == 0x100_0000;
    assert Pow256(4) == 0x1_0000_0000;
    assert Pow256(5) == 0x100_0000_0000;
    assert Pow256(6) == 0x1_0000_0000_0000;
    assert Pow256(7) == 0x100_0000_0000_0000;
  }

  function LeU16(input: Bytes): (r: Res<U16>)
    ensures r.Ok? <==> |input| >= 2
    ensures r.Ok? ==> r.value == LeValue(input[..2]) && r.rest == input[2..]
    ensures r.Fail? ==> r.fault == Error(Nom(Eof))
  {
    Pow256Widths();
    var v :- LeUint(2, input);
    Ok(v.value, v.rest)
  }

  function LeU32(input: Bytes): (r: Res<U32>)
    ensures r.Ok? <==> |input| >= 4
    ensures r.Ok? ==> r.value == LeValue(input[..4]) && r.rest == input[4..]
    ensures r.Fail? ==> r.fault == Error(Nom(Eof))
  {
    Pow256Widths();
    var v :- LeUint(4, input);
    Ok(v.value, v.rest)
  }

  function LeU64(input: Bytes): (r: Res<U64>)
    ensures r.Ok? <==> |input| >= 8
    ensures r.Ok? ==> r.value == LeValue(input[..8]) && r.rest == input[8..]
    ensures r.Fail? ==> r.fault == Error(Nom(Eof))
  {
    Pow256Widths();
    var v :- LeUint(8, input);
    Ok(v.value, v.rest)
  }

  /// `nom::combinator::opt`: a recoverable error becomes `None` and nothing
  /// is consumed; a fatal error or a panic goes through.
  function Opt<T>(r: Res<T>, input: Bytes): (o: Res<Option<T>>)
    ensures o.Ok? <==> r.Ok? || r.fault.Error?
    ensures r.Ok? ==> o == Ok(Some(r.value), r.rest)
    ensures r.Fail? && r.fault.Error? ==> o == Ok(None, input)
    ensures r.Fail? && !r.fault.Error? ==> o == Fail(r.fault)
  {
    match r
    case Ok(v, rest) => Ok(Some(v), rest)
    case Fail(Error(_)) => Ok(None, input)
    case Fail(f) => Fail(f)
  }

  /// `nom::combinator::cond`: run the parser only when `b` holds.
  function Cond<T>(b: bool, p: Bytes -> Res<T>, input: Bytes): (o: Res<Option<T>>)
    ensures !b ==> o == Ok(None, input)
    ensures b && p(input).Ok? ==> o == Ok(Some(p(input).value), p(input).rest)
    ensures b && p(input).Fail? ==> o == Fail(p(input).fault)
  {
    if !b then Ok(None, input)
    else
      var v :- p(input);
      Ok(Some(v.value), v.rest)
  }

  /// `preceded_opt(t, p)`: when the gate `t` matches, its bytes are consumed
  /// and `p` runs on what follows, its faults going through; when the gate
  /// fails with a nom error (recoverable or not), the result is `None` and
  /// nothing is consumed. A panic in the gate is not caught.
  function PrecededOpt<G, T>(gate: Bytes -> Res<G>, p: Bytes -> Res<T>, input: Bytes): (o: Res<Option<T>>)
    ensures gate(input).Fail? && !gate(input).fault.Panic? ==> o == Ok(None, input)
    ensures gate(input).Fail? && gate(input).fault.Panic? ==> o == Fail(gate(input).fault)
    ensures gate(input).Ok? && p(gate(input).rest).Ok? ==>
      o == Ok(Some(p(gate(input).rest).value), p(gate(input).rest).rest)
    ensures gate(input).Ok? && p(gate(input).rest).Fail? ==> o == Fail(p(gate(input).rest).fault)
  {
    match gate(input)
    case Fail(Panic(s)) => Fail(Panic(s))
    case Fail(_) => Ok(None, input)
    case Ok(_, rest) =>
      var v :- p(rest);
      Ok(Some(v.value), v.rest)
  }

  /// `either(b, l, r)`: `Left` from `l` when `b`, else `Right` from `r`.
  function EitherOf<L, R>(b: bool, l: Bytes -> Res<L>, r: Bytes -> Res<R>, input: Bytes): (o: Res<Either<L, R>>)
    ensures o.Ok? ==> (o.value.Left? <==> b)
    ensures b ==> o.Ok? == l(input).Ok? && (o.Ok? ==> o.value.left == l(input).value && o.rest == l(input).rest)
    ensures !b ==> o.Ok? == r(input).Ok? && (o.Ok? ==> o.value.right == r(input).value && o.rest == r(input).rest)
  {
    if b then
      var v :- l(input);
      Ok(Left(v.value), v.rest)
    else
      var v :- r(input);
      Ok(Right(v.value), v.rest)
  }

  /// `wrap_some(p)`: the result of `p` in `Some`.
  function WrapSome<T>(r: Res<T>): (o: Res<Option<T>>)
    ensures o.Ok? == r.Ok?
    ensures o.Ok? ==> o.value == Some(r.value) && o.rest == r.rest
    ensures o.Fail? ==> o.fault == r.fault
  {
    match r
    case Ok(v, rest) => Ok(Some(v), rest)
    case Fail(f) => Fail(f)
  }

  /// The alternative `second` is tried when `first` failed with a
  /// recoverable error; nom's `alt` over a tuple is a chain of these, so
  /// when every alternative fails recoverably the last one's error remains.
  function OrElse<T>(first: Res<T>, second: Res<T>): (o: Res<T>)
    ensures first.Fail? && first.fault.Error? ==> o == second
    ensures !(first.Fail? && first.fault.Error?) ==> o == first
  {
    if first.Fail? && first.fault.Error? then second else first
  }

  /// `nom::multi::count(p, n)`: exactly `n` items in order; the first
  /// failing item's fault goes through unchanged.
  function Count<T>(p: Bytes -> Res<T>, n: nat, input: Bytes): (r: Res<seq<T>>)
    ensures r.Ok? ==> |r.value| == n
    ensures n == 0 ==> r == Ok([], input)
    decreases n
  {
    if n == 0 then Ok([], input)
    else
      match p(input)
      case Fail(f) => Fail(f)
      case Ok(first, rest) =>
        match Count(p, n - 1, rest)
        case Fail(f) => Fail(f)
        case Ok(others, left) => Ok([first] + others, left)
  }

  lemma {:induction false} CountConsuming<T>(p: Bytes -> Res<T>, n: nat, input: Bytes)
    requires Consuming(p)
    ensures Count(p, n, input).Ok? ==> Suffix(Count(p, n, input).rest, input)
    decreases n
  {
    if n > 0 && p(input).Ok? {
      var rest := p(input).rest;
      CountConsuming(p, n - 1, rest);
      if Count(p, n - 1, rest).Ok? {
        SuffixTrans(Count(p, n - 1, rest).rest, rest, input);
      }
    }
  }

  /// `n` items of a `w`-byte parser take exactly `n * w` bytes.
  lemma CountFixedWidth<T>(p: Bytes -> Res<T>, w: nat, n: nat, input: Bytes)
    requires FixedWidth(p, w)
    ensures Count(p, n, input).Ok? ==> |input| >= n * w && Count(p, n, input).rest == input[n * w..]
  {
    CountTimes(p, w, n, input);
    TimesIsMul(n, w);
  }

  /// `n` copies of `w`, added one at a time.
  function Times(n: nat, w: nat): nat
  {
    if n == 0 then 0 else w + Times(n - 1, w)
  }

  lemma {:induction false} TimesIsMul(n: nat, w: nat)
    ensures Times(n, w) == n * w
  {
    if n > 0 {
      TimesIsMul(n - 1, w);
      MulPred(n, w);
    }
  }

  lemma {:induction false} CountTimes<T>(p: Bytes -> Res<T>, w: nat, n: nat, input: Bytes)
    requires FixedWidth(p, w)
    ensures Count(p, n, input).Ok? ==>
      |input| >= Times(n, w) && Count(p, n, input).rest == input[Times(n, w)..]
    decreases n
  {
    if n > 0 && p(input).Ok? {
      var rest := p(input).rest;
      CountTimes(p, w, n - 1, rest);
      if Count(p, n - 1, rest).Ok? {
        assert input[w..][Times(n - 1, w)..] == input[Times(n, w)..];
      }
    }
  }

  /// An item parser that cannot fail on enough input makes `count` fail
  /// exactly when the input is shorter than the `n` items.
  lemma CountFixedWidthOk<T>(p: Bytes -> Res<T>, w: nat, n: nat, input: Bytes)
    requires FixedWidth(p, w)
    requires forall x :: p(x).Ok? <==> |x| >= w
    ensures Count(p, n, input).Ok? <==> |input| >= n * w
  {
    CountTimesOk(p, w, n, input);
    TimesIsMul(n, w);
  }

  lemma {:induction false} CountTimesOk<T>(p: Bytes -> Res<T>, w: nat, n: nat, input: Bytes)
    requires FixedWidth(p, w)
    requires forall x :: p(x).Ok? <==> |x| >= w
    ensures Count(p, n, input).Ok? <==> |input| >= Times(n, w)
    decreases n
  {
    if n > 0 {
      if |input| >= w {
        assert p(input).Ok?;
        CountTimesOk(p, w, n - 1, p(input).rest);
      } else {
        assert !p(input).Ok?;
      }
    }
  }

  /// `length_count(len, p)`: a count read by `len`, then that many items.
  function LengthCount<T>(len: Bytes -> Res<Usize>, p: Bytes -> Res<T>, input: Bytes): (r: Res<seq<T>>)
    ensures len(input).Ok? && r.Ok? ==> |r.value| == len(input).value
    ensures len(input).Fail? ==> r == Fail(len(input).fault)
  {
    var n :- len(input);
    Count(p, n.value, n.rest)
  }

  /// `many_cond_opt(p, bits)`: one entry per bit, `p` run only where the
  /// bit is set; entries of clear bits are `None` and consume nothing.
  function ManyCondOpt<T>(p: Bytes -> Res<T>, bits: seq<bool>, input: Bytes): (r: Res<seq<Option<T>>>)
    ensures r.Ok? ==> |r.value| == |bits|
    ensures r.Ok? ==> forall i :: 0 <= i < |bits| ==> (r.value[i].Some? <==> bits[i])
    decreases |bits|
  {
    if |bits| == 0 then Ok([], input)
    else
      var first :- Cond(bits[0], p, input);
      var others :- ManyCondOpt(p, bits[1..], first.rest);
      Ok([first.value] + others.value, others.rest)
  }

  /// Only the set bits consume input: `w` bytes each.
  lemma ManyCondOptFixedWidth<T>(p: Bytes -> Res<T>, w: nat, bits: seq<bool>, input: Bytes)
    requires FixedWidth(p, w)
    ensures ManyCondOpt(p, bits, input).Ok? ==>
      |input| >= PopCount(bits) * w && ManyCondOpt(p, bits, input).rest == input[PopCount(bits) * w..]
  {
    ManyCondOptWidth(p, w, bits, input);
    CondWidthIsMul(bits, w);
  }

  /// The bytes taken by `w`-byte items at the set bits of `bits`.
  function CondWidth(bits: seq<bool>, w: nat): nat
  {
    if |bits| == 0 then 0 else (if bits[0] then w else 0) + CondWidth(bits[1..], w)
  }

  lemma {:induction false} CondWidthIsMul(bits: seq<bool>, w: nat)
    ensures CondWidth(bits, w) == PopCount(bits) * w
  {
    if |bits| > 0 {
      CondWidthIsMul(bits[1..], w);
      PopCountStep(bits, w);
    }
  }

  lemma {:induction false} ManyCondOptWidth<T>(p: Bytes -> Res<T>, w: nat, bits: seq<bool>, input: Bytes)
    requires FixedWidth(p, w)
    ensures ManyCondOpt(p, bits, input).Ok? ==>
      |input| >= CondWidth(bits, w) && ManyCondOpt(p, bits, input).rest == input[CondWidth(bits, w)..]
    decreases |bits|
  {
    if |bits| > 0 {
      var first := Cond(bits[0], p, input);
      if first.Ok? {
        var k := if bits[0] then w else 0;
        assert |input| >= k && first.rest == input[k..];
        ManyCondOptWidth(p, w, bits[1..], first.rest);
        var tail := ManyCondOpt(p, bits[1..], first.rest);
        if tail.Ok? {
          assert input[k..][CondWidth(bits[1..], w)..] == input[CondWidth(bits, w)..];
        }
      }
    }
  }

  lemma PopCountStep(bits: seq<bool>, w: nat)
    requires |bits| > 0
    ensures PopCount(bits) * w == (if bits[0] then w else 0) + PopCount(bits[1..]) * w
  {
    var m := PopCount(bits[1..]);
    assert PopCount(bits) == (if bits[0] then 1 else 0) + m;
    MulSucc(m, w);
  }

  lemma MulPred(n: nat, w: nat)
    requires n > 0
    ensures n * w == w + (n - 1) * w
  {
  }

  lemma MulSucc(m: nat, w: nat)
    ensures (1 + m) * w == w + m * w
  {
  }

  /// The number of set bits.
  function PopCount(bits: seq<bool>): (n: nat)
    ensures n <= |bits|
  {
    if |bits| == 0 then 0 else (if bits[0] then 1 else 0) + PopCount(bits[1..])
  }

  /// `nom::sequence::pair(p, q)`: `p`, then `q` on what `p` left.
  function Pair<A, B>(p: Bytes -> Res<A>, q: Bytes -> Res<B>, input: Bytes): (r: Res<(A, B)>)
    ensures r.Ok? <==> p(input).Ok? && q(p(input).rest).Ok?
    ensures r.Ok? ==> r.value == (p(input).value, q(p(input).rest).value) && r.rest == q(p(input).rest).rest
    ensures p(input).Fail? ==> r == Fail(p(input).fault)
    ensures p(input).Ok? && q(p(input).rest).Fail? ==> r == Fail(q(p(input).rest).fault)
  {
    var a :- p(input);
    var b :- q(a.rest);
    Ok((a.value, b.value), b.rest)
  }

  /// `le_u32` reads back the four little-endian bytes of any `u32`.
  lemma LeU32RoundTrip(d: U32, rest: Bytes)
    ensures Pow256(4) == 0x1_0000_0000
    ensures LeU32(LeBytes(d, 4) + rest) == Ok(d, rest)
  {
    Pow256Widths();
    var input := LeBytes(d, 4) + rest;
    assert input[..4] == LeBytes(d, 4) && input[4..] == rest;
    LeValueOfLeBytes(d, 4);
  }

  /// The writer's side of `le_u16`, `le_u32` and `le_u64`.
  function LeU16Bytes(u: U16): (b: Bytes)
    ensures |b| == 2
  {
    Pow256Widths();
    LeBytes(u, 2)
  }

  function LeU32Bytes(d: U32): (b: Bytes)
    ensures |b| == 4
  {
    Pow256Widths();
    LeBytes(d, 4)
  }

  function LeU64Bytes(v: U64): (b: Bytes)
    ensures |b| == 8
  {
    Pow256Widths();
    LeBytes(v, 8)
  }

  function U16Enc(): U16 -> Bytes {
    (u: U16) => LeU16Bytes(u)
  }

  function U32Enc(): U32 -> Bytes {
    (d: U32) => LeU32Bytes(d)
  }

  function U64Enc(): U64 -> Bytes {
    (v: U64) => LeU64Bytes(v)
  }

  /// `le_u16` reads back the two little-endian bytes of any `u16`.
  lemma LeU16RoundTrip(u: U16, rest: Bytes)
    ensures LeU16(LeU16Bytes(u) + rest) == Ok(u, rest)
  {
    Pow256Widths();
    var input := LeU16Bytes(u) + rest;
    assert input[..2] == LeU16Bytes(u) && input[2..] == rest;
    LeValueOfLeBytes(u, 2);
  }

  /// `le_u64` reads back the eight little-endian bytes of any `u64`.
  lemma LeU64RoundTrip(v: U64, rest: Bytes)
    ensures LeU64(LeU64Bytes(v) + rest) == Ok(v, rest)
  {
    Pow256Widths();
    var input := LeU64Bytes(v) + rest;
    assert input[..8] == LeU64Bytes(v) && input[8..] == rest;
    LeValueOfLeBytes(v, 8);
  }

  /// Parser values of the primitives, for the combinators.
  function U8P(): Bytes -> Res<bv8> {
    x => U8(x)
  }

  function LeU16P(): Bytes -> Res<U16> {
    x => LeU16(x)
  }

  function LeU32P(): Bytes -> Res<U32> {
    x => LeU32(x)
  }

  function LeU64P(): Bytes -> Res<U64> {
    x => LeU64(x)
  }

  /// The bytes of the items `xs`, each written by `enc`, one after another.
  function Concat<T>(enc: T --> Bytes, xs: seq<T>): (b: Bytes)
    requires forall i :: 0 <= i < |xs| ==> enc.requires(xs[i])
    ensures |xs| == 0 ==> b == []
  {
    if |xs| == 0 then [] else enc(xs[0]) + Concat(enc, xs[1..])
  }

  /// When `p` reads back every item `enc` writes, whatever follows it,
  /// `count(p, n)` reads back the `n` items written one after another.
  lemma {:induction false} CountRoundTrip<T>(p: Bytes -> Res<T>, enc: T --> Bytes, xs: seq<T>, rest: Bytes)
    requires forall i :: 0 <= i < |xs| ==> enc.requires(xs[i])
    requires forall i, r :: 0 <= i < |xs| ==> p(enc(xs[i]) + r) == Ok(xs[i], r)
    ensures Count(p, |xs|, Concat(enc, xs) + rest) == Ok(xs, rest)
    decreases |xs|
  {
    if |xs| > 0 {
      var tail := Concat(enc, xs[1..]) + rest;
      assert Concat(enc, xs) + rest == enc(xs[0]) + tail;
      assert p(enc(xs[0]) + tail) == Ok(xs[0], tail);
      forall i, r | 0 <= i < |xs[1..]|
        ensures p(enc(xs[1..][i]) + r) == Ok(xs[1..][i], r)
      {
        assert xs[1..][i] == xs[i + 1];
      }
      CountRoundTrip(p, enc, xs[1..], rest);
      assert [xs[0]] + xs[1..] == xs;
    }
  }

  /// Every item `count` returns is a value `p` returns, so it has every
  /// property all of those values have.
  lemma {:induction false} CountAll<T>(p: Bytes -> Res<T>, P: T -> bool, n: nat, input: Bytes)
    requires forall x :: p(x).Ok? ==> P(p(x).value)
    ensures Count(p, n, input).Ok? ==> forall i :: 0 <= i < n ==> P(Count(p, n, input).value[i])
    decreases n
  {
    if n > 0 && p(input).Ok? {
      CountAll(p, P, n - 1, p(input).rest);
    }
  }

  /// `count(u8, |a|)` reads back the bytes `a`.
  lemma {:induction false} CountBytesRoundTrip(a: Bytes, rest: Bytes)
    ensures Count(U8P(), |a|, a + rest) == Ok(a, rest)
    decreases |a|
  {
    if |a| > 0 {
      assert (a + rest)[1..] == a[1..] + rest;
      CountBytesRoundTrip(a[1..], rest);
      assert [a[0]] + a[1..] == a;
    }
  }

  /// Which entries of `xs` are present.
  function Present<T>(xs: seq<Option<T>>): (bits: seq<bool>)
    ensures |bits| == |xs|
  {
    seq(|xs|, i requires 0 <= i < |xs| => xs[i].Some?)
  }

  /// The bytes of the present entries of `xs`, each written by `enc`.
  function ConcatSome<T>(enc: T -> Bytes, xs: seq<Option<T>>): Bytes
  {
    if |xs| == 0 then []
    else (if xs[0].Some? then enc(xs[0].value) else []) + ConcatSome(enc, xs[1..])
  }

  /// When `p` reads back every item `enc` writes, `many_cond_opt` over the
  /// presence bits of `xs` reads back `xs` from the bytes of its present
  /// entries.
  lemma {:induction false} ManyCondOptRoundTrip<T>(p: Bytes -> Res<T>, enc: T -> Bytes, xs: seq<Option<T>>, rest: Bytes)
    requires forall v, r :: p(enc(v) + r) == Ok(v, r)
    ensures ManyCondOpt(p, Present(xs), ConcatSome(enc, xs) + rest) == Ok(xs, rest)
    decreases |xs|
  {
    if |xs| > 0 {
      var tail := ConcatSome(enc, xs[1..]) + rest;
      var head := if xs[0].Some? then enc(xs[0].value) else [];
      assert ConcatSome(enc, xs) + rest == head + tail;
      assert Present(xs)[1..] == Present(xs[1..]);
      ManyCondOptRoundTrip(p, enc, xs[1..], rest);
      if xs[0].None? {
        assert head + tail == tail;
      }
      assert [xs[0]] + xs[1..] == xs;
    }
  }

  /// `nom::multi::many_till(p, end)`: at each step `end` is tried first; on
  /// its recoverable error one item is parsed. An item's recoverable error
  /// is returned as it is, and so is an item that consumed nothing refused.
  function ManyUntil<T, E>(p: Bytes -> Res<T>, end: Bytes -> Res<E>, input: Bytes): (r: Res<(seq<T>, E)>)
    decreases |input|
  {
    match end(input)
    case Ok(e, rest) => Ok(([], e), rest)
    case Fail(Error(_)) =>
      (match p(input)
       case Fail(f) => Fail(f)
       case Ok(v, rest) =>
         if |rest| >= |input| then Fail(Error(Nom(ManyTill)))
         else
           var others :- ManyUntil(p, end, rest);
           Ok(([v] + others.value.0, others.value.1), others.rest))
    case Fail(f) => Fail(f)
  }

  /// `many_till` stops at once where `end` matches.
  lemma ManyUntilEnd<T, E>(p: Bytes -> Res<T>, end: Bytes -> Res<E>, input: Bytes)
    requires end(input).Ok?
    ensures ManyUntil(p, end, input) == Ok(([], end(input).value), end(input).rest)
  {
  }

  /// Where `end` refuses recoverably and an item is read that consumes
  /// something, `many_till` puts the item in front of what it reads after
  /// it, or fails as that does.
  lemma ManyUntilStep<T, E>(p: Bytes -> Res<T>, end: Bytes -> Res<E>, input: Bytes, v: T, rest: Bytes)
    requires end(input).Fail? && end(input).fault.Error?
    requires p(input) == Ok(v, rest) && |rest| < |input|
    ensures var others := ManyUntil(p, end, rest);
      others.Ok? ==> ManyUntil(p, end, input) == Ok(([v] + others.value.0, others.value.1), others.rest)
    ensures ManyUntil(p, end, rest).Fail? ==> ManyUntil(p, end, input) == ManyUntil(p, end, rest)
  {
  }
}
