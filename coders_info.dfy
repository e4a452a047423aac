/// The coder graph of a 7z header (`src/parser/parsers/coders_info.rs`,
/// `src/parser/types/coders_info.rs`): coders, the folders that chain them
/// with bind pairs, and the `UnPackInfo` section that lists the folders and
/// the sizes of their output streams.
module Coders {
  import opened Base
  import opened Err
  import opened Nom
  import opened SevenzUint64
  import opened PropertyIds
  import opened Parsers

  datatype CoderComplex = CoderComplex(numInStreams: U64, numOutStreams: U64)

  datatype Coder = Coder(complex: Option<CoderComplex>, attrs: Option<Bytes>, id: Bytes)

  datatype Folder = Folder(
    coders: seq<Coder>,
    bindPairs: seq<(U64, U64)>,
    packedStreamsIndices: Option<seq<U64>>)

  /// `folders_or_data_stream_index` is `Left` when the folders are stored in
  /// an external data stream (only its index is read) and `Right` otherwise.
  datatype CodersInfo = CodersInfo(
    numFolders: Usize,
    foldersOrDataStreamIndex: Either<U64, seq<Folder>>,
    streamsUnpackSizes: seq<U64>,
    foldersUnpackDigests: Option<seq<U32>>)

  // ---------------------------------------------------------------------
  // Stream counts

  /// The out-stream count the parsers add up for one coder: the declared
  /// count of a complex coder, 1 for a simple one.
  function OutStreams(c: Coder): nat {
    match c.complex
    case Some(cc) => cc.numOutStreams
    case None => 1
  }

  /// The in-stream count, by the same rule.
  function InStreams(c: Coder): nat {
    match c.complex
    case Some(cc) => cc.numInStreams
    case None => 1
  }

  /// The `.sum()` of the out-stream counts, as an unbounded number.
  function SumOut(cs: seq<Coder>): nat {
    if |cs| == 0 then 0 else OutStreams(cs[0]) + SumOut(cs[1..])
  }

  function SumIn(cs: seq<Coder>): nat {
    if |cs| == 0 then 0 else InStreams(cs[0]) + SumIn(cs[1..])
  }

  /// `Coder::get_num_out_streams`: 1 for a simple coder; the declared count
  /// of a complex one, whose `try_into().unwrap()` panics above `usize::MAX`.
  function GetNumOutStreams(c: Coder): (r: OrPanic<Usize>)
    ensures c.complex.None? ==> r == Value(1)
    ensures c.complex.Some? && c.complex.value.numOutStreams <= USIZE_MAX ==>
      r == Value(c.complex.value.numOutStreams)
    ensures c.complex.Some? && c.complex.value.numOutStreams > USIZE_MAX ==>
      r == Panicked(CoderOutStreamsToUsize)
  {
    match c.complex
    case Some(n) =>
      if n.numOutStreams <= USIZE_MAX then Value(n.numOutStreams) else Panicked(CoderOutStreamsToUsize)
    case None => Value(1)
  }

  /// `get_num_out_streams` agrees with the term the folder parser sums:
  /// it returns that term whenever it fits a `usize`, and panics otherwise.
  lemma GetNumOutStreamsAgrees(c: Coder)
    ensures GetNumOutStreams(c).Value? <==> OutStreams(c) <= USIZE_MAX
    ensures GetNumOutStreams(c).Value? ==> GetNumOutStreams(c).value == OutStreams(c)
  {
  }

  // ---------------------------------------------------------------------
  // coder

  /// Bit 3 of the properties byte: the coder states its stream counts.
  predicate IsComplex(props: bv8) {
    props & 0x08 != 0
  }

  /// Bit 2: the coder carries attribute bytes.
  predicate HasAttrs(props: bv8) {
    props & 0x04 != 0
  }

  /// The high nibble: the length of the coder id.
  function IdLen(props: bv8): (n: nat)
    ensures n < 16
  {
    ((props & 0xF0) >> 4) as int
  }

  /// The three fields in arithmetic terms.
  lemma IsComplexBit(props: bv8)
    ensures IsComplex(props) <==> (props as int / 8) % 2 == 1
  {
  }

  lemma HasAttrsBit(props: bv8)
    ensures HasAttrs(props) <==> (props as int / 4) % 2 == 1
  {
  }

  lemma IdLenNibble(props: bv8)
    ensures IdLen(props) == props as int / 16
  {
  }

  /// `pair(sevenz_uint64, sevenz_uint64)` mapped to a `CoderComplex`: the
  /// number of in streams is the first packed integer, the number of out
  /// streams the one right after it.
  function ParseCoderComplex(input: Bytes): (r: Res<CoderComplex>)
    ensures r.Ok? <==> Varint(input).Ok? && Varint(Varint(input).rest).Ok?
    ensures r.Ok? ==>
      && r.value == CoderComplex(Varint(input).value, Varint(Varint(input).rest).value)
      && r.rest == Varint(Varint(input).rest).rest
    ensures Varint(input).Fail? ==> r == Fail(Varint(input).fault)
    ensures Varint(input).Ok? && Varint(Varint(input).rest).Fail? ==> r == Fail(Varint(Varint(input).rest).fault)
  {
    var p :- Pair(VarintP(), VarintP(), input);
    Ok(CoderComplex(p.value.0, p.value.1), p.rest)
  }

  function ComplexP(): Bytes -> Res<CoderComplex> {
    x => ParseCoderComplex(x)
  }

  /// `length_count(sevenz_uint64_as_usize, u8)`.
  function AttrsP(): Bytes -> Res<Bytes> {
    x => LengthCount(VarintAsUsizeP(), U8P(), x)
  }

  /// `coder`: a properties byte, an id of `IdLen` bytes, the stream counts
  /// when bit 3 is set, the attributes when bit 2 is set. The other bits are
  /// not looked at.
  function ParseCoder(input: Bytes): (r: Res<Coder>)
    ensures |input| == 0 ==> r == Fail(Error(Nom(Eof)))
    ensures r.Ok? ==> |input| >= 1 + IdLen(input[0]) && r.value.id == input[1..1 + IdLen(input[0])]
    ensures r.Ok? ==> (r.value.complex.Some? <==> IsComplex(input[0]))
    ensures r.Ok? ==> (r.value.attrs.Some? <==> HasAttrs(input[0]))
    ensures r.Ok? ==> CoderEncodable(r.value)
  {
    var props :- U8(input);
    var id :- Take(IdLen(props.value), props.rest);
    var complex :- Cond(IsComplex(props.value), ComplexP(), id.rest);
    var attrs :- Cond(HasAttrs(props.value), AttrsP(), complex.rest);
    Ok(Coder(complex.value, attrs.value, id.value), attrs.rest)
  }

  function CoderP(): Bytes -> Res<Coder> {
    x => ParseCoder(x)
  }

  /// Bits 0, 1 (and the reserved meaning of bit 7, which is part of the id
  /// length) are never checked: properties bytes that agree on bits 2 to 7
  /// decode the same bytes the same way.
  lemma CoderReservedBits(p: bv8, q: bv8, x: Bytes)
    requires p & 0xFC == q & 0xFC
    ensures ParseCoder([p] + x) == ParseCoder([q] + x)
  {
    assert IsComplex(p) == IsComplex(q);
    assert HasAttrs(p) == HasAttrs(q);
    assert IdLen(p) == IdLen(q);
    assert ([p] + x)[1..] == x && ([q] + x)[1..] == x;
  }

  /// A coder that has a byte encoding: the id fits the nibble and the
  /// attribute count fits a `usize`.
  predicate CoderEncodable(c: Coder) {
    |c.id| < 16 && (c.attrs.Some? ==> |c.attrs.value| <= USIZE_MAX)
  }

  /// The properties byte of `c`.
  function PropsOf(c: Coder): (p: bv8)
    requires |c.id| < 16
    ensures IdLen(p) == |c.id|
    ensures IsComplex(p) <==> c.complex.Some?
    ensures HasAttrs(p) <==> c.attrs.Some?
  {
    var m := |c.id| * 16 + (if c.complex.Some? then 8 else 0) + (if c.attrs.Some? then 4 else 0);
    var p := ByteOf(m);
    IdLenNibble(p);
    IsComplexBit(p);
    HasAttrsBit(p);
    p
  }

  function ComplexBytes(c: Coder): Bytes {
    match c.complex
    case Some(cc) => Encode(cc.numInStreams) + Encode(cc.numOutStreams)
    case None => []
  }

  function AttrsBytes(c: Coder): Bytes
    requires CoderEncodable(c)
  {
    match c.attrs
    case Some(a) => Encode(|a|) + a
    case None => []
  }

  /// The bytes that store `c`.
  function EncodeCoder(c: Coder): Bytes
    requires CoderEncodable(c)
  {
    [PropsOf(c)] + c.id + ComplexBytes(c) + AttrsBytes(c)
  }

  lemma ComplexRoundTrip(c: Coder, rest: Bytes)
    ensures Cond(c.complex.Some?, ComplexP(), ComplexBytes(c) + rest) == Ok(c.complex, rest)
  {
    if c.complex.Some? {
      var cc := c.complex.value;
      var input := ComplexBytes(c) + rest;
      var mid := Encode(cc.numOutStreams) + rest;
      Assoc3(Encode(cc.numInStreams), Encode(cc.numOutStreams), rest);
      VarintRoundTrip(cc.numInStreams, mid);
      VarintRoundTrip(cc.numOutStreams, rest);
      assert VarintP()(input) == Ok(cc.numInStreams, mid);
      assert VarintP()(mid) == Ok(cc.numOutStreams, rest);
      assert ParseCoderComplex(input) == Ok(cc, rest);
    }
  }

  lemma AttrsRoundTrip(c: Coder, rest: Bytes)
    requires CoderEncodable(c)
    ensures Cond(c.attrs.Some?, AttrsP(), AttrsBytes(c) + rest) == Ok(c.attrs, rest)
  {
    if c.attrs.Some? {
      var a := c.attrs.value;
      var input := AttrsBytes(c) + rest;
      Assoc3(Encode(|a|), a, rest);
      VarintAsUsizeRoundTrip(|a|, a + rest);
      assert VarintAsUsizeP()(input) == Ok(|a|, a + rest);
      CountBytesRoundTrip(a, rest);
      assert AttrsP()(input) == Ok(a, rest);
    }
  }

  /// Round trip: every encodable coder is read back from its bytes, which
  /// are consumed exactly.
  lemma CoderRoundTrip(c: Coder, rest: Bytes)
    requires CoderEncodable(c)
    ensures ParseCoder(EncodeCoder(c) + rest) == Ok(c, rest)
  {
    ComplexRoundTrip(c, AttrsBytes(c) + rest);
    AttrsRoundTrip(c, rest);
    CoderOfParts(PropsOf(c), c.id, ComplexBytes(c), AttrsBytes(c), rest, c.complex, c.attrs);
  }

  /// `coder` on a properties byte, an id, and two parts that the optional
  /// fields read back.
  lemma CoderOfParts(p: bv8, id: Bytes, cx: Bytes, ax: Bytes, rest: Bytes,
                     complex: Option<CoderComplex>, attrs: Option<Bytes>)
    requires IdLen(p) == |id|
    requires Cond(IsComplex(p), ComplexP(), cx + (ax + rest)) == Ok(complex, ax + rest)
    requires Cond(HasAttrs(p), AttrsP(), ax + rest) == Ok(attrs, rest)
    ensures ParseCoder([p] + id + cx + ax + rest) == Ok(Coder(complex, attrs, id), rest)
  {
    var tail := cx + (ax + rest);
    Assoc5([p], id, cx, ax, rest);
    SplitConcat([p], id + tail);
    SplitConcat(id, tail);
  }

  // ---------------------------------------------------------------------
  // folder

  /// 2^64: a `u64` sum of at least this much overflows.
  const U64_LIMIT: nat := 0x1_0000_0000_0000_0000

  function CodersP(): Bytes -> Res<seq<Coder>> {
    x => LengthCount(VarintAsUsizeP(), CoderP(), x)
  }

  function BindPairP(): Bytes -> Res<(U64, U64)> {
    x => Pair(VarintP(), VarintP(), x)
  }

  function VarintsP(n: nat): Bytes -> Res<seq<U64>> {
    x => Count(VarintP(), n, x)
  }

  /// The counts a folder's lists obey: at least one and at most
  /// `usize::MAX` out-streams and at most `usize::MAX` in-streams; one bind
  /// pair fewer than out-streams, and no more than there are in-streams; the
  /// packed-stream indices present exactly when some in-stream is left
  /// unbound, one per such in-stream.
  predicate FolderShape(f: Folder) {
    var totalOut, totalIn := SumOut(f.coders), SumIn(f.coders);
    1 <= totalOut <= USIZE_MAX && totalIn <= USIZE_MAX
    && |f.bindPairs| == totalOut - 1 && |f.bindPairs| <= totalIn
    && (f.packedStreamsIndices.Some? <==> totalIn - |f.bindPairs| >= 1)
    && (f.packedStreamsIndices.Some? ==> |f.packedStreamsIndices.value| == totalIn - |f.bindPairs|)
  }

  /// `folder`: the coders, then `total_out - 1` bind pairs, then the
  /// packed-stream indices. Each `u64` sum panics when it overflows, each
  /// conversion to `usize` is a recoverable error, and each `usize`
  /// subtraction panics when it underflows, in the order the source runs
  /// them.
  function ParseFolder(input: Bytes): (r: Res<Folder>)
    ensures r.Ok? ==> FolderEncodable(r.value)
  {
    var coders :- CodersP()(input);
    ParsedCodersEncodable(input);
    FolderBindPairs(coders.value, coders.rest)
  }

  /// The coders `folder` reads all have byte encodings.
  lemma ParsedCodersEncodable(input: Bytes)
    ensures CodersP()(input).Ok? ==> CodersEncodable(CodersP()(input).value)
  {
    var n := VarintAsUsize(input);
    if n.Ok? {
      CountAll(CoderP(), CoderEncodable, n.value, n.rest);
    }
  }

  /// The part of `folder` after the coders: the out-stream sum and the
  /// bind pairs.
  function FolderBindPairs(coders: seq<Coder>, input: Bytes): (r: Res<Folder>)
    ensures r.Ok? ==> r.value.coders == coders && FolderShape(r.value)
  {
    var totalOut := SumOut(coders);
    if totalOut >= U64_LIMIT then Fail(Panic(FolderOutStreamsSumOverflow))
    else if totalOut > USIZE_MAX then Fail(Error(ConversionFailure(ToUsize)))
    else if totalOut == 0 then Fail(Panic(FolderBindPairsUnderflow))
    else
      var bindPairs :- Count(BindPairP(), totalOut - 1, input);
      FolderPacked(coders, bindPairs.value, bindPairs.rest)
  }

  /// The part of `folder` after the bind pairs: the in-stream sum and the
  /// packed-stream indices.
  function FolderPacked(coders: seq<Coder>, bindPairs: seq<(U64, U64)>, input: Bytes): (r: Res<Folder>)
    ensures r.Ok? ==> r.value.coders == coders && r.value.bindPairs == bindPairs
    ensures r.Ok? ==> SumIn(coders) <= USIZE_MAX && |bindPairs| <= SumIn(coders)
    ensures r.Ok? ==> (r.value.packedStreamsIndices.Some? <==> SumIn(coders) - |bindPairs| >= 1)
    ensures r.Ok? && r.value.packedStreamsIndices.Some? ==>
      |r.value.packedStreamsIndices.value| == SumIn(coders) - |bindPairs|
  {
    var totalIn := SumIn(coders);
    if totalIn >= U64_LIMIT then Fail(Panic(FolderInStreamsSumOverflow))
    else if totalIn > USIZE_MAX then Fail(Error(ConversionFailure(ToUsize)))
    else if totalIn < |bindPairs| then Fail(Panic(FolderPackedStreamsUnderflow))
    else
      var numPacked := totalIn - |bindPairs|;
      var packed :- Cond(numPacked >= 1, VarintsP(numPacked), input);
      Ok(Folder.Folder(coders, bindPairs, packed.value), packed.rest)
  }

  function FolderP(): Bytes -> Res<Folder> {
    x => ParseFolder(x)
  }

  /// A list of coders with a byte encoding.
  predicate CodersEncodable(cs: seq<Coder>) {
    |cs| <= USIZE_MAX && forall i :: 0 <= i < |cs| ==> CoderEncodable(cs[i])
  }

  /// A folder with a byte encoding: its counts as above and encodable
  /// coders. With `FolderRoundTrip`, these are exactly the folders `folder`
  /// accepts.
  predicate FolderEncodable(f: Folder) {
    FolderShape(f) && CodersEncodable(f.coders)
  }

  function CoderEnc(): Coder --> Bytes {
    c requires CoderEncodable(c) => EncodeCoder(c)
  }

  function PairEnc(): ((U64, U64)) -> Bytes {
    (pr: (U64, U64)) => Encode(pr.0) + Encode(pr.1)
  }

  function VarintEnc(): U64 -> Bytes {
    (v: U64) => Encode(v)
  }

  function PackedBytes(packed: Option<seq<U64>>): Bytes {
    match packed
    case Some(ps) => Concat(VarintEnc(), ps)
    case None => []
  }

  /// The bytes of a list of coders, count first.
  function CodersBytes(cs: seq<Coder>): Bytes
    requires CodersEncodable(cs)
  {
    Encode(|cs|) + Concat(CoderEnc(), cs)
  }

  /// The bytes that store `f`.
  function EncodeFolder(f: Folder): Bytes
    requires FolderEncodable(f)
  {
    CodersBytes(f.coders) + Concat(PairEnc(), f.bindPairs) + PackedBytes(f.packedStreamsIndices)
  }

  lemma CodersRoundTrip(cs: seq<Coder>, rest: Bytes)
    requires CodersEncodable(cs)
    ensures CodersP()(CodersBytes(cs) + rest) == Ok(cs, rest)
  {
    var body := Concat(CoderEnc(), cs);
    Assoc3(Encode(|cs|), body, rest);
    VarintAsUsizeRoundTrip(|cs|, body + rest);
    forall i, r | 0 <= i < |cs|
      ensures CoderP()(CoderEnc()(cs[i]) + r) == Ok(cs[i], r)
    {
      CoderRoundTrip(cs[i], r);
    }
    CountRoundTrip(CoderP(), CoderEnc(), cs, rest);
  }

  lemma BindPairsRoundTrip(bp: seq<(U64, U64)>, rest: Bytes)
    ensures Count(BindPairP(), |bp|, Concat(PairEnc(), bp) + rest) == Ok(bp, rest)
  {
    forall i, r | 0 <= i < |bp|
      ensures BindPairP()(PairEnc()(bp[i]) + r) == Ok(bp[i], r)
    {
      var a, b := bp[i].0, bp[i].1;
      Assoc3(Encode(a), Encode(b), r);
      VarintRoundTrip(a, Encode(b) + r);
      VarintRoundTrip(b, r);
    }
    CountRoundTrip(BindPairP(), PairEnc(), bp, rest);
  }

  lemma VarintsRoundTrip(vs: seq<U64>, rest: Bytes)
    ensures Count(VarintP(), |vs|, Concat(VarintEnc(), vs) + rest) == Ok(vs, rest)
  {
    forall i, r | 0 <= i < |vs|
      ensures VarintP()(VarintEnc()(vs[i]) + r) == Ok(vs[i], r)
    {
      VarintRoundTrip(vs[i], r);
    }
    CountRoundTrip(VarintP(), VarintEnc(), vs, rest);
  }

  /// Round trip: every folder with a byte encoding is read back from it,
  /// and exactly its bytes are consumed.
  lemma FolderRoundTrip(f: Folder, rest: Bytes)
    requires FolderEncodable(f)
    ensures ParseFolder(EncodeFolder(f) + rest) == Ok(f, rest)
  {
    var cb, pb, kb := CodersBytes(f.coders), Concat(PairEnc(), f.bindPairs), PackedBytes(f.packedStreamsIndices);
    Assoc4(cb, pb, kb, rest);
    CodersRoundTrip(f.coders, pb + (kb + rest));
    CodersStage(cb + (pb + (kb + rest)), f.coders, pb + (kb + rest));
    BindPairsRoundTrip(f.bindPairs, kb + rest);
    BindPairsStage(f.coders, pb + (kb + rest), f.bindPairs, kb + rest);
    var n := SumIn(f.coders) - |f.bindPairs|;
    PackedRoundTrip(f.packedStreamsIndices, n, rest);
    PackedStage(f.coders, f.bindPairs, n, kb + rest, f.packedStreamsIndices, rest);
  }

  /// Once the coders are read, `folder` goes on with them.
  lemma CodersStage(input: Bytes, cs: seq<Coder>, rest: Bytes)
    requires CodersP()(input) == Ok(cs, rest)
    ensures ParseFolder(input) == FolderBindPairs(cs, rest)
  {
  }

  /// Once the packed-stream indices are read, `folder` is done.
  lemma PackedStage(cs: seq<Coder>, bp: seq<(U64, U64)>, n: nat, input: Bytes, packed: Option<seq<U64>>, rest: Bytes)
    requires |bp| <= SumIn(cs) <= USIZE_MAX && n == SumIn(cs) - |bp|
    requires Cond(n >= 1, VarintsP(n), input) == Ok(packed, rest)
    ensures FolderPacked(cs, bp, input) == Ok(Folder.Folder(cs, bp, packed), rest)
  {
  }

  lemma PackedRoundTrip(packed: Option<seq<U64>>, n: nat, rest: Bytes)
    requires packed.Some? <==> n >= 1
    requires packed.Some? ==> |packed.value| == n
    ensures Cond(n >= 1, VarintsP(n), PackedBytes(packed) + rest) == Ok(packed, rest)
  {
    if packed.Some? {
      VarintsRoundTrip(packed.value, rest);
    }
  }

  /// `folder` on coders with no out-stream at all (in particular, on no
  /// coders) panics computing `total_out - 1`; with more out-streams than a
  /// `u64` holds it panics summing them; with more than a `usize` holds it
  /// fails with a recoverable conversion error.
  lemma FolderOutStreamsChecks(cs: seq<Coder>, rest: Bytes)
    requires CodersEncodable(cs)
    ensures SumOut(cs) == 0 ==>
      ParseFolder(CodersBytes(cs) + rest) == Fail(Panic(FolderBindPairsUnderflow))
    ensures USIZE_MAX < SumOut(cs) < U64_LIMIT ==>
      ParseFolder(CodersBytes(cs) + rest) == Fail(Error(ConversionFailure(ToUsize)))
    ensures SumOut(cs) >= U64_LIMIT ==>
      ParseFolder(CodersBytes(cs) + rest) == Fail(Panic(FolderOutStreamsSumOverflow))
  {
    CodersRoundTrip(cs, rest);
    CodersStage(CodersBytes(cs) + rest, cs, rest);
  }

  /// `folder` on coders with fewer in-streams than bind pairs panics
  /// computing the number of packed streams, after reading the bind pairs.
  lemma FolderPackedStreamsChecks(cs: seq<Coder>, bp: seq<(U64, U64)>, rest: Bytes)
    requires CodersEncodable(cs)
    requires 1 <= SumOut(cs) <= USIZE_MAX && |bp| == SumOut(cs) - 1
    requires SumIn(cs) < |bp|
    ensures ParseFolder(CodersBytes(cs) + Concat(PairEnc(), bp) + rest) == Fail(Panic(FolderPackedStreamsUnderflow))
  {
    var pb := Concat(PairEnc(), bp);
    Assoc3(CodersBytes(cs), pb, rest);
    CodersRoundTrip(cs, pb + rest);
    BindPairsRoundTrip(bp, rest);
    BindPairsStage(cs, pb + rest, bp, rest);
  }

  /// Once the bind pairs are read, `folder` goes on with them.
  lemma BindPairsStage(cs: seq<Coder>, input: Bytes, bp: seq<(U64, U64)>, rest: Bytes)
    requires 1 <= SumOut(cs) <= USIZE_MAX
    requires Count(BindPairP(), SumOut(cs) - 1, input) == Ok(bp, rest)
    ensures FolderBindPairs(cs, input) == FolderPacked(cs, bp, rest)
  {
  }
  // ---------------------------------------------------------------------
  // coders_info

  /// The coders of all folders, folder by folder.
  function AllCoders(folders: seq<Folder>): seq<Coder> {
    if |folders| == 0 then [] else folders[0].coders + AllCoders(folders[1..])
  }

  function FoldersP(n: nat): Bytes -> Res<seq<Folder>> {
    x => Count(FolderP(), n, x)
  }

  function DigestsP(n: nat): Bytes -> Res<seq<U32>> {
    x => Count(LeU32P(), n, x)
  }

  /// What every `CodersInfo` that `coders_info` returns satisfies: the
  /// folders are inline, `num_folders` of them, each with a byte encoding;
  /// there are at most `usize::MAX` out-streams over every coder of every
  /// folder, and one unpack size per such stream; the digests, when present,
  /// are one per folder. With `CodersInfoRoundTrip`, these are exactly the
  /// values `coders_info` can return.
  predicate CodersInfoShape(ci: CodersInfo) {
    ci.foldersOrDataStreamIndex.Right?
    && var folders := ci.foldersOrDataStreamIndex.right;
    |folders| == ci.numFolders
    && (forall i :: 0 <= i < |folders| ==> FolderEncodable(folders[i]))
    && SumOut(AllCoders(folders)) <= USIZE_MAX
    && |ci.streamsUnpackSizes| == SumOut(AllCoders(folders))
    && (ci.foldersUnpackDigests.Some? ==> |ci.foldersUnpackDigests.value| == ci.numFolders)
  }

  /// `coders_info`: the `UnPackInfo` and `Folder` tags, the number of
  /// folders, the external flag, then the folders or their index.
  function ParseCodersInfo(input: Bytes): (r: Res<CodersInfo>)
    ensures r.Ok? ==> CodersInfoShape(r.value)
  {
    var unpackInfo :- TagByte(ToByte(UnPackInfo), input);
    var folderTag :- TagByte(ToByte(PropertyID.Folder), unpackInfo.rest);
    var numFolders :- VarintAsUsize(folderTag.rest);
    var external :- BoolByte(numFolders.rest);
    CodersInfoFolders(numFolders.value, external.value, external.rest)
  }

  /// The folders (or, when external, one varint index), then the
  /// `CodersUnPackSize` tag.
  function CodersInfoFolders(numFolders: Usize, external: bool, input: Bytes): (r: Res<CodersInfo>)
    ensures r.Ok? ==> r.value.numFolders == numFolders && CodersInfoShape(r.value)
  {
    var folders :- EitherOf(external, VarintP(), FoldersP(numFolders), input);
    var sizeTag :- TagByte(ToByte(CodersUnPackSize), folders.rest);
    FoldersEncodable(numFolders, input);
    CodersInfoSizes(numFolders, folders.value, sizeTag.rest)
  }

  /// The folders `count(folder, n)` reads all have byte encodings.
  lemma FoldersEncodable(n: nat, input: Bytes)
    ensures FoldersP(n)(input).Ok? ==>
      forall i :: 0 <= i < n ==> FolderEncodable(FoldersP(n)(input).value[i])
  {
    CountAll(FolderP(), FolderEncodable, n, input);
  }

  /// The unpack sizes: `right().unwrap()` panics on external folders; the
  /// `u64` sum of the out-streams of all coders panics on overflow and its
  /// conversion to `usize` fails recoverably; then one varint per stream.
  function CodersInfoSizes(numFolders: Usize, fods: Either<U64, seq<Folder>>, input: Bytes): (r: Res<CodersInfo>)
    requires fods.Right? ==> |fods.right| == numFolders
    requires fods.Right? ==> forall i :: 0 <= i < |fods.right| ==> FolderEncodable(fods.right[i])
    ensures r.Ok? ==> r.value.numFolders == numFolders && CodersInfoShape(r.value)
  {
    match fods
    case Left(_) => Fail(Panic(CodersInfoExternalFolders))
    case Right(folders) =>
      var total := SumOut(AllCoders(folders));
      if total >= U64_LIMIT then Fail(Panic(CodersInfoOutStreamsSumOverflow))
      else if total > USIZE_MAX then Fail(Error(ConversionFailure(ToUsize)))
      else
        var sizes :- Count(VarintP(), total, input);
        CodersInfoDigests(numFolders, folders, sizes.value, sizes.rest)
  }

  /// The digests, one `le_u32` per folder, present only after a `CRC`
  /// tag; then the `End` tag.
  function CodersInfoDigests(numFolders: Usize, folders: seq<Folder>, sizes: seq<U64>, input: Bytes): (r: Res<CodersInfo>)
    ensures r.Ok? ==> r.value == CodersInfo(numFolders, Right(folders), sizes, r.value.foldersUnpackDigests)
    ensures r.Ok? && r.value.foldersUnpackDigests.Some? ==> |r.value.foldersUnpackDigests.value| == numFolders
  {
    var digests :- PrecededOpt(TagByteP(ToByte(CRC)), DigestsP(numFolders), input);
    var end :- TagByte(ToByte(End), digests.rest);
    Ok(CodersInfo(numFolders, Right(folders), sizes, digests.value), end.rest)
  }

  function FolderEnc(): Folder --> Bytes {
    f requires FolderEncodable(f) => EncodeFolder(f)
  }

  function DigestsBytes(digests: Option<seq<U32>>): Bytes {
    match digests
    case Some(ds) => [ToByte(CRC)] + Concat(U32Enc(), ds)
    case None => []
  }

  /// The bytes that store `ci`.
  function EncodeCodersInfo(ci: CodersInfo): Bytes
    requires CodersInfoShape(ci)
  {
    var folders := ci.foldersOrDataStreamIndex.right;
    [ToByte(UnPackInfo), ToByte(PropertyID.Folder)] + Encode(ci.numFolders) + [BoolToByte(false)]
    + Concat(FolderEnc(), folders) + [ToByte(CodersUnPackSize)]
    + Concat(VarintEnc(), ci.streamsUnpackSizes) + DigestsBytes(ci.foldersUnpackDigests) + [ToByte(End)]
  }
  /// Round trip: every value of the shape `coders_info` returns is read
  /// back from its bytes, which are consumed exactly.
  lemma CodersInfoRoundTrip(ci: CodersInfo, rest: Bytes)
    requires CodersInfoShape(ci)
    ensures ParseCodersInfo(EncodeCodersInfo(ci) + rest) == Ok(ci, rest)
  {
    var n, folders, sizes, digests :=
      ci.numFolders, ci.foldersOrDataStreamIndex.right, ci.streamsUnpackSizes, ci.foldersUnpackDigests;
    var fb, sb, db := Concat(FolderEnc(), folders), Concat(VarintEnc(), sizes), DigestsBytes(digests);
    var tail3 := db + ([ToByte(End)] + rest);
    var tail1 := sb + tail3;
    var tail0 := fb + ([ToByte(CodersUnPackSize)] + tail1);
    Assoc9([ToByte(UnPackInfo), ToByte(PropertyID.Folder)], Encode(n), [BoolToByte(false)], fb,
      [ToByte(CodersUnPackSize)], sb, db, [ToByte(End)], rest);
    HeadStage(n, false, tail0);
    FoldersStage(n, folders, tail1);
    SizesStage(n, folders, sizes, tail3);
    DigestsStage(n, folders, sizes, digests, rest);
  }

  /// The two tags, the folder count and the external flag.
  lemma HeadStage(n: Usize, external: bool, tail: Bytes)
    ensures ParseCodersInfo([ToByte(UnPackInfo), ToByte(PropertyID.Folder)] + (Encode(n) + ([BoolToByte(external)] + tail)))
      == CodersInfoFolders(n, external, tail)
  {
    TagPair(ToByte(UnPackInfo), ToByte(PropertyID.Folder), Encode(n) + ([BoolToByte(external)] + tail));
    VarintAsUsizeRoundTrip(n, [BoolToByte(external)] + tail);
    BoolByteRoundTrip(external, tail);
  }

  /// Inline folders, then the `CodersUnPackSize` tag.
  lemma FoldersStage(n: Usize, folders: seq<Folder>, tail: Bytes)
    requires |folders| == n && forall i :: 0 <= i < n ==> FolderEncodable(folders[i])
    ensures CodersInfoFolders(n, false, Concat(FolderEnc(), folders) + ([ToByte(CodersUnPackSize)] + tail))
      == CodersInfoSizes(n, Right(folders), tail)
  {
    FoldersRoundTrip(folders, [ToByte(CodersUnPackSize)] + tail);
  }

  /// `count(folder, n)` reads back `n` encoded folders.
  lemma FoldersRoundTrip(folders: seq<Folder>, rest: Bytes)
    requires forall i :: 0 <= i < |folders| ==> FolderEncodable(folders[i])
    ensures FoldersP(|folders|)(Concat(FolderEnc(), folders) + rest) == Ok(folders, rest)
  {
    forall i, r | 0 <= i < |folders|
      ensures FolderP()(FolderEnc()(folders[i]) + r) == Ok(folders[i], r)
    {
      FolderRoundTrip(folders[i], r);
    }
    CountRoundTrip(FolderP(), FolderEnc(), folders, rest);
  }

  /// One size per out-stream.
  lemma SizesStage(n: Usize, folders: seq<Folder>, sizes: seq<U64>, tail: Bytes)
    requires |folders| == n && forall i :: 0 <= i < n ==> FolderEncodable(folders[i])
    requires |sizes| == SumOut(AllCoders(folders)) <= USIZE_MAX
    ensures CodersInfoSizes(n, Right(folders), Concat(VarintEnc(), sizes) + tail)
      == CodersInfoDigests(n, folders, sizes, tail)
  {
    VarintsRoundTrip(sizes, tail);
  }

  /// The digests, then `End`.
  lemma DigestsStage(n: Usize, folders: seq<Folder>, sizes: seq<U64>, digests: Option<seq<U32>>, rest: Bytes)
    requires digests.Some? ==> |digests.value| == n
    ensures CodersInfoDigests(n, folders, sizes, DigestsBytes(digests) + ([ToByte(End)] + rest))
      == Ok(CodersInfo(n, Right(folders), sizes, digests), rest)
  {
    var after := [ToByte(End)] + rest;
    if digests.Some? {
      Assoc3([ToByte(CRC)], Concat(U32Enc(), digests.value), after);
      DigestsSomeRoundTrip(digests.value, after);
    } else {
      ToByteInjective(End, CRC);
      assert TagByte(ToByte(CRC), after).Fail?;
      assert DigestsBytes(digests) + after == after;
    }
    TagByteOk(ToByte(End), rest);
  }

  /// A `CRC` tag followed by `n` little-endian digests is read back whole.
  lemma DigestsSomeRoundTrip(ds: seq<U32>, rest: Bytes)
    ensures PrecededOpt(TagByteP(ToByte(CRC)), DigestsP(|ds|), [ToByte(CRC)] + (Concat(U32Enc(), ds) + rest))
      == Ok(Some(ds), rest)
  {
    var body := Concat(U32Enc(), ds) + rest;
    DigestsRoundTrip(ds, rest);
    TagByteOk(ToByte(CRC), body);
  }

  /// `count(le_u32, n)` reads back `n` digests.
  lemma DigestsRoundTrip(ds: seq<U32>, rest: Bytes)
    ensures DigestsP(|ds|)(Concat(U32Enc(), ds) + rest) == Ok(ds, rest)
  {
    forall i, r | 0 <= i < |ds|
      ensures LeU32P()(U32Enc()(ds[i]) + r) == Ok(ds[i], r)
    {
      LeU32RoundTrip(ds[i], r);
    }
    CountRoundTrip(LeU32P(), U32Enc(), ds, rest);
  }

  /// Folders stored in an external data stream: the index is read, then
  /// the `CodersUnPackSize` tag, and then `right().unwrap()` panics.
  lemma CodersInfoExternalPanics(n: Usize, index: U64, rest: Bytes)
    ensures ParseCodersInfo([ToByte(UnPackInfo), ToByte(PropertyID.Folder)] + (Encode(n) + ([BoolToByte(true)]
      + (Encode(index) + ([ToByte(CodersUnPackSize)] + rest))))) == Fail(Panic(CodersInfoExternalFolders))
  {
    HeadStage(n, true, Encode(index) + ([ToByte(CodersUnPackSize)] + rest));
    VarintRoundTrip(index, [ToByte(CodersUnPackSize)] + rest);
  }
  /// The `coders_info` section of the uncompressed archive of
  /// `src/parser/parsers/test.rs:149-172`: one folder holding one simple
  /// coder with id `[33, 1]` (the Copy method), one packed stream, one unpack
  /// size of 15, no digests.
  /// Field by field: the `UnPackInfo` and `Folder` tags, one folder, inline
  /// folders, the folder (one coder; properties `0x20`, id `[0x21, 0x01]`;
  /// packed stream index 0), the `CodersUnPackSize` tag, one size, `End`.
  const FixtureCodersInfoBytes: Bytes :=
    [0x07, 0x0B] + [0x01] + [0x00] + [0x01, 0x20, 0x21, 0x01, 0x00] + [0x0C] + [0x0F] + [0x00]

  const FixtureCoder: Coder := Coder(None, None, [33, 1])

  const FixtureFolder: Folder := Folder.Folder([FixtureCoder], [], Some([0]))

  const FixtureCodersInfo: CodersInfo := CodersInfo(1, Right([FixtureFolder]), [15], None)

  lemma CodersInfoFixture(rest: Bytes)
    ensures ParseCodersInfo(FixtureCodersInfoBytes + rest) == Ok(FixtureCodersInfo, rest)
  {
    FixtureCodersInfoShape();
    FixtureCodersInfoEncoding();
    CodersInfoRoundTrip(FixtureCodersInfo, rest);
  }

  lemma FixtureCodersInfoShape()
    ensures CodersInfoShape(FixtureCodersInfo)
  {
    FixtureFolderBytes();
    assert [FixtureFolder][1..] == [];
    assert AllCoders([FixtureFolder]) == [FixtureCoder];
  }

  lemma FixtureCodersInfoEncoding()
    requires CodersInfoShape(FixtureCodersInfo)
    ensures EncodeCodersInfo(FixtureCodersInfo) == FixtureCodersInfoBytes
  {
    FixtureFolderBytes();
    var fb: Bytes := [0x01, 0x20, 0x21, 0x01, 0x00];
    assert Concat(FolderEnc(), [FixtureFolder]) == fb;
    EncodeSmall(15);
    assert Concat(VarintEnc(), [15]) == [0x0F];
    EncodeSmall(1);
    assert Encode(1) == [0x01];
    EncodingWithoutDigests(FixtureCodersInfo, fb, [0x0F]);
  }

  /// The layout of an encoding without digests, over abstract parts.
  lemma EncodingWithoutDigests(ci: CodersInfo, fb: Bytes, sb: Bytes)
    requires CodersInfoShape(ci) && ci.foldersUnpackDigests.None?
    requires Concat(FolderEnc(), ci.foldersOrDataStreamIndex.right) == fb
    requires Concat(VarintEnc(), ci.streamsUnpackSizes) == sb
    ensures EncodeCodersInfo(ci) == [0x07, 0x0B] + Encode(ci.numFolders) + [0x00] + fb + [0x0C] + sb + [0x00]
  {
  }

  lemma FixtureFolderBytes()
    ensures FolderEncodable(FixtureFolder)
    ensures EncodeFolder(FixtureFolder) == [0x01, 0x20, 0x21, 0x01, 0x00]
  {
    assert [FixtureCoder][1..] == [];
    assert SumOut([FixtureCoder]) == 1 && SumIn([FixtureCoder]) == 1;
    assert PropsOf(FixtureCoder) == 0x20;
    assert EncodeCoder(FixtureCoder) == [0x20, 0x21, 0x01];
    EncodeSmall(0);
    EncodeSmall(1);
    assert Concat(CoderEnc(), [FixtureCoder]) == [0x20, 0x21, 0x01];
    assert Concat(VarintEnc(), [0]) == [0x00];
  }
}
