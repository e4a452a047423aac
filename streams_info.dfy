/// The streams sections of the header (`src/parser/parsers/streams_info.rs`):
/// `pack_info` (where the packed streams are and how large they are),
/// `substreams_info` (how folders split into files) and `streams_info`,
/// which strings the three optional sections together and works out the
/// folder count.
module Streams {
  import opened Base
  import opened Err
  import opened Nom
  import opened SevenzUint64
  import opened PropertyIds
  import opened Parsers
  import opened Coders

  /// `PackInfo` (`src/parser/types/mod.rs:22-27`).
  datatype PackInfo = PackInfo(packPos: U64, numPackStreams: Usize, sizes: Option<seq<U64>>, crcs: Option<seq<U32>>)

  /// `SubStreamsInfo` (`src/parser/types/streams_info.rs:4-8`). The parser
  /// reads the unknown digests as packed integers, so they are kept as `U64`.
  datatype SubStreamsInfo = SubStreamsInfo(
    numUnpackStreamsInFolders: Option<seq<U64>>,
    unpackSizes: Option<seq<U64>>,
    unknownDigests: Option<seq<U64>>)

  /// `StreamsInfo` (`src/parser/types/streams_info.rs:11-15`).
  datatype StreamsInfo = StreamsInfo(
    packInfo: Option<PackInfo>,
    codersInfo: Option<CodersInfo>,
    substreamsInfo: Option<SubStreamsInfo>)

  // ---------------------------------------------------------------------
  // pack_info

  /// What `pack_info` guarantees: each list that is present holds one entry
  /// per pack stream.
  predicate PackInfoShape(pi: PackInfo) {
    && (pi.sizes.Some? ==> |pi.sizes.value| == pi.numPackStreams)
    && (pi.crcs.Some? ==> |pi.crcs.value| == pi.numPackStreams)
  }

  /// `pack_info`: the `PackInfo` tag, the pack position, the number of pack
  /// streams, the sizes when a `Size` property follows, the digests when a
  /// `CRC` property follows, and `End`.
  function ParsePackInfo(input: Bytes): (r: Res<PackInfo>)
    ensures r.Ok? ==> PackInfoShape(r.value)
    ensures |input| >= 1 && input[0] != ToByte(PropertyID.PackInfo) ==> r == Fail(Error(Nom(Tag)))
  {
    var tag :- TagByte(ToByte(PropertyID.PackInfo), input);
    var packPos :- Varint(tag.rest);
    var numPackStreams :- VarintAsUsize(packPos.rest);
    PackInfoLists(packPos.value, numPackStreams.value, numPackStreams.rest)
  }

  /// The rest of `pack_info`, once the counts are known.
  function PackInfoLists(packPos: U64, n: Usize, input: Bytes): (r: Res<PackInfo>)
    ensures r.Ok? ==> r.value.packPos == packPos && r.value.numPackStreams == n && PackInfoShape(r.value)
  {
    var sizes :- PrecededOpt(TagPropertyIdP(Size), VarintsP(n), input);
    var crcs :- PrecededOpt(TagPropertyIdP(CRC), DigestsP(n), sizes.rest);
    var end :- TagByte(ToByte(End), crcs.rest);
    Ok(PackInfo.PackInfo(packPos, n, sizes.value, crcs.value), end.rest)
  }

  /// An optional list of packed integers behind a one-byte tag.
  function GatedVarints(tag: PropertyID, xs: Option<seq<U64>>): Bytes {
    match xs
    case Some(vs) => [ToByte(tag)] + Concat(VarintEnc(), vs)
    case None => []
  }

  function EncodePackInfo(pi: PackInfo): Bytes {
    [ToByte(PropertyID.PackInfo)] + Encode(pi.packPos) + Encode(pi.numPackStreams)
      + GatedVarints(Size, pi.sizes) + DigestsBytes(pi.crcs) + [ToByte(End)]
  }

  /// Round trip: every `PackInfo` of the shape `pack_info` returns is read
  /// back from its bytes, which are consumed exactly.
  lemma PackInfoRoundTrip(pi: PackInfo, rest: Bytes)
    requires PackInfoShape(pi)
    ensures ParsePackInfo(EncodePackInfo(pi) + rest) == Ok(pi, rest)
  {
    var sb, cb := GatedVarints(Size, pi.sizes), DigestsBytes(pi.crcs);
    var tail := sb + (cb + ([ToByte(End)] + rest));
    Assoc7([ToByte(PropertyID.PackInfo)], Encode(pi.packPos), Encode(pi.numPackStreams), sb, cb, [ToByte(End)], rest);
    PackInfoHeadStage(pi.packPos, pi.numPackStreams, tail);
    PackInfoListsStage(pi, rest);
  }

  lemma PackInfoHeadStage(packPos: U64, n: Usize, tail: Bytes)
    ensures ParsePackInfo([ToByte(PropertyID.PackInfo)] + (Encode(packPos) + (Encode(n) + tail)))
      == PackInfoLists(packPos, n, tail)
  {
    var afterTag := Encode(packPos) + (Encode(n) + tail);
    SplitConcat([ToByte(PropertyID.PackInfo)], afterTag);
    VarintRoundTrip(packPos, Encode(n) + tail);
    VarintAsUsizeRoundTrip(n, tail);
  }

  lemma PackInfoListsStage(pi: PackInfo, rest: Bytes)
    requires PackInfoShape(pi)
    ensures PackInfoLists(pi.packPos, pi.numPackStreams,
      GatedVarints(Size, pi.sizes) + (DigestsBytes(pi.crcs) + ([ToByte(End)] + rest))) == Ok(pi, rest)
  {
    var n := pi.numPackStreams;
    var afterCrcs := [ToByte(End)] + rest;
    var afterSizes := DigestsBytes(pi.crcs) + afterCrcs;
    SizesGateRoundTrip(n, pi.sizes, afterSizes);
    CrcsGateRoundTrip(n, pi.crcs, rest);
    SplitConcat([ToByte(End)], rest);
  }

  /// The sizes of `pack_info`; what follows starts with `CRC` or `End`.
  lemma SizesGateRoundTrip(n: Usize, sizes: Option<seq<U64>>, after: Bytes)
    requires sizes.Some? ==> |sizes.value| == n
    requires |after| >= 1 && (after[0] == ToByte(CRC) || after[0] == ToByte(End))
    ensures PrecededOpt(TagPropertyIdP(Size), VarintsP(n), GatedVarints(Size, sizes) + after) == Ok(sizes, after)
  {
    if sizes.Some? {
      PropertyGateSome(Size, sizes.value, after);
    } else {
      ToByteInjective(Size, CRC);
      ToByteInjective(Size, End);
      PropertyGateAbsent(Size, VarintsP(n), after);
      assert GatedVarints(Size, sizes) + after == after;
    }
  }

  /// A list of packed integers behind the property tag it is gated by.
  lemma PropertyGateSome(tag: PropertyID, vs: seq<U64>, after: Bytes)
    ensures PrecededOpt(TagPropertyIdP(tag), VarintsP(|vs|), GatedVarints(tag, Some(vs)) + after) == Ok(Some(vs), after)
  {
    var body := Concat(VarintEnc(), vs) + after;
    Assoc3([ToByte(tag)], Concat(VarintEnc(), vs), after);
    TagPropertyIdOk(tag, body);
    VarintsRoundTrip(vs, after);
  }

  /// Another property tag where a gated list may start: the list is absent.
  lemma PropertyGateAbsent<T>(tag: PropertyID, p: Bytes -> Res<T>, after: Bytes)
    requires |after| >= 1 && after[0] < 0x1A && after[0] != ToByte(tag)
    ensures PrecededOpt(TagPropertyIdP(tag), p, after) == Ok(None, after)
  {
  }

  /// The digests of `pack_info`, then `End`.
  lemma CrcsGateRoundTrip(n: Usize, crcs: Option<seq<U32>>, rest: Bytes)
    requires crcs.Some? ==> |crcs.value| == n
    ensures PrecededOpt(TagPropertyIdP(CRC), DigestsP(n), DigestsBytes(crcs) + ([ToByte(End)] + rest))
      == Ok(crcs, [ToByte(End)] + rest)
  {
    var after := [ToByte(End)] + rest;
    if crcs.Some? {
      CrcsGateSome(crcs.value, after);
    } else {
      ToByteInjective(CRC, End);
      PropertyGateAbsent(CRC, DigestsP(n), after);
      assert DigestsBytes(crcs) + after == after;
    }
  }

  lemma CrcsGateSome(ds: seq<U32>, after: Bytes)
    ensures PrecededOpt(TagPropertyIdP(CRC), DigestsP(|ds|), DigestsBytes(Some(ds)) + after) == Ok(Some(ds), after)
  {
    var body := Concat(U32Enc(), ds) + after;
    Assoc3([ToByte(CRC)], Concat(U32Enc(), ds), after);
    TagPropertyIdOk(CRC, body);
    DigestsRoundTrip(ds, after);
  }

  /// The `pack_info` section of the uncompressed archive of
  /// `src/parser/parsers/test.rs:133-147`, field by field: the `PackInfo`
  /// tag, pack position 0, one pack stream, a `Size` list holding 19, `End`.
  const FixturePackInfoBytes: Bytes := [0x06] + [0x00] + [0x01] + [0x09, 0x13] + [0x00]

  const FixturePackInfo: PackInfo := PackInfo.PackInfo(0, 1, Some([19]), None)

  lemma PackInfoFixture(rest: Bytes)
    ensures ParsePackInfo(FixturePackInfoBytes + rest) == Ok(FixturePackInfo, rest)
  {
    EncodeSmall(0);
    EncodeSmall(1);
    EncodeSmall(19);
    assert Encode(0) == [0x00] && Encode(1) == [0x01] && Encode(19) == [0x13];
    assert Concat(VarintEnc(), [19]) == [0x13];
    assert DigestsBytes(None) == [];
    assert EncodePackInfo(FixturePackInfo) == FixturePackInfoBytes;
    PackInfoRoundTrip(FixturePackInfo, rest);
  }

  // ---------------------------------------------------------------------
  // substreams_info

  /// The number of unpack sizes `substreams_info` reads: the sum over
  /// `num_unpack_streams_in_folders` is commented out at
  /// `src/parser/parsers/streams_info.rs:65` and replaced by the constant 1.
  const SubstreamsSizeCount: nat := 1

  /// What `substreams_info` guarantees: a folder-stream count per folder,
  /// exactly one unpack size, and `num_unknown_crcs` digests.
  predicate SubStreamsShape(ss: SubStreamsInfo, numFolders: nat, numUnknownCrcs: nat) {
    && (ss.numUnpackStreamsInFolders.Some? ==> |ss.numUnpackStreamsInFolders.value| == numFolders)
    && (ss.unpackSizes.Some? ==> |ss.unpackSizes.value| == SubstreamsSizeCount)
    && (ss.unknownDigests.Some? ==> |ss.unknownDigests.value| == numUnknownCrcs)
  }

  /// `substreams_info`, as written: the `SubStreamsInfo` tag, then three
  /// lists of packed integers, each behind its own tag, then `End`. The
  /// source returns `SubStreamsInfo {}`; the three decoded lists are kept
  /// here instead. The `Size` list holds exactly one value whatever the
  /// folders' stream counts say, so a folder with two or more streams is
  /// rejected (`SubstreamsTwoStreamsRejected`).
  function ParseSubStreamsInfo(input: Bytes, numFolders: Usize, numUnknownCrcs: Usize): (r: Res<SubStreamsInfo>)
    ensures r.Ok? ==> SubStreamsShape(r.value, numFolders, numUnknownCrcs)
    ensures |input| >= 1 && input[0] != ToByte(PropertyID.SubStreamsInfo) ==> r == Fail(Error(Nom(Tag)))
  {
    var tag :- TagByte(ToByte(PropertyID.SubStreamsInfo), input);
    SubStreamsLists(numFolders, numUnknownCrcs, tag.rest)
  }

  /// The three lists of `substreams_info` and its `End`.
  function SubStreamsLists(numFolders: Usize, numUnknownCrcs: Usize, input: Bytes): (r: Res<SubStreamsInfo>)
    ensures r.Ok? ==> SubStreamsShape(r.value, numFolders, numUnknownCrcs)
  {
    var numUnpackStreams :- PrecededOpt(TagByteP(ToByte(NumUnPackStream)), VarintsP(numFolders), input);
    var unpackSizes :- PrecededOpt(TagByteP(ToByte(Size)), VarintsP(SubstreamsSizeCount), numUnpackStreams.rest);
    var unknownCrcs :- PrecededOpt(TagByteP(ToByte(CRC)), VarintsP(numUnknownCrcs), unpackSizes.rest);
    var end :- TagByte(ToByte(End), unknownCrcs.rest);
    Ok(SubStreamsInfo.SubStreamsInfo(numUnpackStreams.value, unpackSizes.value, unknownCrcs.value), end.rest)
  }

  function EncodeSubStreamsInfo(ss: SubStreamsInfo): Bytes {
    [ToByte(PropertyID.SubStreamsInfo)] + GatedVarints(NumUnPackStream, ss.numUnpackStreamsInFolders)
      + GatedVarints(Size, ss.unpackSizes) + GatedVarints(CRC, ss.unknownDigests) + [ToByte(End)]
  }

  /// Round trip: every value of the shape `substreams_info` returns is read
  /// back from its bytes, which are consumed exactly.
  lemma SubStreamsRoundTrip(ss: SubStreamsInfo, numFolders: Usize, numUnknownCrcs: Usize, rest: Bytes)
    requires SubStreamsShape(ss, numFolders, numUnknownCrcs)
    ensures ParseSubStreamsInfo(EncodeSubStreamsInfo(ss) + rest, numFolders, numUnknownCrcs) == Ok(ss, rest)
  {
    var nb := GatedVarints(NumUnPackStream, ss.numUnpackStreamsInFolders);
    var sb := GatedVarints(Size, ss.unpackSizes);
    var cb := GatedVarints(CRC, ss.unknownDigests);
    Assoc6([ToByte(PropertyID.SubStreamsInfo)], nb, sb, cb, [ToByte(End)], rest);
    SplitConcat([ToByte(PropertyID.SubStreamsInfo)], nb + (sb + (cb + ([ToByte(End)] + rest))));
    SubStreamsListsStage(ss, numFolders, numUnknownCrcs, rest);
  }

  lemma SubStreamsListsStage(ss: SubStreamsInfo, numFolders: Usize, numUnknownCrcs: Usize, rest: Bytes)
    requires SubStreamsShape(ss, numFolders, numUnknownCrcs)
    ensures SubStreamsLists(numFolders, numUnknownCrcs,
      GatedVarints(NumUnPackStream, ss.numUnpackStreamsInFolders) + (GatedVarints(Size, ss.unpackSizes)
        + (GatedVarints(CRC, ss.unknownDigests) + ([ToByte(End)] + rest)))) == Ok(ss, rest)
  {
    var after3 := [ToByte(End)] + rest;
    var after2 := GatedVarints(CRC, ss.unknownDigests) + after3;
    var after1 := GatedVarints(Size, ss.unpackSizes) + after2;
    assert ToByte(End) == 0x00 && ToByte(CRC) == 0x0A && ToByte(Size) == 0x09 && ToByte(NumUnPackStream) == 0x0D;
    GatedFirstByte(CRC, ss.unknownDigests, after3);
    GatedFirstByte(Size, ss.unpackSizes, after2);
    assert after2[0] == 0x00 || after2[0] == 0x0A;
    assert after1[0] == 0x00 || after1[0] == 0x0A || after1[0] == 0x09;
    GatedRoundTrip(NumUnPackStream, numFolders, ss.numUnpackStreamsInFolders, after1);
    GatedRoundTrip(Size, SubstreamsSizeCount, ss.unpackSizes, after2);
    GatedRoundTrip(CRC, numUnknownCrcs, ss.unknownDigests, after3);
    SplitConcat([ToByte(End)], rest);
  }

  /// The first byte after a gated list: its tag when present, else the
  /// first byte of what follows.
  lemma GatedFirstByte(tag: PropertyID, xs: Option<seq<U64>>, after: Bytes)
    requires xs.Some? || |after| >= 1
    ensures |GatedVarints(tag, xs) + after| >= 1
    ensures xs.Some? ==> (GatedVarints(tag, xs) + after)[0] == ToByte(tag)
    ensures xs.None? ==> (GatedVarints(tag, xs) + after)[0] == after[0]
  {
  }

  /// One gated list of `substreams_info`; what follows does not start with
  /// the list's tag.
  lemma GatedRoundTrip(tag: PropertyID, n: nat, xs: Option<seq<U64>>, after: Bytes)
    requires xs.Some? ==> |xs.value| == n
    requires |after| >= 1 && after[0] != ToByte(tag)
    ensures PrecededOpt(TagByteP(ToByte(tag)), VarintsP(n), GatedVarints(tag, xs) + after) == Ok(xs, after)
  {
    if xs.Some? {
      var body := Concat(VarintEnc(), xs.value) + after;
      Assoc3([ToByte(tag)], Concat(VarintEnc(), xs.value), after);
      SplitConcat([ToByte(tag)], body);
      VarintsRoundTrip(xs.value, after);
    } else {
      assert GatedVarints(tag, xs) + after == after;
    }
  }

  /// The hard-coded size count: however many sizes follow the `Size` tag,
  /// exactly the first is read and the others are left in the input.
  lemma SubstreamsSizeReadsOne(sizes: seq<U64>, after: Bytes)
    requires |sizes| >= 1
    ensures PrecededOpt(TagByteP(ToByte(Size)), VarintsP(SubstreamsSizeCount), GatedVarints(Size, Some(sizes)) + after)
      == Ok(Some([sizes[0]]), Concat(VarintEnc(), sizes[1..]) + after)
  {
    var others := Concat(VarintEnc(), sizes[1..]);
    var tail := others + after;
    assert Concat(VarintEnc(), sizes) == Encode(sizes[0]) + others;
    Assoc3([ToByte(Size)], Encode(sizes[0]) + others, after);
    Assoc3(Encode(sizes[0]), others, after);
    SplitConcat([ToByte(Size)], Encode(sizes[0]) + tail);
    CountOneVarint(sizes[0], tail);
  }

  /// `count(sevenz_uint64, 1)` reads exactly one packed integer.
  lemma CountOneVarint(v: U64, tail: Bytes)
    ensures Count(VarintP(), 1, Encode(v) + tail) == Ok([v], tail)
  {
    VarintRoundTrip(v, tail);
    assert VarintP()(Encode(v) + tail) == Ok(v, tail);
    assert Count(VarintP(), 0, tail) == Ok([], tail);
    assert [v] + [] == [v];
  }

  /// The hard-coded size count, exhibited: one folder holding two streams
  /// of `a` and `b` bytes, written out in full, is rejected whenever `b`
  /// is a one-byte size that is neither the `CRC` tag nor `End` (any `b`
  /// from 1 to 127 but 10). The parser reads the size `a`, then meets the
  /// byte `b` where it requires the `CRC` tag or `End`.
  lemma SubstreamsTwoStreamsRejected(a: U64, b: bv8, rest: Bytes)
    requires b < 0x80 && b != ToByte(CRC) && b != ToByte(End)
    ensures ParseSubStreamsInfo(EncodeSubStreamsInfo(SubStreamsInfo.SubStreamsInfo(Some([2]), Some([a, b as int]), None)) + rest, 1, 2)
      == Fail(Error(Nom(Tag)))
  {
    var counts := GatedVarints(NumUnPackStream, Some([2]));
    var sizes := GatedVarints(Size, Some([a, b as int]));
    var after := [ToByte(End)] + rest;
    Assoc6([ToByte(PropertyID.SubStreamsInfo)], counts, sizes, GatedVarints(CRC, None), [ToByte(End)], rest);
    assert GatedVarints(CRC, None) + after == after;
    SplitConcat([ToByte(PropertyID.SubStreamsInfo)], counts + (sizes + after));
    ListsRejectSecondSize(a, b, after);
  }

  lemma ListsRejectSecondSize(a: U64, b: bv8, after: Bytes)
    requires b < 0x80 && b != ToByte(CRC) && b != ToByte(End)
    ensures SubStreamsLists(1, 2, GatedVarints(NumUnPackStream, Some([2])) + (GatedVarints(Size, Some([a, b as int])) + after))
      == Fail(Error(Nom(Tag)))
  {
    var sizes := GatedVarints(Size, Some([a, b as int]));
    StrayAfterOne(a, b, after);
    GatedFirstByte(Size, Some([a, b as int]), after);
    ToByteInjective(Size, NumUnPackStream);
    GatedRoundTrip(NumUnPackStream, 1, Some([2]), sizes + after);
    StrayRejected(b, after);
  }

  /// Reading one size of two leaves the encoding of the second.
  lemma StrayAfterOne(a: U64, b: bv8, after: Bytes)
    requires b < 0x80
    ensures PrecededOpt(TagByteP(ToByte(Size)), VarintsP(SubstreamsSizeCount), GatedVarints(Size, Some([a, b as int])) + after)
      == Ok(Some([a]), [b] + after)
  {
    var v: U64 := b as int;
    SubstreamsSizeReadsOne([a, v], after);
    assert [a, v][1..] == [v];
    EncodeSmall(v);
    ByteOfByte(b);
    assert Concat(VarintEnc(), [v]) == [b];
  }

  /// A byte that is neither `CRC` nor `End` where those are expected.
  lemma StrayRejected(b: bv8, after: Bytes)
    requires b != ToByte(CRC) && b != ToByte(End)
    ensures PrecededOpt(TagByteP(ToByte(CRC)), VarintsP(2), [b] + after) == Ok(None, [b] + after)
    ensures TagByte(ToByte(End), [b] + after) == Fail(Error(Nom(Tag)))
  {
  }

  // ---------------------------------------------------------------------
  // streams_info

  /// The folder count `streams_info` settles on: the caller's, else the one
  /// of the coders section just read; `None` when neither exists.
  function ResolveNumFolders(given: Option<Usize>, codersInfo: Option<CodersInfo>): (n: Option<Usize>)
    ensures n.Some? <==> given.Some? || codersInfo.Some?
    ensures given.Some? ==> n == given
    ensures given.None? && codersInfo.Some? ==> n == Some(codersInfo.value.numFolders)
  {
    if given.Some? then given
    else match codersInfo
      case Some(c) => Some(c.numFolders)
      case None => None
  }

  /// The arguments `streams_info` passes to `substreams_info`, fixed at
  /// `src/parser/parsers/streams_info.rs:111` whatever folder count was
  /// resolved.
  const SubstreamsNumFolders: Usize := 1
  const SubstreamsNumUnknownCrcs: Usize := 2

  /// `streams_info`: an optional `pack_info`, an optional `coders_info`, the
  /// folder count check, an optional `substreams_info`, and `End`. A section
  /// whose parser fails with a recoverable error is absent and consumes
  /// nothing.
  function ParseStreamsInfo(input: Bytes, numFolders: Option<Usize>): (r: Res<StreamsInfo>)
    ensures r.Ok? ==> ResolveNumFolders(numFolders, r.value.codersInfo).Some?
    ensures r.Ok? ==> StreamsInfoShape(r.value)
  {
    var pack :- Opt(ParsePackInfo(input), input);
    var coders :- Opt(ParseCodersInfo(pack.rest), pack.rest);
    StreamsInfoRest(numFolders, pack.value, coders.value, coders.rest)
  }

  /// The rest of `streams_info`, once the pack and coders sections are read.
  function StreamsInfoRest(numFolders: Option<Usize>, packInfo: Option<PackInfo>, codersInfo: Option<CodersInfo>,
      input: Bytes): (r: Res<StreamsInfo>)
    ensures r.Ok? ==> r.value.packInfo == packInfo && r.value.codersInfo == codersInfo
    ensures r.Ok? ==> ResolveNumFolders(numFolders, codersInfo).Some?
    ensures r.Ok? && r.value.substreamsInfo.Some? ==>
      SubStreamsShape(r.value.substreamsInfo.value, SubstreamsNumFolders, SubstreamsNumUnknownCrcs)
  {
    if ResolveNumFolders(numFolders, codersInfo).None? then
      Fail(Failure(CouldNotDetermineNumFolders))
    else
      var sub :- Opt(ParseSubStreamsInfo(input, SubstreamsNumFolders, SubstreamsNumUnknownCrcs), input);
      var end :- TagByte(ToByte(End), sub.rest);
      Ok(StreamsInfo(packInfo, codersInfo, sub.value), end.rest)
  }

  /// Each section present has the shape its parser guarantees.
  predicate StreamsInfoShape(si: StreamsInfo) {
    && (si.packInfo.Some? ==> PackInfoShape(si.packInfo.value))
    && (si.codersInfo.Some? ==> CodersInfoShape(si.codersInfo.value))
    && (si.substreamsInfo.Some? ==>
          SubStreamsShape(si.substreamsInfo.value, SubstreamsNumFolders, SubstreamsNumUnknownCrcs))
  }

  /// The folder count given by the caller only decides whether the parse
  /// may go on: any two given counts give the same result.
  lemma StreamsInfoIgnoresGivenCount(input: Bytes, a: Usize, b: Usize)
    ensures ParseStreamsInfo(input, Some(a)) == ParseStreamsInfo(input, Some(b))
  {
  }

  function OptPackInfoBytes(pi: Option<PackInfo>): Bytes {
    match pi
    case Some(p) => EncodePackInfo(p)
    case None => []
  }

  function OptCodersInfoBytes(ci: Option<CodersInfo>): Bytes
    requires ci.Some? ==> CodersInfoShape(ci.value)
  {
    match ci
    case Some(c) => EncodeCodersInfo(c)
    case None => []
  }

  function OptSubStreamsBytes(ss: Option<SubStreamsInfo>): Bytes {
    match ss
    case Some(s) => EncodeSubStreamsInfo(s)
    case None => []
  }

  function EncodeStreamsInfo(si: StreamsInfo): Bytes
    requires StreamsInfoShape(si)
  {
    OptPackInfoBytes(si.packInfo) + OptCodersInfoBytes(si.codersInfo) + OptSubStreamsBytes(si.substreamsInfo)
      + [ToByte(End)]
  }

  /// Round trip: a streams section whose folder count can be settled is
  /// read back from its bytes, which are consumed exactly.
  lemma StreamsInfoRoundTrip(si: StreamsInfo, numFolders: Option<Usize>, rest: Bytes)
    requires StreamsInfoShape(si) && ResolveNumFolders(numFolders, si.codersInfo).Some?
    ensures ParseStreamsInfo(EncodeStreamsInfo(si) + rest, numFolders) == Ok(si, rest)
  {
    StreamsInfoSections(si, rest);
    SubStreamsSection(si.substreamsInfo, rest);
    SplitConcat([ToByte(End)], rest);
    assert StreamsInfoRest(numFolders, si.packInfo, si.codersInfo, StreamsTail(si, rest)) == Ok(si, rest);
  }

  /// Without a coders section or a caller's count, `streams_info` fails.
  lemma StreamsInfoNeedsFolderCount(si: StreamsInfo, rest: Bytes)
    requires StreamsInfoShape(si) && si.codersInfo.None?
    ensures ParseStreamsInfo(EncodeStreamsInfo(si) + rest, None) == Fail(Failure(CouldNotDetermineNumFolders))
  {
    StreamsInfoSections(si, rest);
  }

  /// The bytes of an encoded streams section after the coders section.
  function StreamsTail(si: StreamsInfo, rest: Bytes): Bytes {
    OptSubStreamsBytes(si.substreamsInfo) + ([ToByte(End)] + rest)
  }

  /// The two leading optional sections are read back.
  lemma StreamsInfoSections(si: StreamsInfo, rest: Bytes)
    requires StreamsInfoShape(si)
    ensures var input := EncodeStreamsInfo(si) + rest;
      && Opt(ParsePackInfo(input), input) == Ok(si.packInfo, CodersAndTail(si, rest))
      && Opt(ParseCodersInfo(CodersAndTail(si, rest)), CodersAndTail(si, rest)) == Ok(si.codersInfo, StreamsTail(si, rest))
  {
    var pb := OptPackInfoBytes(si.packInfo);
    var cb := OptCodersInfoBytes(si.codersInfo);
    var sb := OptSubStreamsBytes(si.substreamsInfo);
    Assoc5(pb, cb, sb, [ToByte(End)], rest);
    PackSection(si, rest);
    CodersSection(si, rest);
  }

  function CodersAndTail(si: StreamsInfo, rest: Bytes): Bytes
    requires StreamsInfoShape(si)
  {
    OptCodersInfoBytes(si.codersInfo) + StreamsTail(si, rest)
  }

  /// The first byte of what follows the coders section: `SubStreamsInfo`
  /// or `End`.
  lemma StreamsTailFirst(si: StreamsInfo, rest: Bytes)
    ensures |StreamsTail(si, rest)| >= 1
    ensures StreamsTail(si, rest)[0] == ToByte(PropertyID.SubStreamsInfo) || StreamsTail(si, rest)[0] == ToByte(End)
  {
  }

  lemma PackSection(si: StreamsInfo, rest: Bytes)
    requires StreamsInfoShape(si)
    ensures Opt(ParsePackInfo(OptPackInfoBytes(si.packInfo) + CodersAndTail(si, rest)),
      OptPackInfoBytes(si.packInfo) + CodersAndTail(si, rest)) == Ok(si.packInfo, CodersAndTail(si, rest))
  {
    var after := CodersAndTail(si, rest);
    if si.packInfo.Some? {
      PackSome(si.packInfo.value, after);
      assert OptPackInfoBytes(si.packInfo) == EncodePackInfo(si.packInfo.value);
    } else {
      CodersAndTailFirst(si, rest);
      PackNone(after);
      assert OptPackInfoBytes(si.packInfo) + after == after;
    }
  }

  /// What follows the pack section never starts with the `PackInfo` tag.
  lemma CodersAndTailFirst(si: StreamsInfo, rest: Bytes)
    requires StreamsInfoShape(si)
    ensures |CodersAndTail(si, rest)| >= 1 && CodersAndTail(si, rest)[0] != ToByte(PropertyID.PackInfo)
  {
    StreamsTailFirst(si, rest);
    ToByteInjective(PropertyID.PackInfo, UnPackInfo);
    ToByteInjective(PropertyID.PackInfo, PropertyID.SubStreamsInfo);
    ToByteInjective(PropertyID.PackInfo, End);
    if si.codersInfo.Some? {
      assert EncodeCodersInfo(si.codersInfo.value)[0] == ToByte(UnPackInfo);
    }
  }

  lemma PackSome(pi: PackInfo, after: Bytes)
    requires PackInfoShape(pi)
    ensures Opt(ParsePackInfo(EncodePackInfo(pi) + after), EncodePackInfo(pi) + after) == Ok(Some(pi), after)
  {
    PackInfoRoundTrip(pi, after);
  }

  lemma PackNone(after: Bytes)
    requires |after| >= 1 && after[0] != ToByte(PropertyID.PackInfo)
    ensures Opt(ParsePackInfo(after), after) == Ok(None, after)
  {
  }

  lemma CodersSection(si: StreamsInfo, rest: Bytes)
    requires StreamsInfoShape(si)
    ensures Opt(ParseCodersInfo(CodersAndTail(si, rest)), CodersAndTail(si, rest)) == Ok(si.codersInfo, StreamsTail(si, rest))
  {
    var after := StreamsTail(si, rest);
    StreamsTailFirst(si, rest);
    if si.codersInfo.Some? {
      CodersInfoRoundTrip(si.codersInfo.value, after);
    } else {
      assert CodersAndTail(si, rest) == after;
      assert TagByte(ToByte(UnPackInfo), after) == Fail(Error(Nom(Tag)));
    }
  }

  /// The optional substreams section, then `End`.
  lemma SubStreamsSection(ss: Option<SubStreamsInfo>, rest: Bytes)
    requires ss.Some? ==> SubStreamsShape(ss.value, SubstreamsNumFolders, SubstreamsNumUnknownCrcs)
    ensures var input := OptSubStreamsBytes(ss) + ([ToByte(End)] + rest);
      Opt(ParseSubStreamsInfo(input, SubstreamsNumFolders, SubstreamsNumUnknownCrcs), input) == Ok(ss, [ToByte(End)] + rest)
  {
    if ss.Some? {
      SomeSubStreams(ss.value, [ToByte(End)] + rest);
    } else {
      NoSubStreams(rest);
      assert OptSubStreamsBytes(ss) + ([ToByte(End)] + rest) == [ToByte(End)] + rest;
    }
  }

  lemma SomeSubStreams(ss: SubStreamsInfo, after: Bytes)
    requires SubStreamsShape(ss, SubstreamsNumFolders, SubstreamsNumUnknownCrcs)
    ensures var input := EncodeSubStreamsInfo(ss) + after;
      Opt(ParseSubStreamsInfo(input, SubstreamsNumFolders, SubstreamsNumUnknownCrcs), input) == Ok(Some(ss), after)
  {
    SubStreamsRoundTrip(ss, SubstreamsNumFolders, SubstreamsNumUnknownCrcs, after);
  }

  lemma NoSubStreams(rest: Bytes)
    ensures var input := [ToByte(End)] + rest;
      Opt(ParseSubStreamsInfo(input, SubstreamsNumFolders, SubstreamsNumUnknownCrcs), input) == Ok(None, input)
  {
    ToByteInjective(End, PropertyID.SubStreamsInfo);
  }
}
