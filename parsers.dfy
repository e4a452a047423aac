/// The header-level parsers of `src/parser/parsers/mod.rs`: the signature
/// header that opens every archive (magic bytes, format version, the CRC of
/// the start header, the start header), property tags and boolean bytes.
module Parsers {
  import opened Base
  import opened Err
  import opened Nom
  import opened PropertyIds
  import opened Crc

  /// `MAGIC`: '7', 'z', 0xBC, 0xAF, 0x27, 0x1C.
  const Magic: Bytes := [0x37, 0x7A, 0xBC, 0xAF, 0x27, 0x1C]

  /// `START_HEADER_SIZE_BYTES`: two `u64` and one `u32`.
  const StartHeaderSizeBytes: nat := 8 + 8 + 4

  datatype ArchiveVersion = ArchiveVersion(major: bv8, minor: bv8)

  datatype StartHeader = StartHeader(nextHeaderOffset: U64, nextHeaderSize: U64, nextHeaderCrc: U32)

  datatype SignatureHeader = SignatureHeader(
    archiveVersion: ArchiveVersion, startHeaderCrc: U32, startHeader: StartHeader)

  /// `archive_version`: two bytes, major then minor.
  function ParseArchiveVersion(input: Bytes): (r: Res<ArchiveVersion>)
    ensures r.Ok? <==> |input| >= 2
    ensures r.Ok? ==> r.value == ArchiveVersion(input[0], input[1]) && r.rest == input[2..]
    ensures r.Fail? ==> r.fault == Error(Nom(Eof))
  {
    var major :- U8(input);
    var minor :- U8(major.rest);
    Ok(ArchiveVersion(major.value, minor.value), minor.rest)
  }

  /// `start_header`: the offset and size of the next header (little-endian
  /// `u64` each) and its CRC (little-endian `u32`).
  function ParseStartHeader(input: Bytes): (r: Res<StartHeader>)
  {
    var offset :- LeU64(input);
    var size :- LeU64(offset.rest);
    var crc :- LeU32(size.rest);
    Ok(StartHeader(offset.value, size.value, crc.value), crc.rest)
  }

  /// `signature_header`: the magic bytes, the version and the stored CRC;
  /// then the CRC of the next 20 bytes is compared with the stored one
  /// while the same 20 bytes are parsed as the start header.
  function ParseSignatureHeader(input: Bytes): (r: Res<SignatureHeader>)
  {
    var magic :- TagSeq(Magic, input);
    var version :- ParseArchiveVersion(magic.rest);
    var stored :- LeU32(version.rest);
    var raw :- Take(StartHeaderSizeBytes, stored.rest);
    var header :- ParseStartHeader(stored.rest);
    var calculated := Crc32(raw.value);
    if calculated != stored.value then Fail(Failure(Crc(stored.value, calculated)))
    else Ok(SignatureHeader(version.value, stored.value, header.value), header.rest)
  }

  /// The fields of a 20-byte start header, in order.
  function StartHeaderOf(b: Bytes): StartHeader
    requires |b| == StartHeaderSizeBytes
  {
    Pow256Widths();
    StartHeader(LeValue(b[..8]), LeValue(b[8..16]), LeValue(b[16..20]))
  }

  /// The CRC stored at bytes 8 to 11 of a signature header.
  function StoredCrc(b: Bytes): U32
    requires |b| >= 12
  {
    Pow256Widths();
    LeValue(b[8..12])
  }

  /// The fields of a 32-byte signature header, in order.
  function SignatureOf(b: Bytes): SignatureHeader
    requires |b| >= 32
  {
    SignatureHeader(ArchiveVersion(b[6], b[7]), StoredCrc(b), StartHeaderOf(b[12..32]))
  }

  /// The start header reads exactly 20 bytes: offset, size and CRC, each
  /// little-endian; a shorter input runs out.
  lemma StartHeaderFields(input: Bytes)
    ensures ParseStartHeader(input).Ok? <==> |input| >= StartHeaderSizeBytes
    ensures ParseStartHeader(input).Ok? ==>
      ParseStartHeader(input).value == StartHeaderOf(input[..20]) && ParseStartHeader(input).rest == input[20..]
    ensures ParseStartHeader(input).Fail? ==> ParseStartHeader(input).fault == Error(Nom(Eof))
  {
    if |input| >= 20 {
      var b := input[..20];
      assert b[..8] == input[..8];
      assert b[8..16] == input[8..16] && input[8..][..8] == input[8..16];
      assert b[16..20] == input[16..20] && input[16..][..4] == input[16..20];
      assert input[8..][8..] == input[16..] && input[16..][4..] == input[20..];
    }
  }

  /// The signature header succeeds exactly when the six magic bytes, the
  /// version, the stored CRC and 20 start-header bytes are present and the
  /// stored CRC is that of the 20 bytes; it then consumes 32 bytes.
  lemma SignatureHeaderAccepts(input: Bytes)
    ensures ParseSignatureHeader(input).Ok? <==>
      |input| >= 32 && input[..6] == Magic && Crc32(input[12..32]) == StoredCrc(input)
    ensures |input| >= 32 && input[..6] == Magic && Crc32(input[12..32]) == StoredCrc(input) ==>
      ParseSignatureHeader(input) == Ok(SignatureOf(input), input[32..])
  {
    if |input| >= 32 && input[..6] == Magic {
      SignatureLayout(input);
    }
  }

  /// The ways the signature header fails: wrong magic bytes (a recoverable
  /// tag error), too short an input (recoverable), and a CRC mismatch, which
  /// is fatal and carries the stored and the computed CRC.
  lemma SignatureHeaderRejects(input: Bytes)
    ensures !(|input| >= 6 && input[..6] == Magic) ==> ParseSignatureHeader(input) == Fail(Error(Nom(Tag)))
    ensures |input| >= 6 && input[..6] == Magic && |input| < 32 ==>
      ParseSignatureHeader(input) == Fail(Error(Nom(Eof)))
    ensures |input| >= 32 && input[..6] == Magic && Crc32(input[12..32]) != StoredCrc(input) ==>
      ParseSignatureHeader(input) == Fail(Failure(Crc(StoredCrc(input), Crc32(input[12..32]))))
  {
    if |input| >= 32 && input[..6] == Magic {
      SignatureLayout(input);
    }
  }

  /// Where each field of a 32-byte signature header sits.
  lemma SignatureLayout(input: Bytes)
    requires |input| >= 32 && input[..6] == Magic
    ensures var magic := TagSeq(Magic, input);
      var version := ParseArchiveVersion(magic.rest);
      var stored := LeU32(version.rest);
      magic.Ok? && magic.rest == input[6..] && version == Ok(ArchiveVersion(input[6], input[7]), input[8..]) &&
      stored.Ok? && stored.value == StoredCrc(input) && stored.rest == input[12..] &&
      Take(StartHeaderSizeBytes, stored.rest) == Ok(input[12..32], input[32..]) &&
      ParseStartHeader(stored.rest) == Ok(StartHeaderOf(input[12..32]), input[32..])
  {
    assert input[6..][2..] == input[8..];
    assert input[8..][..4] == input[8..12] && input[8..][4..] == input[12..];
    assert input[12..][..20] == input[12..32] && input[12..][20..] == input[32..];
    StartHeaderFields(input[12..]);
  }

  /// The 20 bytes of a start header.
  function StartHeaderBytes(h: StartHeader): (b: Bytes)
    ensures |b| == StartHeaderSizeBytes
  {
    Pow256Widths();
    LeBytes(h.nextHeaderOffset, 8) + LeBytes(h.nextHeaderSize, 8) + LeBytes(h.nextHeaderCrc, 4)
  }

  /// Start headers are read back from their bytes.
  lemma StartHeaderRoundTrip(h: StartHeader)
    ensures StartHeaderOf(StartHeaderBytes(h)) == h
  {
    Pow256Widths();
    var b := StartHeaderBytes(h);
    assert b[..8] == LeBytes(h.nextHeaderOffset, 8);
    assert b[8..16] == LeBytes(h.nextHeaderSize, 8);
    assert b[16..20] == LeBytes(h.nextHeaderCrc, 4);
    LeValueOfLeBytes(h.nextHeaderOffset, 8);
    LeValueOfLeBytes(h.nextHeaderSize, 8);
    LeValueOfLeBytes(h.nextHeaderCrc, 4);
  }

  /// The 32 bytes of a signature header storing the CRC `crc`.
  function SignatureBytes(v: ArchiveVersion, crc: U32, h: StartHeader): (b: Bytes)
    ensures |b| == 32
  {
    Pow256Widths();
    Magic + [v.major, v.minor] + LeBytes(crc, 4) + StartHeaderBytes(h)
  }

  /// Writing a signature header and reading it back: with the right CRC
  /// the header comes back and exactly 32 bytes are consumed; with any
  /// other stored CRC the parse fails fatally with both CRCs.
  lemma SignatureRoundTrip(v: ArchiveVersion, crc: U32, h: StartHeader, rest: Bytes)
    ensures var sh := StartHeaderBytes(h);
      ParseSignatureHeader(SignatureBytes(v, crc, h) + rest) ==
        if crc == Crc32(sh) then Ok(SignatureHeader(v, crc, h), rest)
        else Fail(Failure(Crc(crc, Crc32(sh))))
  {
    Pow256Widths();
    var input := SignatureBytes(v, crc, h) + rest;
    var sh := StartHeaderBytes(h);
    assert input[..6] == Magic;
    assert input[6] == v.major && input[7] == v.minor;
    assert input[8..12] == LeBytes(crc, 4);
    assert input[12..32] == sh;
    assert input[32..] == rest;
    LeValueOfLeBytes(crc, 4);
    StartHeaderRoundTrip(h);
    SignatureLayout(input);
  }

  /// `src/parser/parsers/test.rs:11-19`: the version of the test archive.
  lemma ArchiveVersionFixture(rest: Bytes)
    ensures ParseArchiveVersion([0, 4] + rest) == Ok(ArchiveVersion(0, 4), rest)
  {
    assert ([0, 4] + rest)[2..] == rest;
  }

  /// `src/parser/parsers/test.rs:21-39`: the first 32 bytes of the test
  /// archive are the magic bytes, version 0.4, the start-header CRC 9174449
  /// and a start header with next-header offset 19, size 90 and CRC
  /// 970299701.
  const FixtureStoredCrc: Bytes := [0xB1, 0xFD, 0x8B, 0x00]

  const FixtureStartHeader: Bytes := [0x13, 0x00, 0x00, 0x00, 0x00, 0x00, 0x00, 0x00, 0x5A, 0x00, 0x00, 0x00, 0x00, 0x00, 0x00, 0x00, 0x35, 0x99, 0xD5, 0x39]

  lemma SignatureFixture(rest: Bytes)
    ensures ParseSignatureHeader(Magic + [0x00, 0x04] + FixtureStoredCrc + FixtureStartHeader + rest) ==
      Ok(SignatureHeader(ArchiveVersion(0, 4), 9174449, StartHeader(19, 90, 970299701)), rest)
  {
    var input := Magic + [0x00, 0x04] + FixtureStoredCrc + FixtureStartHeader + rest;
    assert input[..6] == Magic;
    assert input[6] == 0 && input[7] == 4;
    assert input[8..12] == FixtureStoredCrc;
    assert input[12..32] == FixtureStartHeader;
    assert input[32..] == rest;
    FixtureStartHeaderCrc();
    FixtureFields();
    SignatureHeaderAccepts(input);
  }

  lemma FixtureFields()
    ensures LeValue(FixtureStoredCrc) == 9174449
    ensures StartHeaderOf(FixtureStartHeader) == StartHeader(19, 90, 970299701)
  {
    var b := FixtureStartHeader;
    assert b[..8] == [0x13, 0x00, 0x00, 0x00, 0x00, 0x00, 0x00, 0x00];
    assert b[8..16] == [0x5A, 0x00, 0x00, 0x00, 0x00, 0x00, 0x00, 0x00];
    assert b[16..20] == [0x35, 0x99, 0xD5, 0x39];
  }

  lemma FixtureStartHeaderCrc()
    ensures Crc32(FixtureStartHeader) == 9174449
  {
    var a: Bytes := [0x13, 0x00, 0x00, 0x00, 0x00, 0x00, 0x00, 0x00, 0x5A, 0x00];
    var b: Bytes := [0x00, 0x00, 0x00, 0x00, 0x00, 0x00, 0x35, 0x99, 0xD5, 0x39];
    assert FixtureStartHeader == a + b;
    CrcUpdateAppend(0xFFFF_FFFF, a, b);
    FixtureCrcFirstHalf();
    FixtureCrcSecondHalf();
  }

  lemma FixtureCrcFirstHalf()
    ensures CrcUpdate(0xFFFFFFFF, [0x13, 0x00, 0x00, 0x00, 0x00, 0x00, 0x00, 0x00, 0x5A, 0x00]) == 0x90B818BC
  {
    assert ShiftN(0xFFFFFFEC, 8) == 0xA94351AC;
    assert ShiftN(0xA94351AC, 8) == 0xDFC9AC92;
    assert ShiftN(0xDFC9AC92, 8) == 0x1EDE3BC4;
    assert ShiftN(0x1EDE3BC4, 8) == 0x9C17D892;
    assert ShiftN(0x9C17D892, 8) == 0x1E9DE5B0;
    assert ShiftN(0x1E9DE5B0, 8) == 0xCB7F2E69;
    assert ShiftN(0xCB7F2E69, 8) == 0x34A5A6D2;
    assert ShiftN(0x34A5A6D2, 8) == 0x68E9165E;
    assert ShiftN(0x68E91604, 8) == 0x07052D0F;
    assert ShiftN(0x07052D0F, 8) == 0x90B818BC;
    assert CrcUpdate(0x90B818BC, []) == 0x90B818BC;
    assert CrcUpdate(0x07052D0F, [0x00]) == 0x90B818BC;
    assert CrcUpdate(0x68E9165E, [0x5A, 0x00]) == 0x90B818BC;
    assert CrcUpdate(0x34A5A6D2, [0x00, 0x5A, 0x00]) == 0x90B818BC;
    assert CrcUpdate(0xCB7F2E69, [0x00, 0x00, 0x5A, 0x00]) == 0x90B818BC;
    assert CrcUpdate(0x1E9DE5B0, [0x00, 0x00, 0x00, 0x5A, 0x00]) == 0x90B818BC;
    assert CrcUpdate(0x9C17D892, [0x00, 0x00, 0x00, 0x00, 0x5A, 0x00]) == 0x90B818BC;
    assert CrcUpdate(0x1EDE3BC4, [0x00, 0x00, 0x00, 0x00, 0x00, 0x5A, 0x00]) == 0x90B818BC;
    assert CrcUpdate(0xDFC9AC92, [0x00, 0x00, 0x00, 0x00, 0x00, 0x00, 0x5A, 0x00]) == 0x90B818BC;
    assert CrcUpdate(0xA94351AC, [0x00, 0x00, 0x00, 0x00, 0x00, 0x00, 0x00, 0x5A, 0x00]) == 0x90B818BC;
    assert CrcUpdate(0xFFFFFFFF, [0x13, 0x00, 0x00, 0x00, 0x00, 0x00, 0x00, 0x00, 0x5A, 0x00]) == 0x90B818BC;
  }

  lemma FixtureCrcSecondHalf()
    ensures CrcUpdate(0x90B818BC, [0x00, 0x00, 0x00, 0x00, 0x00, 0x00, 0x35, 0x99, 0xD5, 0x39]) == 0xFF74024E
  {
    assert ShiftN(0x90B818BC, 8) == 0xC24747BF;
    assert ShiftN(0xC24747BF, 8) == 0x5B1CE95A;
    assert ShiftN(0x5B1CE95A, 8) == 0x8BE5A403;
    assert ShiftN(0x8BE5A403, 8) == 0x9982B41E;
    assert ShiftN(0x9982B41E, 8) == 0xFA96BFD7;
    assert ShiftN(0xFA96BFD7, 8) == 0x184DD1C8;
    assert ShiftN(0x184DD1FD, 8) == 0xC314C370;
    assert ShiftN(0xC314C3E9, 8) == 0xD9154E1F;
    assert ShiftN(0xD9154ECA, 8) == 0x7B683EE0;
    assert ShiftN(0x7B683ED9, 8) == 0xFF74024E;
    assert CrcUpdate(0xFF74024E, []) == 0xFF74024E;
    assert CrcUpdate(0x7B683EE0, [0x39]) == 0xFF74024E;
    assert CrcUpdate(0xD9154E1F, [0xD5, 0x39]) == 0xFF74024E;
    assert CrcUpdate(0xC314C370, [0x99, 0xD5, 0x39]) == 0xFF74024E;
    assert CrcUpdate(0x184DD1C8, [0x35, 0x99, 0xD5, 0x39]) == 0xFF74024E;
    assert CrcUpdate(0xFA96BFD7, [0x00, 0x35, 0x99, 0xD5, 0x39]) == 0xFF74024E;
    assert CrcUpdate(0x9982B41E, [0x00, 0x00, 0x35, 0x99, 0xD5, 0x39]) == 0xFF74024E;
    assert CrcUpdate(0x8BE5A403, [0x00, 0x00, 0x00, 0x35, 0x99, 0xD5, 0x39]) == 0xFF74024E;
    assert CrcUpdate(0x5B1CE95A, [0x00, 0x00, 0x00, 0x00, 0x35, 0x99, 0xD5, 0x39]) == 0xFF74024E;
    assert CrcUpdate(0xC24747BF, [0x00, 0x00, 0x00, 0x00, 0x00, 0x35, 0x99, 0xD5, 0x39]) == 0xFF74024E;
    assert CrcUpdate(0x90B818BC, [0x00, 0x00, 0x00, 0x00, 0x00, 0x00, 0x35, 0x99, 0xD5, 0x39]) == 0xFF74024E;
  }

  /// `property_id`: one byte, decoded as a tag; a byte that is no tag is a
  /// fatal `InvalidPropertyID` carrying the byte.
  function ParsePropertyId(input: Bytes): (r: Res<PropertyID>)
    ensures r.Ok? <==> |input| >= 1 && input[0] < 0x1A
    ensures r.Ok? ==> ToByte(r.value) == input[0] && r.rest == input[1..]
    ensures |input| == 0 ==> r == Fail(Error(Nom(Eof)))
    ensures |input| >= 1 && input[0] >= 0x1A ==> r == Fail(Failure(InvalidPropertyID(input[0])))
  {
    var b :- U8(input);
    FromByteAccepts(b.value);
    match FromByte(b.value)
    case Some(p) => ToFromByte(b.value); Ok(p, b.rest)
    case None => Fail(Failure(InvalidPropertyID(b.value)))
  }

  /// `tag_property_id(input, id)`: a property tag that must be `id`; a valid
  /// tag other than `id` is a fatal tag mismatch.
  function TagPropertyId(input: Bytes, id: PropertyID): (r: Res<PropertyID>)
    ensures r.Ok? <==> |input| >= 1 && input[0] == ToByte(id)
    ensures r.Ok? ==> r.value == id && r.rest == input[1..]
    ensures |input| >= 1 && input[0] < 0x1A && input[0] != ToByte(id) ==> r == Fail(Failure(Nom(Tag)))
    ensures ParsePropertyId(input).Fail? ==> r == Fail(ParsePropertyId(input).fault)
  {
    var p :- ParsePropertyId(input);
    if p.value == id then Ok(p.value, p.rest) else Fail(Failure(Nom(Tag)))
  }

  /// The tag `id` followed by anything is accepted and consumed.
  lemma TagPropertyIdOk(id: PropertyID, rest: Bytes)
    ensures TagPropertyId([ToByte(id)] + rest, id) == Ok(id, rest)
  {
    assert ([ToByte(id)] + rest)[1..] == rest;
  }

  /// `bool_byte`: 0 is false, 1 is true, any other byte is a fatal
  /// `InvalidBooleanByte` carrying the byte.
  function BoolByte(input: Bytes): (r: Res<bool>)
    ensures r.Ok? <==> |input| >= 1 && input[0] <= 1
    ensures r.Ok? ==> (r.value <==> input[0] == 1) && r.rest == input[1..]
    ensures |input| == 0 ==> r == Fail(Error(Nom(Eof)))
    ensures |input| >= 1 && input[0] > 1 ==> r == Fail(Failure(InvalidBooleanByte(input[0])))
  {
    var b :- U8(input);
    if b.value == 0 then Ok(false, b.rest)
    else if b.value == 1 then Ok(true, b.rest)
    else Fail(Failure(InvalidBooleanByte(b.value)))
  }

  /// The byte that stores `b`.
  function BoolToByte(b: bool): bv8 {
    if b then 1 else 0
  }

  lemma BoolByteRoundTrip(b: bool, rest: Bytes)
    ensures BoolByte([BoolToByte(b)] + rest) == Ok(b, rest)
  {
    assert ([BoolToByte(b)] + rest)[1..] == rest;
  }

  /// Parser values for the combinators.
  function BoolByteP(): Bytes -> Res<bool> {
    x => BoolByte(x)
  }

  function TagByteP(b: bv8): Bytes -> Res<Bytes> {
    x => TagByte(b, x)
  }

  function TagPropertyIdP(id: PropertyID): Bytes -> Res<PropertyID> {
    x => TagPropertyId(x, id)
  }
}
