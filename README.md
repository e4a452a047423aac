# sevenz metadata decoder, modelled in Dafny

This project models the metadata decoder of the `sevenz` 7z reader. Each
parser takes the remaining input (`seq<bv8>`) and returns a failure or a
value together with the rest of the input. The parsers cover:

- **Signature header.** The magic bytes, the version, the stored CRC and the
  20-byte start header, checked against the CRC of those 20 bytes.
- **Header tree.** The property-tagged sections: archive properties, pack
  info, the coder/folder graph, substreams, and the files-information
  records.
- **High-level projection.** It turns a header into one stream entry per
  coder output stream, and one `File` per file.
- **Codec dispatch.** This covers the only codec, Copy.

nom's results have three shapes, and the model keeps them apart:

- a recoverable error (`Error`), which `opt`, `alt` and `many_till` catch;
- a fatal one (`Failure`);
- a `panic!`, `unwrap` or debug-build arithmetic overflow. Each of these is
  an explicit `Panic(site)`, with one `PanicSite` constructor per source
  location.

`usize` is taken to be 32 bits wide (`USIZE_MAX`), so the conversion errors
of `sevenz_uint64_as_usize` and the `try_into().unwrap()` panics are
reachable.

**How the parsers are proved.** Each parser comes with the bytes a writer
would store for a value, and with a round-trip lemma: reading those bytes
back gives the value and consumes exactly those bytes. The loops of the
source are methods:

- the packed-integer reader;
- the bit-vector reader;
- the `dummy` check;
- the archive-properties loop;
- the three nested loops of `get_file_streams_info`;
- the file loop of `from_low_level_archive`.

Each of these methods is proved equal to a function, and the properties of
that function are proved as lemmas.

**Defects modelled as written.** The source has the following defects, and
the model keeps each one as it is:

- The MTime decoder returns the ATime variant
  (`src/parser/parsers/files_info.rs:104`).
  - `Files.FilesInfoNeverMTime` proves that no files-information section
    ever holds an MTime property.
- The substreams `Size` list is read with the constant count 1
  (`src/parser/parsers/streams_info.rs:66`).
  - `Streams.SubstreamsTwoStreamsRejected` shows a folder of two streams
    being refused.
- `get_property` matches every property whatever kind is asked for
  (`src/parser/types/files_info.rs:36-39`).
- The atime and mtime lookups of `File::from_files_and_coders_info` match
  the CTime variant (`src/parser/interface/file.rs:41,56`).
  - Together with the previous defect, this means every call panics
    (`Interface.ProjectionAlwaysPanics`).
  - So `from_low_level_archive` returns only for archives without files
    (`Archives.HighLevelOnlyWithoutFiles`).
- The unpack-size index of `get_file_streams_info` advances once per folder,
  not once per stream (`src/parser/interface/streams.rs:44`).
  - `Interface.SizeIndexPerFolder` shows a two-stream coder receiving the
    first size twice.
- The packed-integer reader computes `1 << (8 - leading_ones)` for the
  first byte `0xFF`, which is `1 << 0` (`src/parser/parsers/sevenz_uint64.rs:30`).
  - The `(... ) << (leading_ones * 8)` that follows shifts a `u64` by 64,
    which overflows in a debug build.
  - The model takes the release-build reading, where the masked part is 0.
  - The value is then the eight following bytes (`SevenzUint64.VarintBound`).
- The `check` constant declared at `src/parser/crc.rs:11` is not the check
  value of the declared CRC parameters (`Crc.DeclaredCheckDiffers`).

**Where the model departs from the code as written.** In three places the
code as written cannot serve as the model, and the model chooses otherwise:

- `substreams_info` returns `SubStreamsInfo {}`, which does not fit the
  three-field struct (`src/parser/parsers/streams_info.rs:85`). The model
  fills in the three lists it has read.
- The archive-properties loop never advances. The model reads on instead.
  This is the second Findings row below.
- `take_bitvec` reads bits least significant first. The model returns them
  most significant first, as the unit tests expect. This is the first
  Findings row below.

## Model

| member | source | states |
|---|---|---|
| SevenzUint64.LeadingOnes | src/parser/parsers/sevenz_uint64.rs:9-19 | the count of leading one bits is at most 8 |
| SevenzUint64.LeadingOnesCounts | src/parser/parsers/sevenz_uint64.rs:9-19 | the first `LeadingOnes(b)` bits of `b` are one, and the next bit (if any) is zero |
| SevenzUint64.ShiftedTopBit | src/parser/parsers/sevenz_uint64.rs:12 | the source's test `((b << shift) & 0x80) > 0` reads bit `shift` from the top |
| SevenzUint64.CountLeadingOnes | src/parser/parsers/sevenz_uint64.rs:9-19 | the counting loop returns exactly `LeadingOnes(b)` |
| SevenzUint64.LowBitsBound | src/parser/parsers/sevenz_uint64.rs:30 | for k < 8 the masked first byte is below 2^(7-k), because the bit after the ones is zero; for k = 8 the masked part is 0 |
| SevenzUint64.Combine | src/parser/parsers/sevenz_uint64.rs:25-31 | the value assembled from a first byte and its k following bytes always fits a u64 |
| SevenzUint64.CombineBits | src/parser/parsers/sevenz_uint64.rs:25-31 | a (k+1)-byte value is below 2^(7k+7) for k < 8; for k = 8 it is just the eight following bytes |
| SevenzUint64.SevenzUint64Parse | src/parser/parsers/sevenz_uint64.rs:8-33 | the imperative reader (one loop over the k following bytes, then the masked first byte) returns exactly `Varint(input)` |
| SevenzUint64.VarintOfParts | src/parser/parsers/sevenz_uint64.rs:25-32 | the value and rest the loop assembles are `Varint`'s result |
| SevenzUint64.VarintConsumes | src/parser/parsers/sevenz_uint64.rs:21-29 | success iff 1 + k bytes are present; exactly 1 + k bytes are consumed; a short input fails recoverably with Eof |
| SevenzUint64.VarintValue | src/parser/parsers/sevenz_uint64.rs:25-31 | the value is the k following bytes little-endian plus the masked first byte shifted left by 8k |
| SevenzUint64.VarintBound | src/parser/parsers/sevenz_uint64.rs:30 | a (k+1)-byte encoding with k < 8 is below 2^(7k+7); with first byte 0xFF the value is the eight following bytes |
| SevenzUint64.VarintFixtureZero | src/parser/parsers/test.rs:44 | eight zero bytes read as 0 and leave seven |
| SevenzUint64.VarintFixtureMax | src/parser/parsers/test.rs:45 | eight 0x7F bytes read as 127 and leave seven |
| SevenzUint64.VarintFixtureTwo | src/parser/parsers/test.rs:46 | [0x80, 42, 0...] reads as 42 and leaves six bytes |
| SevenzUint64.VarintFixtureHigh | src/parser/parsers/test.rs:47 | [0x8F, 42, 0...] reads as 3882 and leaves six bytes |
| SevenzUint64.OneByteFixture | src/parser/parsers/sevenz_uint64.rs:24-32 | any first byte below 0x80 decodes to itself and consumes one byte |
| SevenzUint64.TwoByteFixture | src/parser/parsers/sevenz_uint64.rs:24-32 | a first byte in [0x80, 0xC0) takes one more byte as the low byte |
| SevenzUint64.EncodedLength | src/parser/parsers/sevenz_uint64.rs:8-33 | the shortest encoding length of a value: at most 8 extra bytes, and the value lies in that length's range |
| SevenzUint64.Encode | src/parser/parsers/sevenz_uint64.rs:8-33 | the writer's encoding of a u64 takes 1 to 9 bytes |
| SevenzUint64.FirstByteOfRange | src/parser/parsers/sevenz_uint64.rs:9-19 | a first byte in the range of k leading ones has exactly k of them, and its masked part is its offset in the range |
| SevenzUint64.VarintRoundTrip | src/parser/parsers/sevenz_uint64.rs:8-33 | every u64 is read back from its encoding, which is consumed exactly |
| SevenzUint64.LongRoundTrip | src/parser/parsers/sevenz_uint64.rs:25-31 | 0xFF followed by eight little-endian bytes reads back the value |
| SevenzUint64.ShortRoundTrip | src/parser/parsers/sevenz_uint64.rs:25-31 | every encoding with fewer than eight extra bytes reads back its value |
| SevenzUint64.VarintAsUsize | src/parser/parsers/sevenz_uint64.rs:35-39 | the same bytes as `sevenz_uint64`; success iff the value fits usize; otherwise `ConversionFailure(ToUsize)`; read failures pass through |
| SevenzUint64.VarintAsUsizeRoundTrip | src/parser/parsers/sevenz_uint64.rs:35-39 | every usize is read back from its encoding |
| SevenzUint64.EncodeSmall | src/parser/parsers/sevenz_uint64.rs:24-32 | a value below 128 is stored as the single byte holding it |
| PropertyIds.ToByte | src/parser/types/property_id.rs:5-31 | every tag's discriminant is below 0x1A |
| PropertyIds.FromByteAccepts | src/parser/types/property_id.rs:38-65 | exactly the bytes 0x00..0x19 are accepted; every byte from 0x1A up is rejected |
| PropertyIds.FromToByte | src/parser/types/property_id.rs:5-64 | `try_from(p as u8) == Ok(p)` for every tag |
| PropertyIds.ToFromByte | src/parser/types/property_id.rs:38-64 | an accepted byte is the discriminant of the tag it decodes to |
| PropertyIds.FromByteInjective | src/parser/types/property_id.rs:38-64 | distinct accepted bytes give distinct tags |
| PropertyIds.ToByteInjective | src/parser/types/property_id.rs:5-31 | distinct tags have distinct discriminants |
| PropertyIds.DiscriminantIsPosition | src/parser/types/property_id.rs:5-31 | the i-th declared tag has discriminant i |
| Crc.CrcUpdateAppend | src/parser/crc.rs:15-20 | feeding the input in two parts gives the same register as feeding it at once |
| Crc.Crc32Check | src/parser/crc.rs:5-13 | the reference CRC-32 (reflected, init and xorout 0xFFFFFFFF) has check value 0xCBF43926 |
| Crc.DeclaredCheckDiffers | src/parser/crc.rs:11 | the declared `check` 0xFC891918 is not the check value of the declared parameters |
| Parsers.ParseArchiveVersion | src/parser/parsers/mod.rs:31-35 | success iff two bytes are present: major then minor, two bytes consumed; else Eof |
| Parsers.StartHeaderFields | src/parser/parsers/mod.rs:37-49 | success iff 20 bytes are present: u64 offset, u64 size, u32 CRC, little-endian, exactly 20 bytes consumed |
| Parsers.SignatureHeaderAccepts | src/parser/parsers/mod.rs:51-78 | success iff the magic, 32 bytes, and a stored CRC equal to the CRC of bytes 12..32; then exactly 32 bytes are consumed and the fields are those bytes |
| Parsers.SignatureHeaderRejects | src/parser/parsers/mod.rs:51-68 | wrong magic is a recoverable Tag error, a short input a recoverable Eof, a CRC mismatch the fatal `Crc(stored, computed)` |
| Parsers.StartHeaderRoundTrip | src/parser/parsers/mod.rs:37-49 | start headers are read back from their 20 bytes |
| Parsers.SignatureRoundTrip | src/parser/parsers/mod.rs:51-78 | a written signature header is read back when its CRC is right, and otherwise fails with both CRCs |
| Parsers.ArchiveVersionFixture | src/parser/parsers/test.rs:11-19 | [0, 4] reads as version 0.4 |
| Parsers.SignatureFixture | src/parser/parsers/test.rs:21-39 | the test archive's first 32 bytes read as version 0.4, start-header CRC 9174449, offset 19, size 90, next-header CRC 970299701 |
| Parsers.FixtureStartHeaderCrc | src/parser/parsers/test.rs:21-39 | the CRC of the fixture's 20 start-header bytes is the stored 9174449 |
| Parsers.ParsePropertyId | src/parser/parsers/mod.rs:80-90 | success iff a byte below 0x1A is present, one byte consumed; empty input is Eof; any other byte is the fatal `InvalidPropertyID(b)` |
| Parsers.TagPropertyId | src/parser/parsers/mod.rs:92-101 | success iff the next byte is the expected tag's; another valid tag is a fatal Tag error; `property_id` failures pass through |
| Parsers.TagPropertyIdOk | src/parser/parsers/mod.rs:92-101 | the expected tag followed by anything is accepted and consumed |
| Parsers.BoolByte | src/parser/parsers/mod.rs:169-178 | success iff the byte is 0 or 1 (true iff 1); empty input is Eof; any other byte is the fatal `InvalidBooleanByte(b)` |
| Parsers.BoolByteRoundTrip | src/parser/parsers/mod.rs:169-178 | both booleans are read back from their byte |
| Bits.Ceil8 | src/parser/parsers/bit.rs:14-44 | the number of bytes holding n bits: 8c - 8 < n <= 8c |
| Bits.ChunkWidth | src/parser/parsers/bit.rs:26 | each chunk reads `min(left, 8)` bits: 8 except for a last partial chunk |
| Bits.TakeBitsShape | src/parser/parsers/bit.rs:14-60 | success iff ceil(n/8) bytes are present; then exactly n bits and ceil(n/8) bytes consumed; a short input panics; n = 0 returns nothing and consumes nothing |
| Bits.BitsTake | src/parser/parsers/bit.rs:23-28 | one `bits(take(w))` call consumes its whole byte and fails only on empty input |
| Bits.AlignedBit | src/parser/parsers/bit.rs:23-34 | a right-aligned chunk moved back to the top of its byte keeps every bit |
| Bits.TakeBitvec | src/parser/parsers/bit.rs:14-61 | the read loop and the pop loop return exactly `TakeBits(input, n)` (most significant bit first) |
| Bits.ReadChunks | src/parser/parsers/bit.rs:19-44 | the read loop takes ceil(n/8) chunks and ceil(n/8) bytes; `left` drops by 8 or to 0, so the unreachable-branch panic is never hit; a short input panics |
| Bits.Ceil8Excess | src/parser/parsers/bit.rs:51-55 | the chunks hold n bits plus `8 - n % 8` surplus bits when n % 8 != 0 |
| Bits.Split8 | src/parser/parsers/bit.rs:37-43 | the loop's `left` stays n minus the bits read, and is n % 8 once below 8 |
| Bits.ChunksAreInputBits | src/parser/parsers/bit.rs:45-58 | the bits kept after popping are the input's first n bits, most significant first |
| Bits.TakeBitsByBytes | src/parser/parsers/bit.rs:14-61 | `TakeBits` agrees with a byte-at-a-time reference reading |
| Bits.TakeBitsFixtures | src/parser/parsers/test.rs:61-91 | the unit test's one-byte cases: the bits returned and the nine bytes left |
| Bits.TakeBitsFixture20 | src/parser/parsers/test.rs:98-103 | 20 bits of [0x82, 0x22, 0x9F, ...] are the listed bits and leave seven bytes |
| Bits.TakeBitsFixture16 | src/parser/parsers/test.rs:92-97 | 16 bits of [0x82, 0x22, 0, ...] are the test's listed bits and leave eight bytes |
| Bits.TakeBitsFixture72 | src/parser/parsers/test.rs:104-124 | 72 bits of the nine-byte input are the test's listed bits and leave one byte |
| Bits.Fixture1 | src/parser/parsers/test.rs:61-91 | n <= 8 bits of a byte are its top n bits, and nine bytes are left |
| Bits.Pack | src/parser/parsers/bit.rs:14-61 | the writer's packing of bits, MSB first, takes ceil(n/8) bytes |
| Bits.PackBit | src/parser/parsers/bit.rs:14-61 | bit i of the packing is `bits[i]` |
| Bits.TakeBitsPack | src/parser/parsers/bit.rs:14-61 | round trip: reading back |bits| bits of a packing gives the bits and leaves what followed |
| Bits.TakeBitvecAsWrittenReversesChunks | src/parser/parsers/bit.rs:48 | as written (Lsb0 view), 0b1000_0010 read as 8 bits starts with 0 and 0b0001_0000 read as 4 bits starts with 1, against the tests' MSB-first bits |
| Coders.GetNumOutStreams | src/parser/types/coders_info.rs:19-24 | 1 for a simple coder; the declared count for a complex one when it fits usize; a panic otherwise |
| Coders.GetNumOutStreamsAgrees | src/parser/types/coders_info.rs:19-24 | `get_num_out_streams` returns the term the folder parser sums exactly when it fits usize |
| Coders.IdLen | src/parser/parsers/coders_info.rs:10-12 | the id length is the high nibble, below 16 |
| Coders.IsComplexBit | src/parser/parsers/coders_info.rs:4-6 | `is_complex` is bit 3 |
| Coders.HasAttrsBit | src/parser/parsers/coders_info.rs:7-9 | `has_attrs` is bit 2 |
| Coders.IdLenNibble | src/parser/parsers/coders_info.rs:10-12 | `id_len` is the properties byte divided by 16 |
| Coders.ParseCoderComplex | src/parser/parsers/coders_info.rs:20-32 | succeeds iff two packed integers follow; the in-stream count is the first, the out-stream count the second, and the rest is what follows them; a failure of either read is passed on unchanged |
| Coders.ComplexRoundTrip | src/parser/parsers/coders_info.rs:20-32 | when the complex bit is set, the two counts are read back from their encodings; when it is clear, nothing is read and the result is `None` |
| Coders.ParseCoder | src/parser/parsers/coders_info.rs:3-40 | empty input is Eof; the id is the IdLen bytes after the properties byte; the stream counts are present iff bit 3; the attributes iff bit 2 |
| Coders.CoderReservedBits | src/parser/parsers/coders_info.rs:14 | bits 0 and 1 are never checked: properties bytes that agree on bits 2-7 read the same |
| Coders.PropsOf | src/parser/parsers/coders_info.rs:3-40 | the writer's properties byte carries the id length, the complex bit and the attributes bit of the coder |
| Coders.CoderRoundTrip | src/parser/parsers/coders_info.rs:3-40 | every encodable coder is read back and its bytes consumed exactly |
| Coders.CoderOfParts | src/parser/parsers/coders_info.rs:16-39 | `coder` is the properties byte, the id, and the two optional fields in order |
| Coders.ParseFolder | src/parser/parsers/coders_info.rs:53-98 | a folder read has total_out - 1 bind pairs and its packed indices as the counts demand |
| Coders.FolderBindPairs | src/parser/parsers/coders_info.rs:56-69 | after the coders, exactly `total_out - 1` bind pairs are read |
| Coders.FolderPacked | src/parser/parsers/coders_info.rs:71-88 | packed indices are present iff `total_in - bind pairs >= 1`, with exactly that many entries |
| Coders.CodersRoundTrip | src/parser/parsers/coders_info.rs:42-51 | `folder_coders` reads back a counted list of coders |
| Coders.FolderRoundTrip | src/parser/parsers/coders_info.rs:53-98 | every folder of the right shape is read back and its bytes consumed exactly |
| Coders.FolderOutStreamsChecks | src/parser/parsers/coders_info.rs:56-65 | no out stream panics at `total_out - 1`; a sum above usize fails with `ToUsize`; a sum above u64 panics |
| Coders.FolderPackedStreamsChecks | src/parser/parsers/coders_info.rs:71-79 | fewer in streams than bind pairs panics at the packed-stream subtraction |
| Coders.ParseCodersInfo | src/parser/parsers/coders_info.rs:100-164 | every coders info read has the parser's shape: inline folders, `num_folders` of them, one size per out stream, one digest per folder |
| Coders.CodersInfoFolders | src/parser/parsers/coders_info.rs:114-123 | the folders (or one external index), then `CodersUnPackSize` |
| Coders.CodersInfoSizes | src/parser/parsers/coders_info.rs:126-146 | exactly the out-stream sum of all coders of all folders is read as sizes |
| Coders.CodersInfoDigests | src/parser/parsers/coders_info.rs:148-153 | digests only after a CRC tag, one `le_u32` per folder, then End |
| Coders.CodersInfoRoundTrip | src/parser/parsers/coders_info.rs:100-164 | every coders info of that shape is read back and its bytes consumed exactly |
| Coders.DigestsSomeRoundTrip | src/parser/parsers/coders_info.rs:148-151 | a CRC tag with n digests reads back the digests |
| Coders.CodersInfoExternalPanics | src/parser/parsers/coders_info.rs:126-129 | external folders are read up to `CodersUnPackSize` and then panic at `right().unwrap()` |
| Coders.CodersInfoFixture | src/parser/parsers/test.rs:149-172 | the fixture bytes read as one folder with one simple coder [33, 1], packed indices [0], size 15, no digests |
| Coders.FixtureFolderBytes | src/parser/parsers/test.rs:149-172 | the fixture folder is stored as 01 20 21 01 00 |
| Streams.ParsePackInfo | src/parser/parsers/streams_info.rs:3-39 | any other leading tag is a recoverable Tag error; sizes and CRCs, when present, have one entry per pack stream |
| Streams.PackInfoLists | src/parser/parsers/streams_info.rs:14-29 | the two gated lists keep the pack position and stream count |
| Streams.PackInfoRoundTrip | src/parser/parsers/streams_info.rs:3-39 | every pack info of that shape is read back and its bytes consumed exactly |
| Streams.PropertyGateSome | src/parser/parsers/streams_info.rs:14-21 | a list behind its tag is read as `Some` |
| Streams.PropertyGateAbsent | src/parser/parsers/streams_info.rs:14-27 | another valid tag where a gated list may start gives `None` and consumes nothing |
| Streams.PackInfoFixture | src/parser/parsers/test.rs:133-147 | the fixture reads as pack_pos 0, one pack stream, sizes [19], no CRCs |
| Streams.ParseSubStreamsInfo | src/parser/parsers/streams_info.rs:41-86 | any other leading tag is a Tag error; a success holds num_folders stream counts, exactly one size, num_unknown_crcs digests |
| Streams.SubStreamsRoundTrip | src/parser/parsers/streams_info.rs:41-86 | every substreams section of that shape is read back and its bytes consumed exactly |
| Streams.SubstreamsSizeReadsOne | src/parser/parsers/streams_info.rs:60-70 | whatever sizes follow the Size tag, only the first is read; the rest stay in the input |
| Streams.SubstreamsTwoStreamsRejected | src/parser/parsers/streams_info.rs:60-83 | a folder of two streams, written out in full, is refused because of the one-size count |
| Streams.ResolveNumFolders | src/parser/parsers/streams_info.rs:96-107 | the caller's count, else the coders section's `num_folders`, else none |
| Streams.ParseStreamsInfo | src/parser/parsers/streams_info.rs:92-124 | success only when a folder count was settled; each section present has its parser's shape |
| Streams.StreamsInfoRest | src/parser/parsers/streams_info.rs:96-124 | substreams are read with the fixed counts 1 and 2 whatever count was settled |
| Streams.StreamsInfoIgnoresGivenCount | src/parser/parsers/streams_info.rs:96-112 | any two given folder counts give the same result |
| Streams.StreamsInfoRoundTrip | src/parser/parsers/streams_info.rs:92-124 | a streams section whose folder count can be settled is read back exactly |
| Streams.StreamsInfoNeedsFolderCount | src/parser/parsers/streams_info.rs:104-106 | without coders and without a given count the result is the fatal `CouldNotDetermineNumFolders` |
| Streams.PackNone | src/parser/parsers/streams_info.rs:93 | with no PackInfo tag the pack section is `None` and nothing is consumed |
| Streams.NoSubStreams | src/parser/parsers/streams_info.rs:108-113 | with End next the substreams section is `None` |
| Utf16.Supplementary | src/parser/parsers/files_info.rs:113-114 | a surrogate pair stands for a character in [0x10000, 0x110000) |
| Utf16.DecodeSucceeds | src/parser/parsers/files_info.rs:113-117 | the conversion fails exactly on an unpaired surrogate |
| Utf16.DecodeEncode | src/parser/parsers/files_info.rs:113-117 | decoding the encoding of any string gives it back |
| Utf16.EncodeDecode | src/parser/parsers/files_info.rs:113-117 | a decoded string encodes to the units it came from |
| Utf16.EncodeNonZero | src/parser/parsers/files_info.rs:108-123 | a string has no NUL exactly when its encoding has no zero unit |
| Files.RecordStart | src/parser/parsers/files_info.rs:7-17 | a record not starting with its tag is a recoverable Tag error |
| Files.BitsRecord | src/parser/parsers/files_info.rs:7-42 | a bits record returns exactly n bits |
| Files.ParseEmptyStream | src/parser/parsers/files_info.rs:7-19 | an EmptyStream record holds one bit per file |
| Files.ParseEmptyFile | src/parser/parsers/files_info.rs:21-33 | an EmptyFile record holds one bit per empty stream (the caller's count) |
| Files.ParseAnti | src/parser/parsers/files_info.rs:35-42 | an Anti record holds one bit per empty stream (the caller's count) |
| Files.DefinedValues | src/parser/parsers/files_info.rs:44-87 | a time or attribute body has one entry per file, all external or all inline |
| Files.Time | src/parser/parsers/files_info.rs:44-87 | `time` returns one entry per file, never mixing external and inline |
| Files.ParseCTime | src/parser/parsers/files_info.rs:89-93 | a CTime record gives a CTime property of num_files entries |
| Files.ParseATime | src/parser/parsers/files_info.rs:95-99 | an ATime record gives an ATime property of num_files entries |
| Files.ParseMTime | src/parser/parsers/files_info.rs:101-105 | an MTime record gives an ATime property (as written) |
| Files.ParseNames | src/parser/parsers/files_info.rs:125-147 | a Name record gives num_files names, one external index for all or one string each |
| Files.InlineNames | src/parser/parsers/files_info.rs:142-146 | inline names are num_files strings, each in `Right` |
| Files.ParseAttrs | src/parser/parsers/files_info.rs:149-196 | an attributes record gives num_files entries in one form |
| Files.ParseDummy | src/parser/parsers/files_info.rs:202-215 | a record not starting with the Dummy tag is a Tag error |
| Files.ReadDummy | src/parser/parsers/files_info.rs:202-215 | the checking loop over the data bytes returns exactly `ParseDummy` |
| Files.Alternative | src/parser/parsers/files_info.rs:219-239 | each alternative of `property` refuses other tags recoverably |
| Files.ParseFilesInfo | src/parser/parsers/files_info.rs:241-269 | any other leading tag is a recoverable Tag error |
| Files.PropertiesUntilEnd | src/parser/parsers/files_info.rs:248-269 | the file count read is the one returned |
| Files.AltTagsDiffer | src/parser/parsers/files_info.rs:224-235 | different alternatives look for different tag bytes |
| Files.AltFromRefuses | src/parser/parsers/files_info.rs:224-235 | when no alternative recognises the tag, `alt` refuses recoverably |
| Files.Dispatch | src/parser/parsers/files_info.rs:224-235 | `property` is decided by the alternative whose tag leads the input |
| Files.PropertyDispatch | src/parser/parsers/files_info.rs:219-239 | each record tag is read by its own parser, whose result stands unless it is a recoverable error |
| Files.PropertyRejects | src/parser/parsers/files_info.rs:219-239 | a byte that is no record tag is refused recoverably |
| Files.PropertyNeverMTime | src/parser/parsers/files_info.rs:101-105 | no record ever comes back as MTime |
| Files.FilesInfoNeverMTime | src/parser/parsers/files_info.rs:241-269 | no files-information section holds an MTime property, since the MTime record at line 104 is read into ATime |
| Files.UnitsNonZero | src/parser/parsers/files_info.rs:108-112 | the code units collected are never zero: the terminator is tried first |
| Files.WcharStrResult | src/parser/parsers/files_info.rs:108-123 | the conversion succeeds iff no surrogate is unpaired, else `ConversionFailure(ToString)`; a name never holds NUL |
| Files.FirstKeptIsFirst | src/parser/types/files_info.rs:31-48 | the filter-then-take(1) result is `None` iff nothing passes, else the first element that passes |
| Files.GetPropertyIsFirst | src/parser/types/files_info.rs:31-48 | as written: `None` iff there are no properties, otherwise the first, whatever kind is asked for |
| Files.GetPropertyIgnoresKind | src/parser/types/files_info.rs:36-39 | asking for names returns the CTime property when it comes first |
| FilesEncoding.DefinedValuesRoundTrip | src/parser/parsers/files_info.rs:44-87 | a time or attribute body is read back: external, all defined, or some absent |
| FilesEncoding.RecordStartRoundTrip | src/parser/parsers/files_info.rs:7-17 | the tag and any size are read; the body remains |
| FilesEncoding.BitsRecordRoundTrip | src/parser/parsers/files_info.rs:7-42 | a bits record reads back its bits whatever size it declares |
| FilesEncoding.TimeRoundTrip | src/parser/parsers/files_info.rs:44-87 | `time` reads back the times after any size |
| FilesEncoding.CTimeRoundTrip | src/parser/parsers/files_info.rs:89-93 | a CTime record is read back |
| FilesEncoding.ATimeRoundTrip | src/parser/parsers/files_info.rs:95-99 | an ATime record is read back |
| FilesEncoding.MTimeRoundTrip | src/parser/parsers/files_info.rs:101-105 | an MTime record is read back whole, into the ATime variant |
| FilesEncoding.AttrsRoundTrip | src/parser/parsers/files_info.rs:149-196 | an attributes record is read back |
| FilesEncoding.UnitsRoundTrip | src/parser/parsers/files_info.rs:108-112 | non-zero code units then the terminator are read back |
| FilesEncoding.WcharStrRoundTrip | src/parser/parsers/files_info.rs:108-123 | every string without NUL is read back |
| FilesEncoding.StringsRoundTrip | src/parser/parsers/files_info.rs:142-146 | n strings without NUL are read back |
| FilesEncoding.NamesRoundTrip | src/parser/parsers/files_info.rs:125-147 | a names record is read back, external or inline |
| FilesEncoding.PropertyRoundTrip | src/parser/parsers/files_info.rs:219-239 | `property` reads back every record that fits its counts, MTime as ATime |
| FilesEncoding.DummyRead | src/parser/parsers/files_info.rs:202-215 | an all-zero dummy yields no property; any other is refused with `DummyNotAllZeroes` |
| FilesEncoding.PropertiesRoundTrip | src/parser/parsers/files_info.rs:248-255 | `many_till(property, End)` reads back the records and End |
| FilesEncoding.SomesItems | src/parser/parsers/files_info.rs:256-260 | dropping the dummies' `None`s gives the records as read |
| FilesEncoding.FilesInfoRoundTrip | src/parser/parsers/files_info.rs:241-269 | every files-information section whose records fit is read back, MTime as ATime |
| FilesEncoding.DummySkipped | src/parser/parsers/files_info.rs:256-260 | an all-zero dummy between records changes nothing that is read |
| Headers.ParseArchiveProperty | src/parser/parsers/header.rs:3-8 | the entry's tag is the first byte; an entry takes at least 2 bytes plus its data; `property_id` failures pass through |
| Headers.ArchivePropertyRoundTrip | src/parser/parsers/header.rs:3-8 | any id with data of any usize length is read back exactly |
| Headers.PropertyIdRoundTrip | src/parser/parsers/mod.rs:80-90 | `property_id` reads back every tag's byte |
| Headers.PropertiesFrom | src/parser/parsers/header.rs:16-25 | the entries up to the first End, which is read whole and dropped; never an End in the list |
| Headers.ParseArchiveProperties | src/parser/parsers/header.rs:10-29 | any other leading tag is a Tag error; the list returned never holds End |
| Headers.ReadArchiveProperties | src/parser/parsers/header.rs:10-29 | the advancing loop returns exactly `ParseArchiveProperties(input)` |
| Headers.ReadArchivePropertiesAsWritten | src/parser/parsers/header.rs:16-28 | as written: a first entry other than End never returns (within any number of rounds); otherwise the same result as the advancing loop, with an empty list |
| Headers.EntriesRoundTrip | src/parser/parsers/header.rs:16-25 | the entries are read back in order up to End |
| Headers.ArchivePropertiesRoundTrip | src/parser/parsers/header.rs:10-29 | an archive-properties section is read back whatever data its End carries |
| Headers.LoopCounterexample | src/parser/parsers/header.rs:16-28 | tag 02, entry 16 00, End 00 00: the loop as written never ends, the advancing loop returns one Comment entry |
| Headers.MainNumFolders | src/parser/parsers/header.rs:50-69 | main streams get the additional section's coders count iff both exist |
| Headers.ParseHeader | src/parser/parsers/header.rs:31-84 | no Header tag is a recoverable Tag error; an additional section always has coders; main streams always had a folder count |
| Headers.HeaderAdditional | src/parser/parsers/header.rs:41-48 | the additional section, read with no folder count, keeps the archive properties |
| Headers.HeaderMain | src/parser/parsers/header.rs:50-69 | the main section is read with the additional section's count |
| Headers.HeaderFiles | src/parser/parsers/header.rs:71-84 | the files section (no empty streams) then End; earlier sections unchanged |
| Headers.HeaderRoundTrip | src/parser/parsers/header.rs:31-84 | every encodable header is read back (files as `files_info` reads them) and its bytes consumed exactly |
| Headers.EncodedHeaderRejected | src/parser/parsers/header.rs:32 | an EncodedHeader (0x17) is refused at its first byte |
| Headers.MainStreamsBorrowFolders | src/parser/parsers/header.rs:50-69 | main streams without coders are only read with an additional section that has coders |
| Headers.NoPropertiesFirst | src/parser/parsers/header.rs:32-40 | a first section other than ArchiveProperties goes straight to the additional section |
| Headers.MainSectionWithoutFolders | src/parser/parsers/header.rs:50-69 | with no additional section, coder-less main streams fail with `CouldNotDetermineNumFolders` |
| Headers.MainStreamsWithoutFoldersRejected | src/parser/parsers/header.rs:31-69 | a whole header with coder-less main streams and no additional section fails with `CouldNotDetermineNumFolders` |
| Headers.AdditionalSectionWithoutFolders | src/parser/parsers/header.rs:41-48 | a coder-less additional section fails with `CouldNotDetermineNumFolders` |
| Headers.AdditionalStreamsWithoutFoldersRejected | src/parser/parsers/header.rs:31-48 | a whole header with a coder-less additional section fails with `CouldNotDetermineNumFolders` |
| Interface.Entries | src/parser/interface/streams.rs:31-42 | n entries of the coder, each with the size, offset 0 and CRC 0 |
| Interface.CodersStreams | src/parser/interface/streams.rs:30-43 | one entry per out stream of the folder's coders, each with a coder of the folder and the folder's size |
| Interface.FoldersStreams | src/parser/interface/streams.rs:29-45 | one entry per out stream of every folder; offset and CRC always 0 |
| Interface.FileStreams | src/parser/interface/streams.rs:19-47 | external folders panic |
| Interface.GetFileStreamsInfo | src/parser/interface/streams.rs:19-47 | the three nested loops return exactly `FileStreams(ci)` |
| Interface.PushFolderStreams | src/parser/interface/streams.rs:30-43 | the coders loop appends the folder's entries to what was there, or panics where `CodersStreams` panics |
| Interface.PushCoderStreams | src/parser/interface/streams.rs:31-42 | the out-stream loop appends one coder's entries, or panics where `CoderStreams` panics |
| Interface.CodersStreamsSucceed | src/parser/interface/streams.rs:30-43 | a folder's entries exist iff every coder's count fits usize and, when it has streams, its size index is in range |
| Interface.FoldersStreamsSucceed | src/parser/interface/streams.rs:28-45 | no panic iff every folder fits with its own index |
| Interface.FileStreamsSucceed | src/parser/interface/streams.rs:19-47 | `get_file_streams_info` returns iff the folders are inline and every folder fits |
| Interface.SingleFolderSingleCoder | src/parser/interface/streams.rs:55-85 | one folder, one simple coder [33, 1], sizes [15] give one entry of size 15, offset 0, CRC 0 |
| Interface.SizeIndexPerFolder | src/parser/interface/streams.rs:44 | a coder with two out streams and sizes [a, b] gets size a twice |
| Interface.TimeAt | src/parser/interface/file.rs:23-66 | no property is `None`; a property other than CTime panics at the lookup's site; a time comes out iff the CTime entry at the index is `Right(t)`, and it is t |
| Interface.NameAt | src/parser/interface/file.rs:68-78 | no property is `None`; non-Names panics; a name comes out iff the entry is `Right(n)`, and it is n |
| Interface.FromFilesAndCodersInfo | src/parser/interface/file.rs:22-90 | a file that comes out has stream entry `index` of `get_file_streams_info` |
| Interface.ATimeNeverRead | src/parser/interface/file.rs:39-51 | an ATime property always hits the "unexpected variant" panic |
| Interface.ProjectionAlwaysPanics | src/parser/interface/file.rs:22-90 | every call panics: no properties at `name.unwrap()`, a non-CTime first property at the ctime lookup, a readable CTime first property at the names lookup |
| Interface.SubsliceRaw | src/parser/interface/file.rs:95-100 | returns iff offset + 20 + size fits usize and the buffer; then exactly `size` bytes, byte k being `data[offset + 20 + k]` |
| Interface.SubsliceRawPanics | src/parser/interface/file.rs:96-99 | an offset above usize panics at its conversion, an offset overflowing with 20 at the addition, a slice past the buffer at the slice |
| Archives.FileAt | src/parser/interface/archive.rs:19-23 | missing main streams or coders info panic at their unwraps; otherwise the file from `from_files_and_coders_info` |
| Archives.FilesUpTo | src/parser/interface/archive.rs:18-24 | n rounds push n files, file k being round k's |
| Archives.HighLevel | src/parser/interface/archive.rs:12-28 | a packed header panics; a missing files info panics; otherwise exactly `num_files` files |
| Archives.FromLowLevelArchive | src/parser/interface/archive.rs:12-28 | the loop returns exactly `HighLevel(ar)` |
| Archives.FilesUpToSticks | src/parser/interface/archive.rs:18-24 | once a round panics, every longer run ends in that panic |
| Archives.FirstRoundDecides | src/parser/interface/archive.rs:18-24 | with files, a panic in the first round is the outcome |
| Archives.HighLevelOnlyWithoutFiles | src/parser/interface/archive.rs:12-28 | an archive comes out iff the header is inline, has files info and no files; it is then empty; with files the first round's panic is the outcome |
| Codec.CodecId | src/codec/mod.rs:37-39 | Copy's id is one byte |
| Codec.TryFrom | src/codec/mod.rs:36-42 | accepted iff the id is exactly [0]; every other id is rejected with `InvalidCodecID` carrying it unchanged |
| Codec.TryFromCodecId | src/codec/mod.rs:36-42 | every codec is accepted from its own id |
| Codec.TryFromOnlyIds | src/codec/mod.rs:36-42 | an accepted id is the id of the codec it gives |
| Codec.CopyDecode | src/codec/copy.rs:18-20 | the output has the input's length and bytes |
| Decode.DecodeFile | src/read/decode.rs:12-24 | a complex coder panics first; success iff the coder is simple with id [0], and the output is the input; otherwise `InvalidCodecID(id)` |
| Decode.DecodeFileReadsCoderOnly | src/read/decode.rs:12-24 | only the coder's complex part and id are consulted |
| Decode.CopyStreamRoundTrip | src/read/decode.rs:17-22 | a simple Copy stream decodes to the bytes it was given |

## Left out

- CRC-32 is a bitwise reference definition (reflected polynomial 0xEDB88320, initial register and final xor 0xFFFFFFFF), not the `crc` crate's table-driven code.
- The `std::println!` calls of `take_bitvec` are output only and are left out.
- nom's error positions and context stack are dropped; a fault keeps only its kind (recoverable, fatal, or panic site).
- `sevenz_uint64` with first byte 0xFF: the `<< 64` is taken with release-build semantics (mask 0). A debug build would panic at that shift instead.
- `SubStreamsInfo {}`: the three fields are filled with the lists read. The unknown digests are read as packed integers, as the source reads them, so they are kept as `U64`.
- Allocation failure, and lengths beyond what a slice can hold, are not modelled.
- `usize` is fixed at 32 bits; on a 64-bit target the `ToUsize` conversion errors and the `try_into().unwrap()` panics are not reachable.
- The substreams section has no unit test whose bytes can be reconstructed (its CRC value is not stated), so it has no byte-level fixture.
- UTF-16 decoding follows section 2.2 of RFC 2781 (surrogate pairs), not the `widestring` crate's code.
- `src/parser/interface/mod.rs` `parse` is left out: it calls `parsers::archive`, which exists only as commented-out code.
- The superseded parser drafts (`src/parser/parsers.rs`, `src/parser/combinators.rs`, and the older copies in `src/parser/parsers/mod.rs`) are not part of this model.
- `src/read/mod.rs`, `src/read/simplistic.rs`, `src/read/iter.rs` and `src/read/err.rs` (the extraction layer over `parse`) are not part of this model.
- `preceded_opt`, `either`, `many_cond_opt` and `wrap_some` are called (`src/parser/parsers/streams_info.rs:16-27`, `src/parser/parsers/coders_info.rs:114-118`, `src/parser/parsers/files_info.rs:78`, `src/parser/parsers/files_info.rs:227-234`) but defined nowhere in the repository. Their meaning in `Nom.PrecededOpt`, `Nom.EitherOf`, `Nom.ManyCondOpt` and `Nom.WrapSome` is inferred from the call sites and from the `pack_info` unit test (`src/parser/parsers/test.rs:133-147`, which expects `crcs: None`). In particular, `Nom.PrecededOpt` turns a fatal `Failure` of its gate (the `tag_property_id` mismatch of `src/parser/parsers/mod.rs:92-101`) into `None` with nothing consumed. A nom-style `opt(preceded(..))` would pass that failure on, and then `pack_info` without a size or CRC list would fail. `Streams.PackInfoFixture` and `Streams.PropertyGateAbsent` rest on this reading.
- The `Codec` trait is represented by the Copy codec's own decode function, since Copy is its only implementation.

## Findings

| source | as written | input that shows it | evidently intended | confidence | as-written member | corrected member |
|---|---|---|---|---|---|---|
| src/parser/parsers/bit.rs:48 | each right-aligned chunk is viewed least significant bit first | byte 0x82 read as 8 bits starts 0, 1 (its low bit first) | bits most significant first, as the unit tests at src/parser/parsers/test.rs:80-85 expect (1,0,0,0,0,0,1,0) | not executed | Bits.TakeBitvecAsWrittenReversesChunks | Bits.TakeBitvec |
| src/parser/parsers/header.rs:16-28 | the loop binds `input` inside its body only, so every round re-reads the first entry | 02 16 00 00 00 (tag, one Comment entry without data, End) loops forever | each round reads on from where the previous entry ended, and End ends the list | not executed | Headers.ReadArchivePropertiesAsWritten | Headers.ReadArchiveProperties |
