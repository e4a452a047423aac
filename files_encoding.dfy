/// The writer's side of the files-information section, and the round trip
/// that ties it to the parsers in `Files`: every record the format can
/// express is read back, except that an MTime record comes back as ATime.
module FilesEncoding {
  import opened Base
  import opened Err
  import opened Nom
  import opened SevenzUint64
  import opened PropertyIds
  import opened Parsers
  import opened Bits
  import opened Files
  import Utf16

  /// A record: its tag, its size and its body. The parsers read the size
  /// and ignore it, so the round trips below hold for every size.
  function Record(id: PropertyID, size: U64, body: Bytes): Bytes {
    [ToByte(id)] + Encode(size) + body
  }

  /// The size a writer stores: the body length (modulo 2^64).
  function SizeOf(body: Bytes): U64 {
    |body| % 0x1_0000_0000_0000_0000
  }

  /// The first entry is an external index.
  predicate IsExternal<V>(xs: seq<Option<Either<U64, V>>>) {
    |xs| > 0 && xs[0].Some? && xs[0].value.Left?
  }

  predicate AllDefined<V>(xs: seq<Option<Either<U64, V>>>) {
    forall i :: 0 <= i < |xs| ==> xs[i].Some?
  }

  /// The inline values, `None` where there is none.
  function Values<V>(xs: seq<Option<Either<U64, V>>>): (vs: seq<Option<V>>)
    ensures |vs| == |xs|
  {
    seq(|xs|, i requires 0 <= i < |xs| => if xs[i].Some? && xs[i].value.Right? then Some(xs[i].value.right) else None)
  }

  /// The body of a time or attribute record after its size: one external
  /// index when the entries are external; otherwise the `all_defined`
  /// flag, the definedness bits when some entry is absent, a clear
  /// `external` flag and the present values.
  function DefinedValuesBytes<V>(enc: V -> Bytes, xs: seq<Option<Either<U64, V>>>): Bytes {
    if IsExternal(xs) then [BoolToByte(true), BoolToByte(true)] + LeU64Bytes(xs[0].value.left)
    else if AllDefined(xs) then [BoolToByte(true), BoolToByte(false)] + ConcatSome(enc, Values(xs))
    else [BoolToByte(false)] + Pack(Present(Values(xs))) + [BoolToByte(false)] + ConcatSome(enc, Values(xs))
  }

  /// The bytes of a wide string: its code units, then the zero unit.
  function WcharBytes(s: string): Bytes {
    Concat(U16Enc(), Utf16.Encode(s)) + [0, 0]
  }

  function WcharEnc(): string -> Bytes {
    (s: string) => WcharBytes(s)
  }

  /// The inline names, the empty string where there is none.
  function Strings(names: seq<FileName>): (ss: seq<string>)
    ensures |ss| == |names|
  {
    seq(|names|, i requires 0 <= i < |names| => if names[i].Right? then names[i].right else [])
  }

  /// The body of a names record after its size.
  function NamesBody(names: seq<FileName>): Bytes {
    if |names| > 0 && names[0].Left? then [BoolToByte(true)] + LeU64Bytes(names[0].left)
    else [BoolToByte(false)] + Concat(WcharEnc(), Strings(names))
  }

  predicate NoNul(s: string) {
    forall i :: 0 <= i < |s| ==> s[i] != '\0'
  }

  function PropertyTag(p: FilesProperty): PropertyID {
    match p
    case EmptyStream(_) => PropertyID.EmptyStream
    case EmptyFile(_) => PropertyID.EmptyFile
    case Anti(_) => PropertyID.Anti
    case CTime(_) => PropertyID.CTime
    case ATime(_) => PropertyID.ATime
    case MTime(_) => PropertyID.MTime
    case Names(_) => PropertyID.Name
    case Attributes(_) => PropertyID.WinAttributes
  }

  function PropertyBody(p: FilesProperty): Bytes {
    match p
    case EmptyStream(bits) => Pack(bits)
    case EmptyFile(bits) => Pack(bits)
    case Anti(bits) => Pack(bits)
    case CTime(times) => DefinedValuesBytes(U64Enc(), times)
    case ATime(times) => DefinedValuesBytes(U64Enc(), times)
    case MTime(times) => DefinedValuesBytes(U64Enc(), times)
    case Names(names) => NamesBody(names)
    case Attributes(attrs) => DefinedValuesBytes(U32Enc(), attrs)
  }

  function EncodeProperty(p: FilesProperty): Bytes {
    Record(PropertyTag(p), SizeOf(PropertyBody(p)), PropertyBody(p))
  }

  function PropertyEnc(): FilesProperty -> Bytes {
    p => EncodeProperty(p)
  }

  /// The bytes of a files-information section.
  function EncodeFilesInfo(info: FilesInfo): Bytes {
    [ToByte(PropertyID.FilesInfo)] + Encode(info.numFiles) + Concat(PropertyEnc(), info.properties) + [ToByte(End)]
  }

  /// What a record can hold so that it is read back: the entry count the
  /// parser is told (the file count, or the empty-stream count for
  /// EmptyFile and Anti), one form of entry per record, no NUL in a name.
  predicate Fits(p: FilesProperty, numFiles: Usize, numEmptyStreams: Usize) {
    match p
    case EmptyStream(bits) => |bits| == numFiles
    case EmptyFile(bits) => |bits| == numEmptyStreams
    case Anti(bits) => |bits| == numEmptyStreams
    case CTime(times) => |times| == numFiles && OneForm(times)
    case ATime(times) => |times| == numFiles && OneForm(times)
    case MTime(times) => |times| == numFiles && OneForm(times)
    case Names(names) =>
      |names| == numFiles && NamesOneForm(names) &&
      forall i :: 0 <= i < |names| && names[i].Right? ==> NoNul(names[i].right)
    case Attributes(attrs) => |attrs| == numFiles && OneForm(attrs)
  }

  predicate FilesInfoFits(info: FilesInfo, numEmptyStreams: Usize) {
    forall i :: 0 <= i < |info.properties| ==> Fits(info.properties[i], info.numFiles, numEmptyStreams)
  }

  /// A record as the parser returns it: MTime comes back as ATime.
  function AsRead(p: FilesProperty): FilesProperty {
    if p.MTime? then FilesProperty.ATime(p.times) else p
  }

  function AllAsRead(ps: seq<FilesProperty>): (qs: seq<FilesProperty>)
    ensures |qs| == |ps|
  {
    seq(|ps|, i requires 0 <= i < |ps| => AsRead(ps[i]))
  }

  /// A dummy record: its data length, then the data, which a writer sets
  /// to zero.
  function DummyRecord(data: Bytes): Bytes
    requires |data| <= USIZE_MAX
  {
    [ToByte(PropertyID.Dummy)] + Encode(|data|) + data
  }

  /// What `many_till(property, ..)` collects from the records of `ps`.
  function Items(ps: seq<FilesProperty>): (items: seq<Option<FilesProperty>>)
    ensures |items| == |ps|
  {
    seq(|ps|, i requires 0 <= i < |ps| => Some(AsRead(ps[i])))
  }

  /// `le_u64` and `le_u32` read back what their writers write.
  lemma LeU64Reads()
    ensures forall v: U64, r: Bytes :: LeU64P()(U64Enc()(v) + r) == Ok(v, r)
  {
    forall v: U64, r: Bytes ensures LeU64P()(U64Enc()(v) + r) == Ok(v, r) {
      LeU64RoundTrip(v, r);
    }
  }

  lemma LeU32Reads()
    ensures forall v: U32, r: Bytes :: LeU32P()(U32Enc()(v) + r) == Ok(v, r)
  {
    forall v: U32, r: Bytes ensures LeU32P()(U32Enc()(v) + r) == Ok(v, r) {
      LeU32RoundTrip(v, r);
    }
  }

  /// Inline entries are their values put back in `Right`.
  lemma InlineValues<V>(xs: seq<Option<Either<U64, V>>>)
    requires forall i :: 0 <= i < |xs| ==> xs[i].None? || xs[i].value.Right?
    ensures Inline(Values(xs)) == xs
  {
  }

  /// Entries that are not external are all inline.
  lemma InlineForm<V>(xs: seq<Option<Either<U64, V>>>)
    requires OneForm(xs) && !IsExternal(xs)
    ensures forall i :: 0 <= i < |xs| ==> xs[i].None? || xs[i].value.Right?
  {
    if |xs| > 0 {
      assert xs[0].None? || xs[0].value.Right?;
    }
  }

  /// The three layouts of a time or attribute body, field by field.
  lemma DefinedValuesLayout<V>(enc: V -> Bytes, xs: seq<Option<Either<U64, V>>>, rest: Bytes)
    ensures IsExternal(xs) ==>
      DefinedValuesBytes(enc, xs) + rest ==
      [BoolToByte(true)] + ([BoolToByte(true)] + (LeU64Bytes(xs[0].value.left) + rest))
    ensures !IsExternal(xs) && AllDefined(xs) ==>
      DefinedValuesBytes(enc, xs) + rest ==
      [BoolToByte(true)] + ([BoolToByte(false)] + (ConcatSome(enc, Values(xs)) + rest))
    ensures !IsExternal(xs) && !AllDefined(xs) ==>
      DefinedValuesBytes(enc, xs) + rest ==
      [BoolToByte(false)] + (Pack(Present(Values(xs))) + ([BoolToByte(false)] + (ConcatSome(enc, Values(xs)) + rest)))
  {
    var t, f := BoolToByte(true), BoolToByte(false);
    var values := ConcatSome(enc, Values(xs));
    if IsExternal(xs) {
      Assoc3([t], [t], LeU64Bytes(xs[0].value.left) + rest);
    } else if AllDefined(xs) {
      Assoc3([t], [f], values + rest);
    } else {
      Assoc5([f], Pack(Present(Values(xs))), [f], values, rest);
    }
  }

  /// The round trip of a time or attribute body: external, all defined,
  /// or some absent.
  lemma DefinedValuesRoundTrip<V>(p: Bytes -> Res<V>, enc: V -> Bytes, xs: seq<Option<Either<U64, V>>>, rest: Bytes)
    requires |xs| <= USIZE_MAX && OneForm(xs)
    requires forall v, r :: p(enc(v) + r) == Ok(v, r)
    ensures DefinedValues(p, |xs|, DefinedValuesBytes(enc, xs) + rest) == Ok(xs, rest)
  {
    DefinedValuesLayout(enc, xs, rest);
    if IsExternal(xs) {
      ExternalStage(p, xs, rest);
    } else if AllDefined(xs) {
      AllDefinedStage(p, enc, xs, rest);
    } else {
      SomeAbsentStage(p, enc, xs, rest);
    }
  }

  lemma ExternalStage<V>(p: Bytes -> Res<V>, xs: seq<Option<Either<U64, V>>>, rest: Bytes)
    requires |xs| <= USIZE_MAX && OneForm(xs) && IsExternal(xs)
    ensures DefinedValues(p, |xs|, [BoolToByte(true)] + ([BoolToByte(true)] + (LeU64Bytes(xs[0].value.left) + rest))) ==
      Ok(xs, rest)
  {
    var i := xs[0].value.left;
    var index := LeU64Bytes(i);
    BoolByteRoundTrip(true, [BoolToByte(true)] + (index + rest));
    BoolByteRoundTrip(true, index + rest);
    LeU64RoundTrip(i, rest);
    assert !(forall k :: 0 <= k < |xs| ==> xs[k].None? || xs[k].value.Right?) by {
      assert xs[0].Some? && xs[0].value.Left?;
    }
    var all: seq<Option<Either<U64, V>>> := seq(|xs|, _ => Some(Left(i)));
    assert all == xs;
  }

  lemma AllDefinedStage<V>(p: Bytes -> Res<V>, enc: V -> Bytes, xs: seq<Option<Either<U64, V>>>, rest: Bytes)
    requires |xs| <= USIZE_MAX && OneForm(xs) && !IsExternal(xs) && AllDefined(xs)
    requires forall v, r :: p(enc(v) + r) == Ok(v, r)
    ensures DefinedValues(p, |xs|, [BoolToByte(true)] + ([BoolToByte(false)] + (ConcatSome(enc, Values(xs)) + rest))) ==
      Ok(xs, rest)
  {
    BoolByteRoundTrip(true, [BoolToByte(false)] + (ConcatSome(enc, Values(xs)) + rest));
    InlineForm(xs);
    assert Present(Values(xs)) == seq(|xs|, _ => true);
    InlineStage(p, enc, xs, rest);
  }

  lemma SomeAbsentStage<V>(p: Bytes -> Res<V>, enc: V -> Bytes, xs: seq<Option<Either<U64, V>>>, rest: Bytes)
    requires |xs| <= USIZE_MAX && OneForm(xs) && !IsExternal(xs) && !AllDefined(xs)
    requires forall v, r :: p(enc(v) + r) == Ok(v, r)
    ensures DefinedValues(p, |xs|, [BoolToByte(false)] + (Pack(Present(Values(xs))) + ([BoolToByte(false)] + (ConcatSome(enc, Values(xs)) + rest)))) ==
      Ok(xs, rest)
  {
    var bits := Present(Values(xs));
    var after := [BoolToByte(false)] + (ConcatSome(enc, Values(xs)) + rest);
    BoolByteRoundTrip(false, Pack(bits) + after);
    TakeBitsPack(bits, after);
    InlineForm(xs);
    InlineStage(p, enc, xs, rest);
  }

  /// The inline part: a clear `external` flag, then the present values.
  lemma InlineStage<V>(p: Bytes -> Res<V>, enc: V -> Bytes, xs: seq<Option<Either<U64, V>>>, rest: Bytes)
    requires |xs| <= USIZE_MAX
    requires forall i :: 0 <= i < |xs| ==> xs[i].None? || xs[i].value.Right?
    requires forall v, r :: p(enc(v) + r) == Ok(v, r)
    ensures ExternalOrInline(p, |xs|, Present(Values(xs)), [BoolToByte(false)] + (ConcatSome(enc, Values(xs)) + rest)) == Ok(xs, rest)
  {
    BoolByteRoundTrip(false, ConcatSome(enc, Values(xs)) + rest);
    ManyCondOptRoundTrip(p, enc, Values(xs), rest);
    InlineValues(xs);
  }

  /// A record, field by field.
  lemma RecordLayout(id: PropertyID, size: U64, body: Bytes, rest: Bytes)
    ensures Record(id, size, body) + rest == [ToByte(id)] + (Encode(size) + (body + rest))
  {
    Assoc4([ToByte(id)], Encode(size), body, rest);
  }

  /// The start of a record: the tag and the size are read, the body and
  /// what follows it remain.
  lemma RecordStartRoundTrip(id: PropertyID, size: U64, body: Bytes, rest: Bytes)
    ensures RecordStart(id, Record(id, size, body) + rest) == Ok(size, body + rest)
  {
    RecordLayout(id, size, body, rest);
    TagByteOk(ToByte(id), Encode(size) + (body + rest));
    VarintRoundTrip(size, body + rest);
  }

  /// `empty_stream`, `empty_file` and `anti` read back the bits.
  lemma BitsRecordRoundTrip(id: PropertyID, size: U64, bits: seq<bool>, rest: Bytes)
    requires |bits| <= USIZE_MAX
    ensures BitsRecord(id, |bits|, Record(id, size, Pack(bits)) + rest) == Ok(bits, rest)
  {
    RecordStartRoundTrip(id, size, Pack(bits), rest);
    TakeBitsPack(bits, rest);
  }

  /// `time` reads back the times after any size.
  lemma TimeRoundTrip(size: U64, xs: seq<Option<FileTime>>, rest: Bytes)
    requires |xs| <= USIZE_MAX && OneForm(xs)
    ensures Time(Encode(size) + (DefinedValuesBytes(U64Enc(), xs) + rest), |xs|) == Ok(xs, rest)
  {
    VarintRoundTrip(size, DefinedValuesBytes(U64Enc(), xs) + rest);
    LeU64Reads();
    DefinedValuesRoundTrip(LeU64P(), U64Enc(), xs, rest);
  }

  lemma CTimeRoundTrip(size: U64, xs: seq<Option<FileTime>>, rest: Bytes)
    requires |xs| <= USIZE_MAX && OneForm(xs)
    ensures ParseCTime(Record(PropertyID.CTime, size, DefinedValuesBytes(U64Enc(), xs)) + rest, |xs|) ==
      Ok(FilesProperty.CTime(xs), rest)
  {
    var body := DefinedValuesBytes(U64Enc(), xs);
    RecordLayout(PropertyID.CTime, size, body, rest);
    TagByteOk(ToByte(PropertyID.CTime), Encode(size) + (body + rest));
    TimeRoundTrip(size, xs, rest);
  }

  lemma ATimeRoundTrip(size: U64, xs: seq<Option<FileTime>>, rest: Bytes)
    requires |xs| <= USIZE_MAX && OneForm(xs)
    ensures ParseATime(Record(PropertyID.ATime, size, DefinedValuesBytes(U64Enc(), xs)) + rest, |xs|) ==
      Ok(FilesProperty.ATime(xs), rest)
  {
    var body := DefinedValuesBytes(U64Enc(), xs);
    RecordLayout(PropertyID.ATime, size, body, rest);
    TagByteOk(ToByte(PropertyID.ATime), Encode(size) + (body + rest));
    TimeRoundTrip(size, xs, rest);
  }

  /// An MTime record is read back whole, into the ATime variant.
  lemma MTimeRoundTrip(size: U64, xs: seq<Option<FileTime>>, rest: Bytes)
    requires |xs| <= USIZE_MAX && OneForm(xs)
    ensures ParseMTime(Record(PropertyID.MTime, size, DefinedValuesBytes(U64Enc(), xs)) + rest, |xs|) ==
      Ok(FilesProperty.ATime(xs), rest)
  {
    var body := DefinedValuesBytes(U64Enc(), xs);
    RecordLayout(PropertyID.MTime, size, body, rest);
    TagByteOk(ToByte(PropertyID.MTime), Encode(size) + (body + rest));
    TimeRoundTrip(size, xs, rest);
  }

  /// `attrs` reads back the attributes after any size.
  lemma AttrsRoundTrip(size: U64, xs: seq<Option<FileAttr>>, rest: Bytes)
    requires |xs| <= USIZE_MAX && OneForm(xs)
    ensures ParseAttrs(Record(PropertyID.WinAttributes, size, DefinedValuesBytes(U32Enc(), xs)) + rest, |xs|) ==
      Ok(FilesProperty.Attributes(xs), rest)
  {
    RecordStartRoundTrip(PropertyID.WinAttributes, size, DefinedValuesBytes(U32Enc(), xs), rest);
    LeU32Reads();
    DefinedValuesRoundTrip(LeU32P(), U32Enc(), xs, rest);
  }

  /// Two zero bytes read as the zero code unit, so a non-zero unit is
  /// never taken for the terminator.
  lemma NonZeroUnit(u: U16, r: Bytes)
    requires u != 0
    ensures TagSeq([0, 0], LeU16Bytes(u) + r).Fail?
    ensures LeU16(LeU16Bytes(u) + r) == Ok(u, r)
  {
    LeU16RoundTrip(u, r);
    LeU16RoundTrip(0, r);
    assert LeU16Bytes(0) == [0, 0];
    assert (LeU16Bytes(u) + r)[..2] == LeU16Bytes(u);
  }

  /// `many_till(le_u16, tag([0, 0]))` reads back non-zero code units and
  /// the terminator.
  lemma {:induction false} UnitsRoundTrip(units: seq<U16>, rest: Bytes)
    requires forall i :: 0 <= i < |units| ==> units[i] != 0
    ensures ManyUntil(LeU16P(), NulP(), Concat(U16Enc(), units) + ([0, 0] + rest)) == Ok((units, [0, 0]), rest)
    decreases |units|
  {
    var input := Concat(U16Enc(), units) + ([0, 0] + rest);
    if |units| == 0 {
      assert input == [0, 0] + rest;
      assert input[..2] == [0, 0] && input[2..] == rest;
      ManyUntilEnd(LeU16P(), NulP(), input);
    } else {
      var tail := Concat(U16Enc(), units[1..]) + ([0, 0] + rest);
      Assoc3(LeU16Bytes(units[0]), Concat(U16Enc(), units[1..]), [0, 0] + rest);
      NonZeroUnit(units[0], tail);
      ManyUntilStep(LeU16P(), NulP(), input, units[0], tail);
      UnitsRoundTrip(units[1..], rest);
      assert [units[0]] + units[1..] == units;
    }
  }

  /// `wchar_str` reads back every string without NUL.
  lemma WcharStrRoundTrip(s: string, rest: Bytes)
    requires NoNul(s)
    ensures WcharStr(WcharBytes(s) + rest) == Ok(s, rest)
  {
    var units := Utf16.Encode(s);
    assert forall i :: 0 <= i < |s| ==> s[i] != '\0';
    Utf16.EncodeNonZero(s);
    assert forall i :: 0 <= i < |units| ==> units[i] != 0;
    Assoc3(Concat(U16Enc(), units), [0, 0], rest);
    UnitsRoundTrip(units, rest);
    Utf16.DecodeEncode(s);
  }

  /// `count(wchar_str, n)` reads back `n` strings without NUL.
  lemma StringsRoundTrip(ss: seq<string>, rest: Bytes)
    requires forall k :: 0 <= k < |ss| ==> NoNul(ss[k])
    ensures Count(WcharStrP(), |ss|, Concat(WcharEnc(), ss) + rest) == Ok(ss, rest)
  {
    forall k, r | 0 <= k < |ss| ensures WcharStrP()(WcharEnc()(ss[k]) + r) == Ok(ss[k], r) {
      WcharStrRoundTrip(ss[k], r);
    }
    CountRoundTrip(WcharStrP(), WcharEnc(), ss, rest);
  }

  /// `names` reads back one external index for every file, or the names.
  lemma NamesRoundTrip(size: U64, names: seq<FileName>, rest: Bytes)
    requires |names| <= USIZE_MAX && NamesOneForm(names)
    requires forall i :: 0 <= i < |names| && names[i].Right? ==> NoNul(names[i].right)
    ensures ParseNames(Record(PropertyID.Name, size, NamesBody(names)) + rest, |names|) ==
      Ok(FilesProperty.Names(names), rest)
  {
    RecordStartRoundTrip(PropertyID.Name, size, NamesBody(names), rest);
    if |names| > 0 && names[0].Left? {
      ExternalNamesRoundTrip(names, rest);
    } else {
      InlineNamesRoundTrip(names, rest);
    }
  }

  lemma ExternalNamesRoundTrip(names: seq<FileName>, rest: Bytes)
    requires |names| <= USIZE_MAX && NamesOneForm(names) && |names| > 0 && names[0].Left?
    ensures NamesValues(NamesBody(names) + rest, |names|) == Ok(names, rest)
  {
    var i := names[0].left;
    Assoc3([BoolToByte(true)], LeU64Bytes(i), rest);
    BoolByteRoundTrip(true, LeU64Bytes(i) + rest);
    LeU64RoundTrip(i, rest);
    assert !(forall k :: 0 <= k < |names| ==> names[k].Right?) by {
      assert names[0].Left?;
    }
    var all: seq<FileName> := seq(|names|, _ => Left(i));
    assert all == names;
  }

  lemma InlineNamesRoundTrip(names: seq<FileName>, rest: Bytes)
    requires |names| <= USIZE_MAX && NamesOneForm(names) && !(|names| > 0 && names[0].Left?)
    requires forall i :: 0 <= i < |names| && names[i].Right? ==> NoNul(names[i].right)
    ensures NamesValues(NamesBody(names) + rest, |names|) == Ok(names, rest)
  {
    var body := Concat(WcharEnc(), Strings(names));
    assert NamesBody(names) == [BoolToByte(false)] + body;
    Assoc3([BoolToByte(false)], body, rest);
    BoolByteRoundTrip(false, body + rest);
    InlineNamesStage(names, rest);
  }

  /// The strings of inline names are read back and put in `Right` again.
  lemma InlineNamesStage(names: seq<FileName>, rest: Bytes)
    requires |names| <= USIZE_MAX && NamesOneForm(names) && !(|names| > 0 && names[0].Left?)
    requires forall i :: 0 <= i < |names| && names[i].Right? ==> NoNul(names[i].right)
    ensures InlineNames(Concat(WcharEnc(), Strings(names)) + rest, |names|) == Ok(names, rest)
  {
    var ss := Strings(names);
    assert forall k :: 0 <= k < |names| ==> names[k].Right? by {
      if |names| > 0 {
        assert names[0].Right?;
      }
    }
    StringsRoundTrip(ss, rest);
    var r := InlineNames(Concat(WcharEnc(), ss) + rest, |names|);
    assert r.Ok? && r.rest == rest;
    forall k | 0 <= k < |ss| ensures r.value[k] == names[k] {
      assert names[k].Right?;
    }
    assert r.value == names;
  }

  /// `property` reads back every record that fits the counts it is given.
  lemma PropertyRoundTrip(p: FilesProperty, nf: Usize, ne: Usize, rest: Bytes)
    requires Fits(p, nf, ne)
    ensures Property(EncodeProperty(p) + rest, nf, ne) == Ok(Some(AsRead(p)), rest)
  {
    if p.EmptyStream? || p.EmptyFile? || p.Anti? {
      BitsPropertyRoundTrip(p, nf, ne, rest);
    } else if p.CTime? || p.ATime? || p.MTime? {
      TimePropertyRoundTrip(p, nf, ne, rest);
    } else {
      OtherPropertyRoundTrip(p, nf, ne, rest);
    }
  }

  lemma BitsPropertyRoundTrip(p: FilesProperty, nf: Usize, ne: Usize, rest: Bytes)
    requires Fits(p, nf, ne) && (p.EmptyStream? || p.EmptyFile? || p.Anti?)
    ensures Property(EncodeProperty(p) + rest, nf, ne) == Ok(Some(AsRead(p)), rest)
  {
    var size := SizeOf(Pack(p.bits));
    match p
    case EmptyStream(bits) =>
      BitsRecordRoundTrip(PropertyID.EmptyStream, size, bits, rest);
      Dispatched(0, Record(PropertyID.EmptyStream, size, Pack(bits)) + rest, nf, ne, p, rest);
    case EmptyFile(bits) =>
      BitsRecordRoundTrip(PropertyID.EmptyFile, size, bits, rest);
      Dispatched(1, Record(PropertyID.EmptyFile, size, Pack(bits)) + rest, nf, ne, p, rest);
    case Anti(bits) =>
      BitsRecordRoundTrip(PropertyID.Anti, size, bits, rest);
      Dispatched(2, Record(PropertyID.Anti, size, Pack(bits)) + rest, nf, ne, p, rest);
  }

  lemma TimePropertyRoundTrip(p: FilesProperty, nf: Usize, ne: Usize, rest: Bytes)
    requires Fits(p, nf, ne) && (p.CTime? || p.ATime? || p.MTime?)
    ensures Property(EncodeProperty(p) + rest, nf, ne) == Ok(Some(AsRead(p)), rest)
  {
    var body := DefinedValuesBytes(U64Enc(), p.times);
    var size := SizeOf(body);
    match p
    case CTime(times) =>
      CTimeRoundTrip(size, times, rest);
      Dispatched(3, Record(PropertyID.CTime, size, body) + rest, nf, ne, p, rest);
    case ATime(times) =>
      ATimeRoundTrip(size, times, rest);
      Dispatched(4, Record(PropertyID.ATime, size, body) + rest, nf, ne, p, rest);
    case MTime(times) =>
      MTimeRoundTrip(size, times, rest);
      Dispatched(5, Record(PropertyID.MTime, size, body) + rest, nf, ne, AsRead(p), rest);
  }

  lemma OtherPropertyRoundTrip(p: FilesProperty, nf: Usize, ne: Usize, rest: Bytes)
    requires Fits(p, nf, ne) && (p.Names? || p.Attributes?)
    ensures Property(EncodeProperty(p) + rest, nf, ne) == Ok(Some(AsRead(p)), rest)
  {
    var body := PropertyBody(p);
    var size := SizeOf(body);
    match p
    case Names(names) =>
      NamesRoundTrip(size, names, rest);
      Dispatched(6, Record(PropertyID.Name, size, body) + rest, nf, ne, p, rest);
    case Attributes(attrs) =>
      AttrsRoundTrip(size, attrs, rest);
      Dispatched(7, Record(PropertyID.WinAttributes, size, body) + rest, nf, ne, p, rest);
  }

  /// A record whose alternative reads it is what `property` returns.
  lemma Dispatched(j: nat, input: Bytes, nf: Usize, ne: Usize, v: FilesProperty, rest: Bytes)
    requires j < 8 && Tagged(AltTag(j), input)
    requires Alternative(j, input, nf, ne) == Ok(Some(v), rest)
    ensures Property(input, nf, ne) == Ok(Some(v), rest)
  {
    Dispatch(j, input, nf, ne);
  }

  /// A dummy record yields no property when its data is all zero, and is
  /// refused otherwise.
  lemma DummyRead(data: Bytes, rest: Bytes, nf: Usize, ne: Usize)
    requires |data| <= USIZE_MAX
    ensures AllZero(data) ==> Property(DummyRecord(data) + rest, nf, ne) == Ok(None, rest)
    ensures !AllZero(data) ==> Property(DummyRecord(data) + rest, nf, ne) == Fail(Error(DummyNotAllZeroes))
  {
    var input := DummyRecord(data) + rest;
    Assoc4([ToByte(PropertyID.Dummy)], Encode(|data|), data, rest);
    TagByteOk(ToByte(PropertyID.Dummy), Encode(|data|) + (data + rest));
    VarintAsUsizeRoundTrip(|data|, data + rest);
    CountBytesRoundTrip(data, rest);
    Dispatch(8, input, nf, ne);
  }

  /// A record starts with its tag byte, which is never End's.
  lemma EncodePropertyStart(p: FilesProperty, rest: Bytes)
    ensures var input := EncodeProperty(p) + rest;
      |input| > |rest| && input[0] == ToByte(PropertyTag(p)) && input[0] != ToByte(End)
  {
    ToByteInjective(End, PropertyTag(p));
  }

  /// `many_till(property, tag(End))` reads back the records of `ps` and
  /// the End byte.
  lemma {:induction false} PropertiesRoundTrip(nf: Usize, ne: Usize, ps: seq<FilesProperty>, rest: Bytes)
    requires forall i :: 0 <= i < |ps| ==> Fits(ps[i], nf, ne)
    ensures ManyUntil(PropertyP(nf, ne), TagByteP(ToByte(End)), Concat(PropertyEnc(), ps) + ([ToByte(End)] + rest)) ==
      Ok((Items(ps), [ToByte(End)]), rest)
    decreases |ps|
  {
    var input := Concat(PropertyEnc(), ps) + ([ToByte(End)] + rest);
    if |ps| == 0 {
      assert input == [ToByte(End)] + rest;
      TagByteOk(ToByte(End), rest);
      ManyUntilEnd(PropertyP(nf, ne), TagByteP(ToByte(End)), input);
    } else {
      var tail := Concat(PropertyEnc(), ps[1..]) + ([ToByte(End)] + rest);
      FirstRecord(nf, ne, ps, rest);
      ManyUntilStep(PropertyP(nf, ne), TagByteP(ToByte(End)), input, Some(AsRead(ps[0])), tail);
      PropertiesRoundTrip(nf, ne, ps[1..], rest);
      ItemsCons(ps);
    }
  }

  /// The first record is read, and End is not seen before it.
  lemma FirstRecord(nf: Usize, ne: Usize, ps: seq<FilesProperty>, rest: Bytes)
    requires |ps| > 0 && Fits(ps[0], nf, ne)
    ensures var input := Concat(PropertyEnc(), ps) + ([ToByte(End)] + rest);
      var tail := Concat(PropertyEnc(), ps[1..]) + ([ToByte(End)] + rest);
      && TagByteP(ToByte(End))(input) == Fail(Error(Nom(Tag)))
      && PropertyP(nf, ne)(input) == Ok(Some(AsRead(ps[0])), tail)
      && |tail| < |input|
  {
    var tail := Concat(PropertyEnc(), ps[1..]) + ([ToByte(End)] + rest);
    assert Concat(PropertyEnc(), ps) == EncodeProperty(ps[0]) + Concat(PropertyEnc(), ps[1..]);
    Assoc3(EncodeProperty(ps[0]), Concat(PropertyEnc(), ps[1..]), [ToByte(End)] + rest);
    RecordFirst(nf, ne, ps[0], tail);
  }

  /// A record is read whole by `property`, and `tag(End)` refuses it.
  lemma RecordFirst(nf: Usize, ne: Usize, p: FilesProperty, tail: Bytes)
    requires Fits(p, nf, ne)
    ensures TagByteP(ToByte(End))(EncodeProperty(p) + tail) == Fail(Error(Nom(Tag)))
    ensures PropertyP(nf, ne)(EncodeProperty(p) + tail) == Ok(Some(AsRead(p)), tail)
    ensures |EncodeProperty(p) + tail| > |tail|
  {
    EncodePropertyStart(p, tail);
    PropertyRoundTrip(p, nf, ne, tail);
  }

  lemma ItemsCons(ps: seq<FilesProperty>)
    requires |ps| > 0
    ensures Items(ps) == [Some(AsRead(ps[0]))] + Items(ps[1..])
  {
  }

  /// `Somes` drops the wrapping `Items` adds.
  lemma {:induction false} SomesItems(ps: seq<FilesProperty>)
    ensures Somes(Items(ps)) == AllAsRead(ps)
    decreases |ps|
  {
    if |ps| > 0 {
      SomesItems(ps[1..]);
      assert Items(ps)[1..] == Items(ps[1..]);
      assert AllAsRead(ps) == [AsRead(ps[0])] + AllAsRead(ps[1..]);
    }
  }

  /// `files_info` reads back every section whose records fit its file
  /// count and the empty-stream count it is given, with MTime records as
  /// ATime.
  lemma FilesInfoRoundTrip(info: FilesInfo, ne: Usize, rest: Bytes)
    requires FilesInfoFits(info, ne)
    ensures ParseFilesInfo(EncodeFilesInfo(info) + rest, ne) ==
      Ok(FilesInfo.FilesInfo(info.numFiles, AllAsRead(info.properties)), rest)
  {
    var records := Concat(PropertyEnc(), info.properties);
    var props := records + ([ToByte(End)] + rest);
    Assoc5([ToByte(PropertyID.FilesInfo)], Encode(info.numFiles), records, [ToByte(End)], rest);
    TagByteOk(ToByte(PropertyID.FilesInfo), Encode(info.numFiles) + props);
    VarintAsUsizeRoundTrip(info.numFiles, props);
    PropertiesRoundTrip(info.numFiles, ne, info.properties, rest);
    SomesItems(info.properties);
  }

  /// A dummy record between records changes nothing that is read.
  lemma DummySkipped(nf: Usize, ne: Usize, data: Bytes, tail: Bytes)
    requires |data| <= USIZE_MAX && AllZero(data)
    ensures PropertiesUntilEnd(nf, ne, DummyRecord(data) + tail) == PropertiesUntilEnd(nf, ne, tail)
  {
    var input := DummyRecord(data) + tail;
    DummyRead(data, tail, nf, ne);
    RecordTags();
    assert TagByte(ToByte(End), input).Fail?;
    ManyUntilStep(PropertyP(nf, ne), TagByteP(ToByte(End)), input, None, tail);
    var r := ManyUntil(PropertyP(nf, ne), TagByteP(ToByte(End)), tail);
    if r.Ok? {
      assert Somes([None] + r.value.0) == Somes(r.value.0);
    }
  }
}
