/// The files-information section of the header
/// (`src/parser/parsers/files_info.rs`, `src/parser/types/files_info.rs`):
/// a file count, then property records until an End byte. Each record is a
/// tag, a varint size that is read and ignored, and a body whose layout the
/// tag decides.
module Files {
  import opened Base
  import opened Err
  import opened Nom
  import opened SevenzUint64
  import opened PropertyIds
  import opened Parsers
  import opened Bits
  import Utf16

  /// `Left` is an index into external data, `Right` the inline value.
  type FileTime = Either<U64, U64>
  type FileName = Either<U64, string>
  type FileAttr = Either<U64, U32>

  datatype FilesProperty =
    | EmptyStream(bits: seq<bool>)
    | EmptyFile(bits: seq<bool>)
    | Anti(bits: seq<bool>)
    | CTime(times: seq<Option<FileTime>>)
    | ATime(times: seq<Option<FileTime>>)
    | MTime(times: seq<Option<FileTime>>)
    | Names(names: seq<FileName>)
    | Attributes(attrs: seq<Option<FileAttr>>)

  datatype FilesInfo = FilesInfo(numFiles: Usize, properties: seq<FilesProperty>)

  /// The tag byte of `id` starts `input`.
  predicate Tagged(id: PropertyID, input: Bytes) {
    |input| >= 1 && input[0] == ToByte(id)
  }

  /// The start of a record: the tag `id` and the size varint.
  function RecordStart(id: PropertyID, input: Bytes): (r: Res<U64>)
    ensures !Tagged(id, input) ==> r == Fail(Error(Nom(Tag)))
  {
    var t :- TagByte(ToByte(id), input);
    Varint(t.rest)
  }

  function TakeBitsP(n: nat): Bytes -> Res<seq<bool>> {
    x => TakeBits(x, n)
  }

  /// `empty_stream`, `empty_file` and `anti`: a record whose body is `n`
  /// bits.
  function BitsRecord(id: PropertyID, n: Usize, input: Bytes): (r: Res<seq<bool>>)
    ensures !Tagged(id, input) ==> r == Fail(Error(Nom(Tag)))
    ensures r.Ok? ==> |r.value| == n
  {
    var size :- RecordStart(id, input);
    TakeBits(size.rest, n)
  }

  /// `empty_stream`: one bit per file.
  function ParseEmptyStream(input: Bytes, numFiles: Usize): (r: Res<FilesProperty>)
    ensures !Tagged(PropertyID.EmptyStream, input) ==> r == Fail(Error(Nom(Tag)))
    ensures r.Ok? ==> r.value.EmptyStream? && |r.value.bits| == numFiles
  {
    var bits :- BitsRecord(PropertyID.EmptyStream, numFiles, input);
    Ok(FilesProperty.EmptyStream(bits.value), bits.rest)
  }

  /// `empty_file`: one bit per empty stream, the count being the caller's
  /// argument.
  function ParseEmptyFile(input: Bytes, numEmptyStreams: Usize): (r: Res<FilesProperty>)
    ensures !Tagged(PropertyID.EmptyFile, input) ==> r == Fail(Error(Nom(Tag)))
    ensures r.Ok? ==> r.value.EmptyFile? && |r.value.bits| == numEmptyStreams
  {
    var bits :- BitsRecord(PropertyID.EmptyFile, numEmptyStreams, input);
    Ok(FilesProperty.EmptyFile(bits.value), bits.rest)
  }

  /// `anti`: one bit per empty stream, the count being the caller's
  /// argument.
  function ParseAnti(input: Bytes, numEmptyStreams: Usize): (r: Res<FilesProperty>)
    ensures !Tagged(PropertyID.Anti, input) ==> r == Fail(Error(Nom(Tag)))
    ensures r.Ok? ==> r.value.Anti? && |r.value.bits| == numEmptyStreams
  {
    var bits :- BitsRecord(PropertyID.Anti, numEmptyStreams, input);
    Ok(FilesProperty.Anti(bits.value), bits.rest)
  }

  /// The inline values of `many_cond_opt`, each put in `Right`.
  function Inline<V>(xs: seq<Option<V>>): (ys: seq<Option<Either<U64, V>>>)
    ensures |ys| == |xs|
  {
    seq(|xs|, i requires 0 <= i < |xs| => match xs[i] case Some(v) => Some(Right(v)) case None => None)
  }

  /// Every entry is the same external index, or every entry is inline
  /// (a value or nothing): a record never mixes the two.
  predicate OneForm<V(==)>(xs: seq<Option<Either<U64, V>>>) {
    || (forall i :: 0 <= i < |xs| ==> xs[i] == xs[0] && xs[i].Some? && xs[i].value.Left?)
    || (forall i :: 0 <= i < |xs| ==> xs[i].None? || xs[i].value.Right?)
  }

  /// The same for names, which are never absent.
  predicate NamesOneForm(xs: seq<FileName>) {
    || (forall i :: 0 <= i < |xs| ==> xs[i] == xs[0] && xs[i].Left?)
    || (forall i :: 0 <= i < |xs| ==> xs[i].Right?)
  }

  /// The body shared by `time` and `attrs` after the size: the `all_defined`
  /// flag, the definedness bits unless all are defined, the `external` flag
  /// and, when it is set, one external index that every file gets;
  /// otherwise a value read by `p` for each defined file.
  function DefinedValues<V(==)>(p: Bytes -> Res<V>, n: Usize, input: Bytes): (r: Res<seq<Option<Either<U64, V>>>>)
    ensures r.Ok? ==> |r.value| == n
    ensures r.Ok? ==> OneForm(r.value)
  {
    var allDefined :- BoolByte(input);
    var defined :- Cond(!allDefined.value, TakeBitsP(n), allDefined.rest);
    var bits := match defined.value case Some(d) => d case None => seq(n, _ => true);
    ExternalOrInline(p, n, bits, defined.rest)
  }

  /// The rest of that body, once the definedness bits are known.
  function ExternalOrInline<V(==)>(p: Bytes -> Res<V>, n: Usize, bits: seq<bool>, input: Bytes): (r: Res<seq<Option<Either<U64, V>>>>)
    requires |bits| == n
    ensures r.Ok? ==> |r.value| == n
    ensures r.Ok? ==> OneForm(r.value)
  {
    var external :- BoolByte(input);
    var dataIdx :- Cond(external.value, LeU64P(), external.rest);
    match dataIdx.value
    case Some(i) =>
      var all: seq<Option<Either<U64, V>>> := seq(n, _ => Some(Left(i)));
      Ok(all, dataIdx.rest)
    case None =>
      var values :- ManyCondOpt(p, bits, dataIdx.rest);
      Ok(Inline(values.value), values.rest)
  }

  /// `time`: the size varint, then the time values (`le_u64`).
  function Time(input: Bytes, numFiles: Usize): (r: Res<seq<Option<FileTime>>>)
    ensures r.Ok? ==> |r.value| == numFiles
    ensures r.Ok? ==> OneForm(r.value)
  {
    var size :- Varint(input);
    DefinedValues(LeU64P(), numFiles, size.rest)
  }

  function ParseCTime(input: Bytes, numFiles: Usize): (r: Res<FilesProperty>)
    ensures !Tagged(PropertyID.CTime, input) ==> r == Fail(Error(Nom(Tag)))
    ensures r.Ok? ==> r.value.CTime? && |r.value.times| == numFiles && OneForm(r.value.times)
  {
    var t :- TagByte(ToByte(PropertyID.CTime), input);
    var times :- Time(t.rest, numFiles);
    Ok(FilesProperty.CTime(times.value), times.rest)
  }

  function ParseATime(input: Bytes, numFiles: Usize): (r: Res<FilesProperty>)
    ensures !Tagged(PropertyID.ATime, input) ==> r == Fail(Error(Nom(Tag)))
    ensures r.Ok? ==> r.value.ATime? && |r.value.times| == numFiles && OneForm(r.value.times)
  {
    var t :- TagByte(ToByte(PropertyID.ATime), input);
    var times :- Time(t.rest, numFiles);
    Ok(FilesProperty.ATime(times.value), times.rest)
  }

  /// `mtime`, as written: the times of an MTime record come back in the
  /// ATime variant (`files_info.rs:104`).
  function ParseMTime(input: Bytes, numFiles: Usize): (r: Res<FilesProperty>)
    ensures !Tagged(PropertyID.MTime, input) ==> r == Fail(Error(Nom(Tag)))
    ensures r.Ok? ==> r.value.ATime? && |r.value.times| == numFiles && OneForm(r.value.times)
  {
    var t :- TagByte(ToByte(PropertyID.MTime), input);
    var times :- Time(t.rest, numFiles);
    Ok(FilesProperty.ATime(times.value), times.rest)
  }

  /// The two-byte terminator of a wide string.
  function NulP(): Bytes -> Res<Bytes> {
    x => TagSeq([0, 0], x)
  }

  /// `wchar_str`: little-endian code units up to the first zero unit, which
  /// is consumed, then converted; unpaired surrogates are a recoverable
  /// `ConversionFailure(ToString)`.
  function WcharStr(input: Bytes): (r: Res<string>)
  {
    var units :- ManyUntil(LeU16P(), NulP(), input);
    match Utf16.Decode(units.value.0)
    case Some(s) => Ok(s, units.rest)
    case None => Fail(Error(ConversionFailure(ToString)))
  }

  function WcharStrP(): Bytes -> Res<string> {
    x => WcharStr(x)
  }

  /// `names`: the size, the `external` flag and either one external index
  /// for every file or one wide string per file.
  function ParseNames(input: Bytes, numFiles: Usize): (r: Res<FilesProperty>)
    ensures !Tagged(PropertyID.Name, input) ==> r == Fail(Error(Nom(Tag)))
    ensures r.Ok? ==> r.value.Names? && |r.value.names| == numFiles && NamesOneForm(r.value.names)
  {
    var size :- RecordStart(PropertyID.Name, input);
    var names :- NamesValues(size.rest, numFiles);
    Ok(FilesProperty.Names(names.value), names.rest)
  }

  /// The body of `names` after the size.
  function NamesValues(input: Bytes, numFiles: Usize): (r: Res<seq<FileName>>)
    ensures r.Ok? ==> |r.value| == numFiles && NamesOneForm(r.value)
  {
    var external :- BoolByte(input);
    var dataIdx :- Cond(external.value, LeU64P(), external.rest);
    match dataIdx.value
    case Some(i) =>
      var all: seq<FileName> := seq(numFiles, _ => Left(i));
      Ok(all, dataIdx.rest)
    case None => InlineNames(dataIdx.rest, numFiles)
  }

  /// One wide string per file, each in `Right`.
  function InlineNames(input: Bytes, numFiles: Usize): (r: Res<seq<FileName>>)
    ensures r.Ok? ==> |r.value| == numFiles && forall k :: 0 <= k < numFiles ==> r.value[k].Right?
  {
    var names :- Count(WcharStrP(), numFiles, input);
    var all: seq<FileName> := seq(|names.value|, k requires 0 <= k < |names.value| => Right(names.value[k]));
    Ok(all, names.rest)
  }

  /// `attrs`: the size, then the attribute values (`le_u32`).
  function ParseAttrs(input: Bytes, numFiles: Usize): (r: Res<FilesProperty>)
    ensures !Tagged(PropertyID.WinAttributes, input) ==> r == Fail(Error(Nom(Tag)))
    ensures r.Ok? ==> r.value.Attributes? && |r.value.attrs| == numFiles && OneForm(r.value.attrs)
  {
    var size :- RecordStart(PropertyID.WinAttributes, input);
    var attrs :- DefinedValues(LeU32P(), numFiles, size.rest);
    Ok(FilesProperty.Attributes(attrs.value), attrs.rest)
  }

  predicate AllZero(data: Bytes) {
    forall i :: 0 <= i < |data| ==> data[i] == 0
  }

  /// `dummy`: the size as a `usize`, then that many bytes, which must all
  /// be zero. A dummy yields no property.
  function ParseDummy(input: Bytes): (r: Res<Option<FilesProperty>>)
    ensures !Tagged(PropertyID.Dummy, input) ==> r == Fail(Error(Nom(Tag)))
  {
    var t :- TagByte(ToByte(PropertyID.Dummy), input);
    var size :- VarintAsUsize(t.rest);
    var data :- Count(U8P(), size.value, size.rest);
    if AllZero(data.value) then Ok(None, data.rest) else Fail(Error(DummyNotAllZeroes))
  }

  /// `dummy` with its check loop over the data bytes.
  method ReadDummy(input: Bytes) returns (r: Res<Option<FilesProperty>>)
    ensures r == ParseDummy(input)
  {
    var t := TagByte(ToByte(PropertyID.Dummy), input);
    if t.Fail? {
      return Fail(t.fault);
    }
    var size := VarintAsUsize(t.rest);
    if size.Fail? {
      return Fail(size.fault);
    }
    var data := Count(U8P(), size.value, size.rest);
    if data.Fail? {
      return Fail(data.fault);
    }
    for k := 0 to |data.value|
      invariant forall i :: 0 <= i < k ==> data.value[i] == 0
    {
      if data.value[k] != 0 {
        return Fail(Error(DummyNotAllZeroes));
      }
    }
    return Ok(None, data.rest);
  }

  /// The tag the alternative `k` of `property` looks for, in the source's
  /// order.
  function AltTag(k: nat): PropertyID
    requires k < 9
  {
    match k
    case 0 => PropertyID.EmptyStream
    case 1 => PropertyID.EmptyFile
    case 2 => PropertyID.Anti
    case 3 => PropertyID.CTime
    case 4 => PropertyID.ATime
    case 5 => PropertyID.MTime
    case 6 => PropertyID.Name
    case 7 => PropertyID.WinAttributes
    case _ => PropertyID.Dummy
  }

  /// The alternative `k` of `property`: each property in `Some`; a dummy
  /// gives `None`.
  function Alternative(k: nat, input: Bytes, numFiles: Usize, numEmptyStreams: Usize): (r: Res<Option<FilesProperty>>)
    requires k < 9
    ensures !Tagged(AltTag(k), input) ==> r == Fail(Error(Nom(Tag)))
  {
    match k
    case 0 => WrapSome(ParseEmptyStream(input, numFiles))
    case 1 => WrapSome(ParseEmptyFile(input, numEmptyStreams))
    case 2 => WrapSome(ParseAnti(input, numEmptyStreams))
    case 3 => WrapSome(ParseCTime(input, numFiles))
    case 4 => WrapSome(ParseATime(input, numFiles))
    case 5 => WrapSome(ParseMTime(input, numFiles))
    case 6 => WrapSome(ParseNames(input, numFiles))
    case 7 => WrapSome(ParseAttrs(input, numFiles))
    case _ => ParseDummy(input)
  }

  /// `alt` over the alternatives from `k` on: a recoverable error moves on
  /// to the next one; when every alternative fails recoverably, the last
  /// one's error remains.
  function AltFrom(k: nat, input: Bytes, numFiles: Usize, numEmptyStreams: Usize): (r: Res<Option<FilesProperty>>)
    requires k < 9
    decreases 9 - k
  {
    if k == 8 then Alternative(8, input, numFiles, numEmptyStreams)
    else OrElse(Alternative(k, input, numFiles, numEmptyStreams), AltFrom(k + 1, input, numFiles, numEmptyStreams))
  }

  /// `property`: `alt` over the nine alternatives.
  function Property(input: Bytes, numFiles: Usize, numEmptyStreams: Usize): (r: Res<Option<FilesProperty>>)
  {
    AltFrom(0, input, numFiles, numEmptyStreams)
  }

  function PropertyP(numFiles: Usize, numEmptyStreams: Usize): Bytes -> Res<Option<FilesProperty>> {
    x => Property(x, numFiles, numEmptyStreams)
  }

  /// The values of the `Some` entries, in order.
  function Somes<T>(xs: seq<Option<T>>): (ys: seq<T>)
    ensures |ys| <= |xs|
  {
    if |xs| == 0 then []
    else (match xs[0] case Some(v) => [v] case None => []) + Somes(xs[1..])
  }

  /// `files_info`: the tag, the file count as a `usize`, then the
  /// properties until the End byte; dummies are dropped.
  function ParseFilesInfo(input: Bytes, numEmptyStreams: Usize): (r: Res<FilesInfo>)
    ensures !Tagged(PropertyID.FilesInfo, input) ==> r == Fail(Error(Nom(Tag)))
  {
    var t :- TagByte(ToByte(PropertyID.FilesInfo), input);
    var n :- VarintAsUsize(t.rest);
    PropertiesUntilEnd(n.value, numEmptyStreams, n.rest)
  }

  function PropertiesUntilEnd(numFiles: Usize, numEmptyStreams: Usize, input: Bytes): (r: Res<FilesInfo>)
    ensures r.Ok? ==> r.value.numFiles == numFiles
  {
    var props :- ManyUntil(PropertyP(numFiles, numEmptyStreams), TagByteP(ToByte(End)), input);
    Ok(FilesInfo.FilesInfo(numFiles, Somes(props.value.0)), props.rest)
  }

  /// `get_property` with the filter it applies: the first property the
  /// filter keeps, or `None`.
  function FirstKept(props: seq<FilesProperty>, keep: FilesProperty -> bool): (r: Option<FilesProperty>)
  {
    if |props| == 0 then None
    else if keep(props[0]) then Some(props[0])
    else FirstKept(props[1..], keep)
  }

  /// `get_property`, as written: the arm `kind => true` binds a fresh
  /// name and so keeps every property, whatever `kind` is
  /// (`types/files_info.rs:36-39`).
  function GetProperty(info: FilesInfo, kind: FilesProperty): (r: Option<FilesProperty>)
  {
    FirstKept(info.properties, _ => true)
  }

  /// What `alt` makes of one alternative's result: a recoverable error is
  /// caught, the later alternatives all refuse the tag, and so the report
  /// becomes a tag mismatch.
  function Recovered<T>(r: Res<T>): (o: Res<T>)
    ensures o.Ok? == r.Ok?
    ensures !(r.Fail? && r.fault.Error?) ==> o == r
  {
    if r.Fail? && r.fault.Error? then Fail(Error(Nom(Tag))) else r
  }

  /// The tag bytes of the nine records, of End and of FilesInfo: all
  /// different.
  lemma RecordTags()
    ensures ToByte(PropertyID.EmptyStream) == 0x0E && ToByte(PropertyID.EmptyFile) == 0x0F
    ensures ToByte(PropertyID.Anti) == 0x10 && ToByte(PropertyID.Name) == 0x11
    ensures ToByte(PropertyID.CTime) == 0x12 && ToByte(PropertyID.ATime) == 0x13
    ensures ToByte(PropertyID.MTime) == 0x14 && ToByte(PropertyID.WinAttributes) == 0x15
    ensures ToByte(PropertyID.Dummy) == 0x19 && ToByte(End) == 0x00 && ToByte(PropertyID.FilesInfo) == 0x05
  {
    TagValue(PropertyID.EmptyStream, 0x0E);
    TagValue(PropertyID.EmptyFile, 0x0F);
    TagValue(PropertyID.Anti, 0x10);
    TagValue(PropertyID.Name, 0x11);
    TagValue(PropertyID.CTime, 0x12);
    TagValue(PropertyID.ATime, 0x13);
    TagValue(PropertyID.MTime, 0x14);
    TagValue(PropertyID.WinAttributes, 0x15);
    TagValue(PropertyID.Dummy, 0x19);
    TagValue(End, 0x00);
    TagValue(PropertyID.FilesInfo, 0x05);
  }

  lemma TagValue(id: PropertyID, b: bv8)
    requires b < 0x1A && DeclarationOrder[b as int] == id
    ensures ToByte(id) == b
  {
    DiscriminantIsPosition(b as int);
  }

  /// The tags of different alternatives have different bytes.
  lemma AltTagsDiffer(j: nat, k: nat)
    requires j < 9 && k < 9 && j != k
    ensures ToByte(AltTag(j)) != ToByte(AltTag(k))
  {
    RecordTags();
  }

  /// When none of the alternatives from `k` on recognises the tag, `alt`
  /// refuses it recoverably.
  lemma {:induction false} AltFromRefuses(k: nat, input: Bytes, nf: Usize, ne: Usize)
    requires k < 9
    requires forall j :: k <= j < 9 ==> !Tagged(AltTag(j), input)
    ensures AltFrom(k, input, nf, ne) == Fail(Error(Nom(Tag)))
    decreases 9 - k
  {
    if k < 8 {
      AltFromRefuses(k + 1, input, nf, ne);
    }
  }

  /// Alternatives that do not recognise the tag are passed over.
  lemma {:induction false} AltFromSkips(k: nat, j: nat, input: Bytes, nf: Usize, ne: Usize)
    requires k <= j < 9
    requires forall i :: k <= i < j ==> !Tagged(AltTag(i), input)
    ensures AltFrom(k, input, nf, ne) == AltFrom(j, input, nf, ne)
    decreases j - k
  {
    if k < j {
      AltFromSkips(k + 1, j, input, nf, ne);
    }
  }

  /// `property` is decided by the alternative whose tag starts the input;
  /// a recoverable error of it becomes a tag mismatch, since all later
  /// alternatives refuse the tag.
  lemma Dispatch(j: nat, input: Bytes, nf: Usize, ne: Usize)
    requires j < 9 && Tagged(AltTag(j), input)
    ensures Property(input, nf, ne) ==
      if j < 8 then Recovered(Alternative(j, input, nf, ne)) else Alternative(8, input, nf, ne)
  {
    forall i | 0 <= i < 9 && i != j ensures !Tagged(AltTag(i), input) {
      AltTagsDiffer(i, j);
    }
    AltFromSkips(0, j, input, nf, ne);
    if j < 8 {
      AltFromRefuses(j + 1, input, nf, ne);
    }
  }

  /// `property` dispatches on the tag byte: a record is read by the parser
  /// of its tag, whose result stands unless it is a recoverable error.
  lemma PropertyDispatch(input: Bytes, nf: Usize, ne: Usize)
    ensures Tagged(PropertyID.EmptyStream, input) ==> Property(input, nf, ne) == Recovered(WrapSome(ParseEmptyStream(input, nf)))
    ensures Tagged(PropertyID.EmptyFile, input) ==> Property(input, nf, ne) == Recovered(WrapSome(ParseEmptyFile(input, ne)))
    ensures Tagged(PropertyID.Anti, input) ==> Property(input, nf, ne) == Recovered(WrapSome(ParseAnti(input, ne)))
    ensures Tagged(PropertyID.CTime, input) ==> Property(input, nf, ne) == Recovered(WrapSome(ParseCTime(input, nf)))
    ensures Tagged(PropertyID.ATime, input) ==> Property(input, nf, ne) == Recovered(WrapSome(ParseATime(input, nf)))
    ensures Tagged(PropertyID.MTime, input) ==> Property(input, nf, ne) == Recovered(WrapSome(ParseMTime(input, nf)))
    ensures Tagged(PropertyID.Name, input) ==> Property(input, nf, ne) == Recovered(WrapSome(ParseNames(input, nf)))
    ensures Tagged(PropertyID.WinAttributes, input) ==> Property(input, nf, ne) == Recovered(WrapSome(ParseAttrs(input, nf)))
    ensures Tagged(PropertyID.Dummy, input) ==> Property(input, nf, ne) == ParseDummy(input)
  {
    if Tagged(PropertyID.EmptyStream, input) { Dispatch(0, input, nf, ne); }
    if Tagged(PropertyID.EmptyFile, input) { Dispatch(1, input, nf, ne); }
    if Tagged(PropertyID.Anti, input) { Dispatch(2, input, nf, ne); }
    if Tagged(PropertyID.CTime, input) { Dispatch(3, input, nf, ne); }
    if Tagged(PropertyID.ATime, input) { Dispatch(4, input, nf, ne); }
    if Tagged(PropertyID.MTime, input) { Dispatch(5, input, nf, ne); }
    if Tagged(PropertyID.Name, input) { Dispatch(6, input, nf, ne); }
    if Tagged(PropertyID.WinAttributes, input) { Dispatch(7, input, nf, ne); }
    if Tagged(PropertyID.Dummy, input) { Dispatch(8, input, nf, ne); }
  }

  /// A byte that is none of the nine record tags is refused recoverably,
  /// so `many_till` and `opt` around `property` can try something else.
  lemma PropertyRejects(input: Bytes, nf: Usize, ne: Usize)
    requires !Tagged(PropertyID.EmptyStream, input) && !Tagged(PropertyID.EmptyFile, input)
    requires !Tagged(PropertyID.Anti, input) && !Tagged(PropertyID.CTime, input)
    requires !Tagged(PropertyID.ATime, input) && !Tagged(PropertyID.MTime, input)
    requires !Tagged(PropertyID.Name, input) && !Tagged(PropertyID.WinAttributes, input)
    requires !Tagged(PropertyID.Dummy, input)
    ensures Property(input, nf, ne) == Fail(Error(Nom(Tag)))
  {
    AltFromRefuses(0, input, nf, ne);
  }

  /// No record ever comes back as MTime: the MTime record is read into the
  /// ATime variant.
  lemma PropertyNeverMTime(input: Bytes, nf: Usize, ne: Usize)
    ensures Property(input, nf, ne).Ok? && Property(input, nf, ne).value.Some? ==>
      !Property(input, nf, ne).value.value.MTime?
  {
    if j: nat :| j < 9 && Tagged(AltTag(j), input) {
      Dispatch(j, input, nf, ne);
      AlternativeNeverMTime(j, input, nf, ne);
    } else {
      AltFromRefuses(0, input, nf, ne);
    }
  }

  /// No alternative of `property` yields an MTime property.
  lemma AlternativeNeverMTime(k: nat, input: Bytes, nf: Usize, ne: Usize)
    requires k < 9
    ensures var r := Alternative(k, input, nf, ne);
      r.Ok? && r.value.Some? ==> !r.value.value.MTime?
  {
    if k == 8 {
      assert Alternative(k, input, nf, ne) == ParseDummy(input);
    }
  }

  /// ... and so no files-information section holds an MTime property.
  lemma {:induction false} PropertiesNeverMTime(nf: Usize, ne: Usize, input: Bytes)
    ensures var r := ManyUntil(PropertyP(nf, ne), TagByteP(ToByte(End)), input);
      r.Ok? ==> forall i :: 0 <= i < |r.value.0| ==> r.value.0[i].None? || !r.value.0[i].value.MTime?
    decreases |input|
  {
    var r := ManyUntil(PropertyP(nf, ne), TagByteP(ToByte(End)), input);
    if r.Ok? && TagByte(ToByte(End), input).Fail? {
      var p := Property(input, nf, ne);
      PropertyNeverMTime(input, nf, ne);
      PropertiesNeverMTime(nf, ne, p.rest);
    }
  }

  /// Whatever holds of every present entry holds of every value `Somes`
  /// keeps.
  lemma {:induction false} SomesAll<T>(xs: seq<Option<T>>, P: T -> bool)
    requires forall i :: 0 <= i < |xs| ==> xs[i].None? || P(xs[i].value)
    ensures forall j :: 0 <= j < |Somes(xs)| ==> P(Somes(xs)[j])
    decreases |xs|
  {
    if |xs| > 0 {
      SomesAll(xs[1..], P);
    }
  }

  lemma FilesInfoNeverMTime(input: Bytes, ne: Usize)
    ensures ParseFilesInfo(input, ne).Ok? ==>
      forall j :: 0 <= j < |ParseFilesInfo(input, ne).value.properties| ==>
        !ParseFilesInfo(input, ne).value.properties[j].MTime?
  {
    var r := ParseFilesInfo(input, ne);
    if r.Ok? {
      var n := VarintAsUsize(input[1..]);
      var items := ManyUntil(PropertyP(n.value, ne), TagByteP(ToByte(End)), n.rest);
      PropertiesNeverMTime(n.value, ne, n.rest);
      SomesAll(items.value.0, (p: FilesProperty) => !p.MTime?);
    }
  }

  /// `le_u16` is zero only on two zero bytes.
  lemma LeU16Zero(input: Bytes)
    requires |input| >= 2
    ensures LeU16(input).value == 0 ==> input[..2] == [0, 0]
  {
    var b := input[..2];
    assert LeValue(b) == b[0] as int + 256 * LeValue(b[1..]);
    assert LeValue(b[1..]) == b[1] as int + 256 * LeValue(b[2..]);
    if LeU16(input).value == 0 {
      assert b == [0, 0];
    }
  }

  /// The code units `wchar_str` collects are never zero: the terminator is
  /// tried first at every step, so a zero unit ends the string. The
  /// `from_slice_with_nul(..).unwrap()` on them therefore never panics.
  lemma {:induction false} UnitsNonZero(input: Bytes)
    ensures var r := ManyUntil(LeU16P(), NulP(), input);
      r.Ok? ==> forall i :: 0 <= i < |r.value.0| ==> r.value.0[i] != 0
    decreases |input|
  {
    var r := ManyUntil(LeU16P(), NulP(), input);
    if r.Ok? && TagSeq([0, 0], input).Fail? {
      var u := LeU16(input);
      LeU16Zero(input);
      UnitsNonZero(u.rest);
      var tail := ManyUntil(LeU16P(), NulP(), u.rest);
      assert r.value.0 == [u.value] + tail.value.0;
    }
  }

  /// A name `wchar_str` returns holds no NUL character, and the conversion
  /// succeeds exactly when the units have no unpaired surrogate.
  lemma WcharStrResult(input: Bytes)
    ensures var units := ManyUntil(LeU16P(), NulP(), input);
      units.Ok? ==>
        (WcharStr(input).Ok? <==> Utf16.Paired(units.value.0)) &&
        (!Utf16.Paired(units.value.0) ==> WcharStr(input) == Fail(Error(ConversionFailure(ToString))))
    ensures WcharStr(input).Ok? ==> forall i :: 0 <= i < |WcharStr(input).value| ==> WcharStr(input).value[i] != '\0'
  {
    var units := ManyUntil(LeU16P(), NulP(), input);
    if units.Ok? {
      Utf16.DecodeSucceeds(units.value.0);
      if Utf16.Decode(units.value.0).Some? {
        UnitsNonZero(input);
        Utf16.EncodeDecode(units.value.0);
        Utf16.EncodeNonZero(Utf16.Decode(units.value.0).value);
      }
    }
  }

  /// `get_property` for a filter: `None` exactly when no property passes,
  /// otherwise the first that does.
  lemma {:induction false} FirstKeptIsFirst(props: seq<FilesProperty>, keep: FilesProperty -> bool)
    ensures FirstKept(props, keep).None? <==> forall i :: 0 <= i < |props| ==> !keep(props[i])
    ensures FirstKept(props, keep).Some? ==>
      exists i :: 0 <= i < |props| && FirstKept(props, keep).value == props[i] && keep(props[i]) &&
        forall j :: 0 <= j < i ==> !keep(props[j])
    decreases |props|
  {
    if |props| > 0 && !keep(props[0]) {
      FirstKeptIsFirst(props[1..], keep);
      if FirstKept(props, keep).Some? {
        var i :| 0 <= i < |props[1..]| && FirstKept(props[1..], keep).value == props[1..][i] &&
          keep(props[1..][i]) && forall j :: 0 <= j < i ==> !keep(props[1..][j]);
        assert forall j :: 0 <= j < i + 1 ==> !keep(props[j]) by {
          forall j | 0 <= j < i + 1 ensures !keep(props[j]) {
            if j > 0 { assert props[j] == props[1..][j - 1]; }
          }
        }
      }
    }
  }

  /// `get_property` as written: the first property whatever the kind asked
  /// for, and `None` only when there are no properties.
  lemma GetPropertyIsFirst(info: FilesInfo, kind: FilesProperty)
    ensures GetProperty(info, kind).None? <==> |info.properties| == 0
    ensures GetProperty(info, kind).Some? ==> GetProperty(info, kind).value == info.properties[0]
  {
    FirstKeptIsFirst(info.properties, _ => true);
  }

  /// So asking for names returns the timestamps when they come first.
  lemma GetPropertyIgnoresKind(times: seq<Option<FileTime>>, names: seq<FileName>)
    ensures GetProperty(FilesInfo.FilesInfo(1, [FilesProperty.CTime(times), FilesProperty.Names(names)]), FilesProperty.Names([]))
      == Some(FilesProperty.CTime(times))
  {
    GetPropertyIsFirst(FilesInfo.FilesInfo(1, [FilesProperty.CTime(times), FilesProperty.Names(names)]), FilesProperty.Names([]));
  }
}
