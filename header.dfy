/// The header (`src/parser/parsers/header.rs`, `src/parser/types/header.rs`):
/// the Header tag, then the optional archive properties, additional
/// streams, main streams and files sections, always in that order, then
/// End.
module Headers {
  import opened Base
  import opened Err
  import opened Nom
  import opened SevenzUint64
  import opened PropertyIds
  import opened Parsers
  import opened Streams
  import opened Files
  import opened FilesEncoding

  /// `ArchiveProperties` (`src/parser/types/mod.rs:38-42`): the id and the
  /// data bytes of each archive property, in the order they are stored.
  datatype ArchiveProperties = ArchiveProperties(propertyData: seq<(PropertyID, Bytes)>)

  /// `Header` (`src/parser/types/header.rs:26-31`).
  datatype Header = Header(
    archiveProperties: Option<ArchiveProperties>,
    additionalStreams: Option<StreamsInfo>,
    mainStreams: Option<StreamsInfo>,
    files: Option<FilesInfo>)

  // ---------------------------------------------------------------------
  // archive_property

  /// `archive_property`: a property id, a length, and that many data
  /// bytes. An entry takes at least two bytes (the id and the length).
  function ParseArchiveProperty(input: Bytes): (r: Res<(PropertyID, Bytes)>)
    ensures r.Ok? ==> |input| >= 1 && ToByte(r.value.0) == input[0]
    ensures r.Ok? ==> 2 + |r.value.1| + |r.rest| <= |input|
    ensures ParsePropertyId(input).Fail? ==> r == Fail(ParsePropertyId(input).fault)
  {
    var id :- ParsePropertyId(input);
    var len :- VarintAsUsize(id.rest);
    VarintConsumes(id.rest);
    var data :- Take(len.value, len.rest);
    Ok((id.value, data.value), data.rest)
  }

  /// The bytes of one archive property.
  function EncodeArchiveProperty(entry: (PropertyID, Bytes)): Bytes
    requires |entry.1| <= USIZE_MAX
  {
    [ToByte(entry.0)] + Encode(|entry.1|) + entry.1
  }

  /// Any id with data of any length a `usize` can count is read back.
  lemma ArchivePropertyRoundTrip(entry: (PropertyID, Bytes), rest: Bytes)
    requires |entry.1| <= USIZE_MAX
    ensures ParseArchiveProperty(EncodeArchiveProperty(entry) + rest) == Ok(entry, rest)
  {
    var id := entry.0;
    var data := entry.1;
    var tail := Encode(|data|) + (data + rest);
    Assoc4([ToByte(id)], Encode(|data|), data, rest);
    PropertyIdRoundTrip(id, tail);
    VarintAsUsizeRoundTrip(|data|, data + rest);
    SplitConcat(data, rest);
  }

  /// `property_id` reads back the byte of every id.
  lemma PropertyIdRoundTrip(id: PropertyID, rest: Bytes)
    ensures ParsePropertyId([ToByte(id)] + rest) == Ok(id, rest)
  {
    var input := [ToByte(id)] + rest;
    FromToByte(id);
    FromByteAccepts(ToByte(id));
    var r := ParsePropertyId(input);
    if r.value != id {
      ToByteInjective(r.value, id);
    }
    assert input[1..] == rest;
  }

  // ---------------------------------------------------------------------
  // archive_properties

  /// The entries from `input` on, up to the first End entry, which is read
  /// whole (id, length and data) and dropped.
  function PropertiesFrom(input: Bytes): (r: Res<seq<(PropertyID, Bytes)>>)
    ensures r.Ok? ==> |r.rest| < |input|
    ensures r.Ok? ==> forall i :: 0 <= i < |r.value| ==> r.value[i].0 != End
    decreases |input|
  {
    var e :- ParseArchiveProperty(input);
    if e.value.0 == End then Ok([], e.rest)
    else
      var more :- PropertiesFrom(e.rest);
      Ok([e.value] + more.value, more.rest)
  }

  /// `archive_properties` with the loop advancing over the entries it
  /// reads: the ArchiveProperties tag, then the entries up to End.
  function ParseArchiveProperties(input: Bytes): (r: Res<ArchiveProperties>)
    ensures !Tagged(PropertyID.ArchiveProperties, input) ==> r == Fail(Error(Nom(Tag)))
    ensures r.Ok? ==> forall i :: 0 <= i < |r.value.propertyData| ==> r.value.propertyData[i].0 != End
  {
    var t :- TagByte(ToByte(PropertyID.ArchiveProperties), input);
    var props :- PropertiesFrom(t.rest);
    Ok(ArchiveProperties.ArchiveProperties(props.value), props.rest)
  }

  /// One round of `PropertiesFrom`: a failing entry fails it, End ends it,
  /// and any other entry goes in front of what follows.
  lemma PropertiesFromStep(input: Bytes)
    ensures var e := ParseArchiveProperty(input);
      && (e.Fail? ==> PropertiesFrom(input) == Fail(e.fault))
      && (e.Ok? && e.value.0 == End ==> PropertiesFrom(input) == Ok([], e.rest))
      && (e.Ok? && e.value.0 != End ==> PropertiesFrom(input) == Prepend([e.value], PropertiesFrom(e.rest)))
  {
  }

  /// The entries already read, put in front of the outcome of reading on.
  function Prepend(read: seq<(PropertyID, Bytes)>, r: Res<seq<(PropertyID, Bytes)>>): Res<seq<(PropertyID, Bytes)>> {
    match r
    case Ok(v, rest) => Ok(read + v, rest)
    case Fail(f) => Fail(f)
  }

  lemma PrependNothing(r: Res<seq<(PropertyID, Bytes)>>)
    ensures Prepend([], r) == r
  {
    if r.Ok? {
      assert [] + r.value == r.value;
    }
  }

  lemma PrependTwice(read: seq<(PropertyID, Bytes)>, x: (PropertyID, Bytes), r: Res<seq<(PropertyID, Bytes)>>)
    ensures Prepend(read, Prepend([x], r)) == Prepend(read + [x], r)
  {
    if r.Ok? {
      assert read + ([x] + r.value) == read + [x] + r.value;
    }
  }

  /// The loop of `archive_properties`, advancing: each round reads one
  /// entry from where the previous one ended, returns at End and pushes
  /// any other entry.
  method ReadArchiveProperties(input: Bytes) returns (r: Res<ArchiveProperties>)
    ensures r == ParseArchiveProperties(input)
  {
    var t := TagByte(ToByte(PropertyID.ArchiveProperties), input);
    if t.Fail? {
      return Fail(t.fault);
    }
    var props: seq<(PropertyID, Bytes)> := [];
    var rest := t.rest;
    PrependNothing(PropertiesFrom(rest));
    while true
      invariant PropertiesFrom(t.rest) == Prepend(props, PropertiesFrom(rest))
      decreases |rest|
    {
      var e := ParseArchiveProperty(rest);
      if e.Fail? {
        return Fail(e.fault);
      }
      if e.value.0 == End {
        assert props + [] == props;
        return Ok(ArchiveProperties.ArchiveProperties(props), e.rest);
      }
      PropertiesFromStep(rest);
      PrependTwice(props, e.value, PropertiesFrom(e.rest));
      props := props + [e.value];
      rest := e.rest;
    }
  }

  /// The first round of the loop as written reads an entry other than End,
  /// so that the loop never returns.
  predicate FirstEntryLoops(input: Bytes) {
    var t := TagByte(ToByte(PropertyID.ArchiveProperties), input);
    t.Ok? && ParseArchiveProperty(t.rest).Ok? && ParseArchiveProperty(t.rest).value.0 != End
  }

  /// `archive_properties` as written (`src/parser/parsers/header.rs:16-28`):
  /// the loop body binds `input` for itself only, so every round reads the
  /// entry right after the tag again. `rounds` bounds the rounds the
  /// unbounded loop is given; `None` means it had not returned by then.
  /// Whatever the bound, a first entry other than End is pushed over and
  /// over and the loop never returns; otherwise the first round returns
  /// what the advancing loop returns, so only an empty list is ever
  /// returned.
  method ReadArchivePropertiesAsWritten(input: Bytes, rounds: nat) returns (r: Option<Res<ArchiveProperties>>)
    ensures FirstEntryLoops(input) ==> r.None?
    ensures !FirstEntryLoops(input) && rounds > 0 ==> r == Some(ParseArchiveProperties(input))
    ensures r.Some? && r.value.Ok? ==> r.value.value.propertyData == []
  {
    var t := TagByte(ToByte(PropertyID.ArchiveProperties), input);
    if t.Fail? {
      return Some(Fail(t.fault));
    }
    var props: seq<(PropertyID, Bytes)> := [];
    var n := 0;
    while n < rounds
      invariant n <= rounds && |props| == n
      invariant n > 0 ==> FirstEntryLoops(input)
    {
      var e := ParseArchiveProperty(t.rest);
      if e.Fail? {
        return Some(Fail(e.fault));
      }
      if e.value.0 == End {
        return Some(Ok(ArchiveProperties.ArchiveProperties(props), e.rest));
      }
      props := props + [e.value];
      n := n + 1;
    }
    return None;
  }

  /// The list of archive properties a writer may store: no End among them
  /// (it would end the list) and lengths a `usize` can count.
  predicate Storable(props: seq<(PropertyID, Bytes)>) {
    forall i :: 0 <= i < |props| ==> props[i].0 != End && |props[i].1| <= USIZE_MAX
  }

  /// The bytes of the entries, one after another.
  function EntriesBytes(props: seq<(PropertyID, Bytes)>): Bytes
    requires forall i :: 0 <= i < |props| ==> |props[i].1| <= USIZE_MAX
  {
    if |props| == 0 then [] else EncodeArchiveProperty(props[0]) + EntriesBytes(props[1..])
  }

  /// The bytes of an archive-properties section: the tag, the entries, and
  /// an End entry carrying `endData`.
  function EncodeArchiveProperties(ap: ArchiveProperties, endData: Bytes): Bytes
    requires Storable(ap.propertyData) && |endData| <= USIZE_MAX
  {
    [ToByte(PropertyID.ArchiveProperties)] + EntriesBytes(ap.propertyData) + EncodeArchiveProperty((End, endData))
  }

  /// The entries are read back in order up to the End entry, whose data is
  /// consumed and dropped.
  lemma {:induction false} EntriesRoundTrip(props: seq<(PropertyID, Bytes)>, endData: Bytes, rest: Bytes)
    requires Storable(props) && |endData| <= USIZE_MAX
    ensures PropertiesFrom(EntriesBytes(props) + (EncodeArchiveProperty((End, endData)) + rest)) == Ok(props, rest)
    decreases |props|
  {
    if |props| == 0 {
      EntriesEnd(endData, rest);
    } else {
      var entry, more := props[0], props[1..];
      assert props == [entry] + more;
      assert Storable(more);
      EntriesRoundTrip(more, endData, rest);
      EntriesCons(entry, more, EncodeArchiveProperty((End, endData)) + rest, rest);
    }
  }

  lemma EntriesEnd(endData: Bytes, rest: Bytes)
    requires |endData| <= USIZE_MAX
    ensures PropertiesFrom(EntriesBytes([]) + (EncodeArchiveProperty((End, endData)) + rest)) == Ok([], rest)
  {
    var tail := EncodeArchiveProperty((End, endData)) + rest;
    assert EntriesBytes([]) + tail == tail;
    ArchivePropertyRoundTrip((End, endData), rest);
    PropertiesFromStep(tail);
  }

  lemma EntriesCons(entry: (PropertyID, Bytes), more: seq<(PropertyID, Bytes)>, tail: Bytes, rest: Bytes)
    requires entry.0 != End && |entry.1| <= USIZE_MAX && Storable(more)
    requires PropertiesFrom(EntriesBytes(more) + tail) == Ok(more, rest)
    ensures Storable([entry] + more)
    ensures PropertiesFrom(EntriesBytes([entry] + more) + tail) == Ok([entry] + more, rest)
  {
    var c := EntriesBytes(more);
    assert ([entry] + more)[1..] == more;
    assert EntriesBytes([entry] + more) == EncodeArchiveProperty(entry) + c;
    Assoc3(EncodeArchiveProperty(entry), c, tail);
    EntryThenMore(entry, c + tail, more, rest);
  }

  /// An entry other than End goes in front of the entries after it.
  lemma EntryThenMore(entry: (PropertyID, Bytes), after: Bytes, more: seq<(PropertyID, Bytes)>, rest: Bytes)
    requires entry.0 != End && |entry.1| <= USIZE_MAX
    requires PropertiesFrom(after) == Ok(more, rest)
    ensures PropertiesFrom(EncodeArchiveProperty(entry) + after) == Ok([entry] + more, rest)
  {
    ArchivePropertyRoundTrip(entry, after);
    PropertiesFromStep(EncodeArchiveProperty(entry) + after);
  }

  /// Round trip of the archive-properties section, whatever data the End
  /// entry carries.
  lemma ArchivePropertiesRoundTrip(ap: ArchiveProperties, endData: Bytes, rest: Bytes)
    requires Storable(ap.propertyData) && |endData| <= USIZE_MAX
    ensures ParseArchiveProperties(EncodeArchiveProperties(ap, endData) + rest) == Ok(ap, rest)
  {
    var c := EntriesBytes(ap.propertyData);
    var e := EncodeArchiveProperty((End, endData));
    Assoc4([ToByte(PropertyID.ArchiveProperties)], c, e, rest);
    TagByteOk(ToByte(PropertyID.ArchiveProperties), c + (e + rest));
    EntriesRoundTrip(ap.propertyData, endData, rest);
  }

  /// An entry before End makes the loop as written run forever, while the
  /// advancing loop reads the section: the tag, one Comment entry with no
  /// data, and End.
  lemma LoopCounterexample(rest: Bytes)
    ensures var input := EncodeArchiveProperties(ArchiveProperties.ArchiveProperties([(Comment, [])]), []) + rest;
      && FirstEntryLoops(input)
      && ParseArchiveProperties(input) == Ok(ArchiveProperties.ArchiveProperties([(Comment, [])]), rest)
  {
    var ap := ArchiveProperties.ArchiveProperties([(Comment, [])]);
    var c := EntriesBytes(ap.propertyData);
    var e := EncodeArchiveProperty((End, []));
    ArchivePropertiesRoundTrip(ap, [], rest);
    Assoc4([ToByte(PropertyID.ArchiveProperties)], c, e, rest);
    TagByteOk(ToByte(PropertyID.ArchiveProperties), c + (e + rest));
    assert c == EncodeArchiveProperty((Comment, [])) + EntriesBytes(ap.propertyData[1..]);
    assert c == EncodeArchiveProperty((Comment, []));
    ArchivePropertyRoundTrip((Comment, []), e + rest);
    ToByteInjective(Comment, End);
  }

  // ---------------------------------------------------------------------
  // header

  /// The empty-stream count `header` passes to `files_info`
  /// (`src/parser/parsers/header.rs:71-72`), whatever the streams say.
  const HeaderNumEmptyStreams: Usize := 0

  /// The folder count `header` hands to the main streams section: the one
  /// of the additional section's coders, when both exist.
  function MainNumFolders(additional: Option<StreamsInfo>): (n: Option<Usize>)
    ensures n.Some? <==> additional.Some? && additional.value.codersInfo.Some?
    ensures n.Some? ==> n.value == additional.value.codersInfo.value.numFolders
  {
    if additional.Some? && additional.value.codersInfo.Some? then Some(additional.value.codersInfo.value.numFolders)
    else None
  }

  function StreamsInfoP(numFolders: Option<Usize>): Bytes -> Res<StreamsInfo> {
    x => ParseStreamsInfo(x, numFolders)
  }

  /// `header`: the Header tag, then the optional sections in their fixed
  /// order, then End. Anything but the Header tag first (an EncodedHeader
  /// in particular) is a recoverable mismatch.
  function ParseHeader(input: Bytes): (r: Res<Header>)
    ensures !Tagged(PropertyID.Header, input) ==> r == Fail(Error(Nom(Tag)))
    ensures r.Ok? && r.value.additionalStreams.Some? ==> r.value.additionalStreams.value.codersInfo.Some?
    ensures r.Ok? && r.value.mainStreams.Some? ==>
      ResolveNumFolders(MainNumFolders(r.value.additionalStreams), r.value.mainStreams.value.codersInfo).Some?
  {
    var h :- TagByte(ToByte(PropertyID.Header), input);
    var props :- Opt(ParseArchiveProperties(h.rest), h.rest);
    HeaderAdditional(props.value, props.rest)
  }

  /// The additional streams section, read with no folder count.
  function HeaderAdditional(props: Option<ArchiveProperties>, input: Bytes): (r: Res<Header>)
    ensures r.Ok? ==> r.value.archiveProperties == props
    ensures r.Ok? && r.value.additionalStreams.Some? ==> r.value.additionalStreams.value.codersInfo.Some?
    ensures r.Ok? && r.value.mainStreams.Some? ==>
      ResolveNumFolders(MainNumFolders(r.value.additionalStreams), r.value.mainStreams.value.codersInfo).Some?
  {
    // A tag mismatch is recoverable, so `opt` of the tag always succeeds.
    var asi := Opt(TagByte(ToByte(PropertyID.AdditionalStreamsInfo), input), input);
    var additional :- Cond(asi.value.Some?, StreamsInfoP(None), asi.rest);
    HeaderMain(props, additional.value, additional.rest)
  }

  /// The main streams section, read with the additional section's folder
  /// count.
  function HeaderMain(props: Option<ArchiveProperties>, additional: Option<StreamsInfo>, input: Bytes): (r: Res<Header>)
    ensures r.Ok? ==> r.value.archiveProperties == props && r.value.additionalStreams == additional
    ensures r.Ok? && r.value.mainStreams.Some? ==>
      ResolveNumFolders(MainNumFolders(additional), r.value.mainStreams.value.codersInfo).Some?
  {
    var msi := Opt(TagByte(ToByte(PropertyID.MainStreamsInfo), input), input);
    var main :- Cond(msi.value.Some?, StreamsInfoP(MainNumFolders(additional)), msi.rest);
    HeaderFiles(props, additional, main.value, main.rest)
  }

  /// The files section, read with no empty streams, and the End tag.
  function HeaderFiles(props: Option<ArchiveProperties>, additional: Option<StreamsInfo>, main: Option<StreamsInfo>,
      input: Bytes): (r: Res<Header>)
    ensures r.Ok? ==> r.value.archiveProperties == props && r.value.additionalStreams == additional
    ensures r.Ok? ==> r.value.mainStreams == main
  {
    var files :- Opt(ParseFilesInfo(input, HeaderNumEmptyStreams), input);
    var end :- TagByte(ToByte(End), files.rest);
    Ok(Header.Header(props, additional, main, files.value), end.rest)
  }

  // ---------------------------------------------------------------------
  // Header round trip

  /// What a header needs so that it is read back: storable archive
  /// properties, an additional section with its own coders (it is read
  /// with no folder count), a main section whose folder count can be
  /// settled, and a files section that fits the empty-stream count 0.
  predicate HeaderEncodable(h: Header) {
    && (h.archiveProperties.Some? ==> Storable(h.archiveProperties.value.propertyData))
    && (h.additionalStreams.Some? ==>
          StreamsInfoShape(h.additionalStreams.value) && h.additionalStreams.value.codersInfo.Some?)
    && (h.mainStreams.Some? ==>
          StreamsInfoShape(h.mainStreams.value) &&
          ResolveNumFolders(MainNumFolders(h.additionalStreams), h.mainStreams.value.codersInfo).Some?)
    && (h.files.Some? ==> FilesInfoFits(h.files.value, HeaderNumEmptyStreams))
  }

  function PropsBytes(ap: Option<ArchiveProperties>): Bytes
    requires ap.Some? ==> Storable(ap.value.propertyData)
  {
    match ap
    case Some(a) => EncodeArchiveProperties(a, [])
    case None => []
  }

  /// A streams section behind its tag, or nothing.
  function SectionBytes(tag: PropertyID, si: Option<StreamsInfo>): Bytes
    requires si.Some? ==> StreamsInfoShape(si.value)
  {
    match si
    case Some(s) => [ToByte(tag)] + EncodeStreamsInfo(s)
    case None => []
  }

  function FilesBytes(files: Option<FilesInfo>): Bytes {
    match files
    case Some(f) => EncodeFilesInfo(f)
    case None => []
  }

  /// The bytes of a header.
  function EncodeHeader(h: Header): Bytes
    requires HeaderEncodable(h)
  {
    [ToByte(PropertyID.Header)] + PropsBytes(h.archiveProperties)
      + SectionBytes(PropertyID.AdditionalStreamsInfo, h.additionalStreams)
      + SectionBytes(PropertyID.MainStreamsInfo, h.mainStreams)
      + FilesBytes(h.files) + [ToByte(End)]
  }

  /// A header as `header` returns it: its files section as read, MTime
  /// records coming back as ATime.
  function AsReadHeader(h: Header): Header {
    match h.files
    case Some(f) => h.(files := Some(FilesInfo.FilesInfo(f.numFiles, AllAsRead(f.properties))))
    case None => h
  }

  /// Round trip: every encodable header is read back, the files section as
  /// `files_info` reads it, and its bytes are consumed exactly.
  lemma HeaderRoundTrip(h: Header, rest: Bytes)
    requires HeaderEncodable(h)
    ensures ParseHeader(EncodeHeader(h) + rest) == Ok(AsReadHeader(h), rest)
  {
    PropsStage(h, rest);
    AdditionalStage(h, rest);
    MainStage(h, rest);
    FilesStage(h, rest);
  }

  lemma HeaderTags()
    ensures ToByte(End) == 0x00 && ToByte(PropertyID.Header) == 0x01
    ensures ToByte(PropertyID.ArchiveProperties) == 0x02 && ToByte(PropertyID.AdditionalStreamsInfo) == 0x03
    ensures ToByte(PropertyID.MainStreamsInfo) == 0x04 && ToByte(PropertyID.FilesInfo) == 0x05
    ensures ToByte(EncodedHeader) == 0x17
  {
    TagValue(End, 0x00);
    TagValue(PropertyID.Header, 0x01);
    TagValue(PropertyID.ArchiveProperties, 0x02);
    TagValue(PropertyID.AdditionalStreamsInfo, 0x03);
    TagValue(PropertyID.MainStreamsInfo, 0x04);
    TagValue(PropertyID.FilesInfo, 0x05);
    TagValue(EncodedHeader, 0x17);
  }

  /// The bytes after the main streams section.
  function FilesTail(files: Option<FilesInfo>, rest: Bytes): Bytes {
    FilesBytes(files) + ([ToByte(End)] + rest)
  }

  /// The bytes after the additional streams section.
  function MainTail(h: Header, rest: Bytes): Bytes
    requires HeaderEncodable(h)
  {
    SectionBytes(PropertyID.MainStreamsInfo, h.mainStreams) + FilesTail(h.files, rest)
  }

  /// The bytes after the archive properties.
  function AdditionalTail(h: Header, rest: Bytes): Bytes
    requires HeaderEncodable(h)
  {
    SectionBytes(PropertyID.AdditionalStreamsInfo, h.additionalStreams) + MainTail(h, rest)
  }

  /// What follows the main streams section starts with FilesInfo or End.
  lemma FilesTailFirst(files: Option<FilesInfo>, rest: Bytes)
    ensures var t := FilesTail(files, rest);
      |t| >= 1 && 0x00 <= t[0] <= 0x05 && (t[0] == 0x00 || t[0] == 0x05)
  {
    HeaderTags();
    if files.None? {
      assert FilesTail(files, rest) == [ToByte(End)] + rest;
    }
  }

  /// What follows the additional streams section starts with
  /// MainStreamsInfo, FilesInfo or End.
  lemma MainTailFirst(h: Header, rest: Bytes)
    requires HeaderEncodable(h)
    ensures var t := MainTail(h, rest);
      |t| >= 1 && (t[0] == 0x00 || t[0] == 0x04 || t[0] == 0x05)
  {
    HeaderTags();
    FilesTailFirst(h.files, rest);
    if h.mainStreams.None? {
      assert MainTail(h, rest) == FilesTail(h.files, rest);
    }
  }

  /// What follows the archive properties starts with a section tag or End.
  lemma AdditionalTailFirst(h: Header, rest: Bytes)
    requires HeaderEncodable(h)
    ensures var t := AdditionalTail(h, rest);
      |t| >= 1 && (t[0] == 0x00 || t[0] == 0x03 || t[0] == 0x04 || t[0] == 0x05)
  {
    HeaderTags();
    MainTailFirst(h, rest);
    if h.additionalStreams.None? {
      assert AdditionalTail(h, rest) == MainTail(h, rest);
    }
  }

  lemma PropsStage(h: Header, rest: Bytes)
    requires HeaderEncodable(h)
    ensures ParseHeader(EncodeHeader(h) + rest) == HeaderAdditional(h.archiveProperties, AdditionalTail(h, rest))
  {
    var pb := PropsBytes(h.archiveProperties);
    var t := AdditionalTail(h, rest);
    HeaderLayout(h, rest);
    TagByteOk(ToByte(PropertyID.Header), pb + t);
    AdditionalTailFirst(h, rest);
    PropsRead(h.archiveProperties, t);
  }

  lemma HeaderLayout(h: Header, rest: Bytes)
    requires HeaderEncodable(h)
    ensures EncodeHeader(h) + rest == [ToByte(PropertyID.Header)] + (PropsBytes(h.archiveProperties) + AdditionalTail(h, rest))
  {
    Assoc7([ToByte(PropertyID.Header)], PropsBytes(h.archiveProperties),
      SectionBytes(PropertyID.AdditionalStreamsInfo, h.additionalStreams),
      SectionBytes(PropertyID.MainStreamsInfo, h.mainStreams), FilesBytes(h.files), [ToByte(End)], rest);
  }

  /// The optional archive properties are read back before a section tag
  /// or End.
  lemma PropsRead(ap: Option<ArchiveProperties>, t: Bytes)
    requires ap.Some? ==> Storable(ap.value.propertyData)
    requires |t| >= 1 && (t[0] == 0x00 || t[0] == 0x03 || t[0] == 0x04 || t[0] == 0x05)
    ensures Opt(ParseArchiveProperties(PropsBytes(ap) + t), PropsBytes(ap) + t) == Ok(ap, t)
  {
    if ap.Some? {
      ArchivePropertiesRoundTrip(ap.value, [], t);
    } else {
      assert PropsBytes(ap) + t == t;
      HeaderTags();
    }
  }

  lemma AdditionalStage(h: Header, rest: Bytes)
    requires HeaderEncodable(h)
    ensures HeaderAdditional(h.archiveProperties, AdditionalTail(h, rest)) ==
      HeaderMain(h.archiveProperties, h.additionalStreams, MainTail(h, rest))
  {
    MainTailFirst(h, rest);
    HeaderTags();
    SectionRead(PropertyID.AdditionalStreamsInfo, h.additionalStreams, None, MainTail(h, rest));
  }

  lemma MainStage(h: Header, rest: Bytes)
    requires HeaderEncodable(h)
    ensures HeaderMain(h.archiveProperties, h.additionalStreams, MainTail(h, rest)) ==
      HeaderFiles(h.archiveProperties, h.additionalStreams, h.mainStreams, FilesTail(h.files, rest))
  {
    FilesTailFirst(h.files, rest);
    HeaderTags();
    SectionRead(PropertyID.MainStreamsInfo, h.mainStreams, MainNumFolders(h.additionalStreams), FilesTail(h.files, rest));
  }

  /// An optional streams section behind its tag is read back, given a
  /// folder count that settles it; when absent, the next byte is some
  /// other tag and nothing is consumed.
  lemma SectionRead(tag: PropertyID, si: Option<StreamsInfo>, numFolders: Option<Usize>, t: Bytes)
    requires si.Some? ==> StreamsInfoShape(si.value) && ResolveNumFolders(numFolders, si.value.codersInfo).Some?
    requires si.None? ==> !Tagged(tag, t)
    ensures var input := SectionBytes(tag, si) + t;
      var have := Opt(TagByte(ToByte(tag), input), input);
      && have.Ok? && (have.value.Some? <==> si.Some?)
      && Cond(have.value.Some?, StreamsInfoP(numFolders), have.rest) == Ok(si, t)
  {
    if si.Some? {
      var s := si.value;
      Assoc3([ToByte(tag)], EncodeStreamsInfo(s), t);
      TagByteOk(ToByte(tag), EncodeStreamsInfo(s) + t);
      StreamsInfoRoundTrip(s, numFolders, t);
    } else {
      assert SectionBytes(tag, si) + t == t;
    }
  }

  lemma FilesStage(h: Header, rest: Bytes)
    requires HeaderEncodable(h)
    ensures HeaderFiles(h.archiveProperties, h.additionalStreams, h.mainStreams, FilesTail(h.files, rest)) ==
      Ok(AsReadHeader(h), rest)
  {
    TagByteOk(ToByte(End), rest);
    if h.files.Some? {
      FilesInfoRoundTrip(h.files.value, HeaderNumEmptyStreams, [ToByte(End)] + rest);
    } else {
      assert FilesTail(h.files, rest) == [ToByte(End)] + rest;
      HeaderTags();
    }
  }

  /// An EncodedHeader, which `header` does not handle, is refused at its
  /// first byte.
  lemma EncodedHeaderRejected(rest: Bytes)
    ensures ParseHeader([ToByte(EncodedHeader)] + rest) == Fail(Error(Nom(Tag)))
  {
    HeaderTags();
  }

  /// Main streams without coders are read only with the folder count of
  /// the additional section's coders.
  lemma MainStreamsBorrowFolders(input: Bytes)
    requires ParseHeader(input).Ok?
    requires ParseHeader(input).value.mainStreams.Some?
    requires ParseHeader(input).value.mainStreams.value.codersInfo.None?
    ensures ParseHeader(input).value.additionalStreams.Some?
    ensures ParseHeader(input).value.additionalStreams.value.codersInfo.Some?
  {
    var h := ParseHeader(input).value;
    assert ResolveNumFolders(MainNumFolders(h.additionalStreams), h.mainStreams.value.codersInfo).Some?;
  }

  /// A header whose first section is tagged `b`, other than
  /// ArchiveProperties, goes straight to the additional section.
  lemma NoPropertiesFirst(b: bv8, t: Bytes)
    requires b != ToByte(PropertyID.ArchiveProperties)
    ensures ParseHeader([ToByte(PropertyID.Header), b] + t) == HeaderAdditional(None, [b] + t)
  {
    var input := [ToByte(PropertyID.Header), b] + t;
    var rest := [b] + t;
    assert input == [ToByte(PropertyID.Header)] + rest;
    TagByteOk(ToByte(PropertyID.Header), rest);
    assert !Tagged(PropertyID.ArchiveProperties, rest);
    assert Opt(ParseArchiveProperties(rest), rest) == Ok(None, rest);
  }

  lemma MainSectionWithoutFolders(si: StreamsInfo, rest: Bytes)
    requires StreamsInfoShape(si) && si.codersInfo.None?
    ensures HeaderAdditional(None, [ToByte(PropertyID.MainStreamsInfo)] + EncodeStreamsInfo(si) + rest) ==
      Fail(Failure(CouldNotDetermineNumFolders))
  {
    var t := EncodeStreamsInfo(si) + rest;
    assert [ToByte(PropertyID.MainStreamsInfo)] + EncodeStreamsInfo(si) + rest == [ToByte(PropertyID.MainStreamsInfo)] + t;
    TagByteOk(ToByte(PropertyID.MainStreamsInfo), t);
    HeaderTags();
    StreamsInfoNeedsFolderCount(si, rest);
  }

  /// With no additional section, main streams without coders make the
  /// header fail with `CouldNotDetermineNumFolders`.
  lemma MainStreamsWithoutFoldersRejected(si: StreamsInfo, rest: Bytes)
    requires StreamsInfoShape(si) && si.codersInfo.None?
    ensures ParseHeader([ToByte(PropertyID.Header), ToByte(PropertyID.MainStreamsInfo)] + EncodeStreamsInfo(si) + rest) ==
      Fail(Failure(CouldNotDetermineNumFolders))
  {
    var t := EncodeStreamsInfo(si) + rest;
    assert [ToByte(PropertyID.Header), ToByte(PropertyID.MainStreamsInfo)] + EncodeStreamsInfo(si) + rest ==
      [ToByte(PropertyID.Header), ToByte(PropertyID.MainStreamsInfo)] + t;
    assert [ToByte(PropertyID.MainStreamsInfo)] + EncodeStreamsInfo(si) + rest == [ToByte(PropertyID.MainStreamsInfo)] + t;
    HeaderTags();
    NoPropertiesFirst(ToByte(PropertyID.MainStreamsInfo), t);
    MainSectionWithoutFolders(si, rest);
  }

  lemma AdditionalSectionWithoutFolders(si: StreamsInfo, rest: Bytes)
    requires StreamsInfoShape(si) && si.codersInfo.None?
    ensures HeaderAdditional(None, [ToByte(PropertyID.AdditionalStreamsInfo)] + EncodeStreamsInfo(si) + rest) ==
      Fail(Failure(CouldNotDetermineNumFolders))
  {
    var t := EncodeStreamsInfo(si) + rest;
    assert [ToByte(PropertyID.AdditionalStreamsInfo)] + EncodeStreamsInfo(si) + rest == [ToByte(PropertyID.AdditionalStreamsInfo)] + t;
    TagByteOk(ToByte(PropertyID.AdditionalStreamsInfo), t);
    StreamsInfoNeedsFolderCount(si, rest);
  }

  /// An additional section is read with no folder count, so one without
  /// coders makes the header fail with `CouldNotDetermineNumFolders`.
  lemma AdditionalStreamsWithoutFoldersRejected(si: StreamsInfo, rest: Bytes)
    requires StreamsInfoShape(si) && si.codersInfo.None?
    ensures ParseHeader([ToByte(PropertyID.Header), ToByte(PropertyID.AdditionalStreamsInfo)] + EncodeStreamsInfo(si) + rest) ==
      Fail(Failure(CouldNotDetermineNumFolders))
  {
    var t := EncodeStreamsInfo(si) + rest;
    assert [ToByte(PropertyID.Header), ToByte(PropertyID.AdditionalStreamsInfo)] + EncodeStreamsInfo(si) + rest ==
      [ToByte(PropertyID.Header), ToByte(PropertyID.AdditionalStreamsInfo)] + t;
    assert [ToByte(PropertyID.AdditionalStreamsInfo)] + EncodeStreamsInfo(si) + rest == [ToByte(PropertyID.AdditionalStreamsInfo)] + t;
    HeaderTags();
    NoPropertiesFirst(ToByte(PropertyID.AdditionalStreamsInfo), t);
    AdditionalSectionWithoutFolders(si, rest);
  }
}
