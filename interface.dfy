/// The high-level view of a parsed header (`src/parser/interface/`): the
/// streams the coders of the folders produce, and one file's times, name
/// and stream.
module Interface {
  import opened Base
  import opened Err
  import opened Parsers
  import opened Coders
  import opened Files

  // ---------------------------------------------------------------------
  // get_file_streams_info

  /// `FileStreamInfo` (`src/parser/interface/streams.rs:9-14`).
  datatype FileStreamInfo = FileStreamInfo(coder: Coder, offset: U64, size: U64, crc: U32)

  /// Two outcomes one after the other: the first panic wins, otherwise the
  /// entries are joined.
  function Then<T>(a: OrPanic<seq<T>>, b: OrPanic<seq<T>>): OrPanic<seq<T>> {
    if a.Panicked? then a else if b.Panicked? then b else Value(a.value + b.value)
  }

  /// `n` entries for coder `c`, each with unpack size `size`, offset 0 and
  /// CRC 0.
  function Entries(c: Coder, size: U64, n: nat): (r: seq<FileStreamInfo>)
    ensures |r| == n
    ensures forall k :: 0 <= k < n ==> r[k] == FileStreamInfo(c, 0, size, 0)
  {
    seq(n, _ => FileStreamInfo(c, 0, size, 0))
  }

  /// What the innermost loop adds for one coder of folder `i`: one entry
  /// per out stream, each with the unpack size at the folder's index.
  function CoderStreams(c: Coder, sizes: seq<U64>, i: nat): (r: OrPanic<seq<FileStreamInfo>>)
  {
    var n :- GetNumOutStreams(c);
    if n == 0 then Value([])
    else if i >= |sizes| then Panicked(StreamSizeIndexOutOfBounds)
    else Value(Entries(c, sizes[i], n))
  }

  /// What the middle loop adds for the coders `cs` of folder `i`.
  function CodersStreams(cs: seq<Coder>, sizes: seq<U64>, i: nat): (r: OrPanic<seq<FileStreamInfo>>)
    ensures r.Value? ==> |r.value| == SumOut(cs)
    ensures r.Value? ==> forall k :: 0 <= k < |r.value| ==>
      i < |sizes| && r.value[k].coder in cs && r.value[k] == FileStreamInfo(r.value[k].coder, 0, sizes[i], 0)
    decreases |cs|
  {
    if |cs| == 0 then Value([])
    else
      var init := cs[..|cs| - 1];
      SumOutSnoc(cs);
      GetNumOutStreamsAgrees(cs[|cs| - 1]);
      assert forall c :: c in init ==> c in cs;
      Then(CodersStreams(init, sizes, i), CoderStreams(cs[|cs| - 1], sizes, i))
  }

  /// The out-stream count of all coders of all folders.
  function TotalOut(folders: seq<Folder>): nat
    decreases |folders|
  {
    if |folders| == 0 then 0 else TotalOut(folders[..|folders| - 1]) + SumOut(folders[|folders| - 1].coders)
  }

  /// What the outer loop builds over the folders, in order.
  function FoldersStreams(folders: seq<Folder>, sizes: seq<U64>): (r: OrPanic<seq<FileStreamInfo>>)
    ensures r.Value? ==> |r.value| == TotalOut(folders)
    ensures r.Value? ==> forall k :: 0 <= k < |r.value| ==> r.value[k].offset == 0 && r.value[k].crc == 0
    decreases |folders|
  {
    if |folders| == 0 then Value([])
    else
      Then(FoldersStreams(folders[..|folders| - 1], sizes),
        CodersStreams(folders[|folders| - 1].coders, sizes, |folders| - 1))
  }

  /// `get_file_streams_info`: the streams of every coder of every folder;
  /// folders stored externally are not supported and panic.
  function FileStreams(ci: CodersInfo): (r: OrPanic<seq<FileStreamInfo>>)
    ensures ci.foldersOrDataStreamIndex.Left? ==> r == Panicked(StreamsExternalFolders)
  {
    match ci.foldersOrDataStreamIndex
    case Left(_) => Panicked(StreamsExternalFolders)
    case Right(folders) => FoldersStreams(folders, ci.streamsUnpackSizes)
  }

  /// `get_file_streams_info` with its three nested loops: folders, their
  /// coders, each coder's out streams. The size index `i` moves once per
  /// folder (`src/parser/interface/streams.rs:28-45`); the two inner loops
  /// are the methods `PushFolderStreams` and `PushCoderStreams`.
  method GetFileStreamsInfo(ci: CodersInfo) returns (r: OrPanic<seq<FileStreamInfo>>)
    ensures r == FileStreams(ci)
  {
    if ci.foldersOrDataStreamIndex.Left? {
      return Panicked(StreamsExternalFolders);
    }
    var folders := ci.foldersOrDataStreamIndex.right;
    var sizes := ci.streamsUnpackSizes;
    var res: seq<FileStreamInfo> := [];
    var i := 0;
    for f := 0 to |folders|
      invariant i == f
      invariant FoldersStreams(folders[..f], sizes) == Value(res)
    {
      FoldersStep(folders, f, sizes);
      var next := PushFolderStreams(res, folders[f].coders, sizes, i);
      if next.Panicked? {
        FoldersPanicSticks(folders, f + 1, sizes);
        return next;
      }
      res := next.value;
      i := i + 1;
    }
    assert folders[..|folders|] == folders;
    return Value(res);
  }

  /// The middle loop: the entries of every coder of folder `i`, appended to
  /// `res`.
  method PushFolderStreams(res: seq<FileStreamInfo>, coders: seq<Coder>, sizes: seq<U64>, i: nat)
    returns (r: OrPanic<seq<FileStreamInfo>>)
    ensures r == Then(Value(res), CodersStreams(coders, sizes, i))
  {
    var acc := res;
    for k := 0 to |coders|
      invariant CodersStreams(coders[..k], sizes, i).Value?
      invariant acc == res + CodersStreams(coders[..k], sizes, i).value
    {
      CodersStep(coders, k, sizes, i);
      var next := PushCoderStreams(acc, coders[k], sizes, i);
      if next.Panicked? {
        CodersPanicSticks(coders, k + 1, sizes, i);
        return next;
      }
      acc := next.value;
    }
    assert coders[..|coders|] == coders;
    return Value(acc);
  }

  /// The innermost loop: one entry per out stream of `coder`, each with the
  /// unpack size at index `i`, appended to `res`.
  method PushCoderStreams(res: seq<FileStreamInfo>, coder: Coder, sizes: seq<U64>, i: nat)
    returns (r: OrPanic<seq<FileStreamInfo>>)
    ensures r == Then(Value(res), CoderStreams(coder, sizes, i))
  {
    var n := GetNumOutStreams(coder);
    if n.Panicked? {
      return Panicked(n.site);
    }
    var acc := res;
    for s := 0 to n.value
      invariant i < |sizes| ==> acc == res + Entries(coder, sizes[i], s)
      invariant i >= |sizes| ==> s == 0 && acc == res
    {
      if i >= |sizes| {
        return Panicked(StreamSizeIndexOutOfBounds);
      }
      EntriesSnoc(coder, sizes[i], s);
      acc := acc + [FileStreamInfo(coder, 0, sizes[i], 0)];
    }
    if n.value == 0 {
      assert acc == res + [];
    }
    return Value(acc);
  }

  lemma EntriesSnoc(c: Coder, size: U64, n: nat)
    ensures Entries(c, size, n + 1) == Entries(c, size, n) + [FileStreamInfo(c, 0, size, 0)]
  {
  }

  lemma CodersStep(cs: seq<Coder>, k: nat, sizes: seq<U64>, i: nat)
    requires k < |cs|
    ensures CodersStreams(cs[..k + 1], sizes, i) == Then(CodersStreams(cs[..k], sizes, i), CoderStreams(cs[k], sizes, i))
  {
    assert cs[..k + 1][..k] == cs[..k];
  }

  lemma FoldersStep(folders: seq<Folder>, f: nat, sizes: seq<U64>)
    requires f < |folders|
    ensures FoldersStreams(folders[..f + 1], sizes) ==
      Then(FoldersStreams(folders[..f], sizes), CodersStreams(folders[f].coders, sizes, f))
  {
    assert folders[..f + 1][..f] == folders[..f];
  }

  lemma {:induction false} CodersPanicSticks(cs: seq<Coder>, k: nat, sizes: seq<U64>, i: nat)
    requires k <= |cs| && CodersStreams(cs[..k], sizes, i).Panicked?
    ensures CodersStreams(cs, sizes, i) == CodersStreams(cs[..k], sizes, i)
    decreases |cs| - k
  {
    if k < |cs| {
      assert cs[..k + 1][..k] == cs[..k];
      assert CodersStreams(cs[..k + 1], sizes, i) == CodersStreams(cs[..k], sizes, i);
      CodersPanicSticks(cs, k + 1, sizes, i);
    } else {
      assert cs[..k] == cs;
    }
  }

  lemma {:induction false} FoldersPanicSticks(folders: seq<Folder>, f: nat, sizes: seq<U64>)
    requires f <= |folders| && FoldersStreams(folders[..f], sizes).Panicked?
    ensures FoldersStreams(folders, sizes) == FoldersStreams(folders[..f], sizes)
    decreases |folders| - f
  {
    if f < |folders| {
      assert folders[..f + 1][..f] == folders[..f];
      assert FoldersStreams(folders[..f + 1], sizes) == FoldersStreams(folders[..f], sizes);
      FoldersPanicSticks(folders, f + 1, sizes);
    } else {
      assert folders[..f] == folders;
    }
  }

  /// `SumOut` taken from the back.
  lemma {:induction false} SumOutSnoc(cs: seq<Coder>)
    requires |cs| > 0
    ensures SumOut(cs) == SumOut(cs[..|cs| - 1]) + OutStreams(cs[|cs| - 1])
    decreases |cs|
  {
    if |cs| > 1 {
      SumOutSnoc(cs[1..]);
      assert cs[1..][..|cs[1..]| - 1] == cs[..|cs| - 1][1..];
    }
  }

  // ---------------------------------------------------------------------
  // When get_file_streams_info succeeds, and what it yields

  /// Every coder's out-stream count fits `usize`, and when the coders have
  /// any out stream at all there is an unpack size at the folder index `i`.
  predicate CodersFit(cs: seq<Coder>, sizes: seq<U64>, i: nat) {
    && (forall k :: 0 <= k < |cs| ==> OutStreams(cs[k]) <= USIZE_MAX)
    && (SumOut(cs) > 0 ==> i < |sizes|)
  }

  /// Each folder's coders fit, with the folder's own position as the index.
  predicate FoldersFit(folders: seq<Folder>, sizes: seq<U64>) {
    forall f :: 0 <= f < |folders| ==> CodersFit(folders[f].coders, sizes, f)
  }

  lemma {:induction false} CodersStreamsSucceed(cs: seq<Coder>, sizes: seq<U64>, i: nat)
    ensures CodersStreams(cs, sizes, i).Value? <==> CodersFit(cs, sizes, i)
    decreases |cs|
  {
    if |cs| > 0 {
      var init, last := cs[..|cs| - 1], cs[|cs| - 1];
      SumOutSnoc(cs);
      GetNumOutStreamsAgrees(last);
      assert forall k :: 0 <= k < |init| ==> init[k] == cs[k];
      CodersStreamsSucceed(init, sizes, i);
    }
  }

  lemma {:induction false} FoldersStreamsSucceed(folders: seq<Folder>, sizes: seq<U64>)
    ensures FoldersStreams(folders, sizes).Value? <==> FoldersFit(folders, sizes)
    decreases |folders|
  {
    if |folders| > 0 {
      var init, f := folders[..|folders| - 1], |folders| - 1;
      FoldersFitSnoc(folders, sizes);
      CodersStreamsSucceed(folders[f].coders, sizes, f);
      FoldersStreamsSucceed(init, sizes);
    }
  }

  lemma FoldersFitSnoc(folders: seq<Folder>, sizes: seq<U64>)
    requires |folders| > 0
    ensures var f := |folders| - 1;
      FoldersFit(folders, sizes) <==> FoldersFit(folders[..f], sizes) && CodersFit(folders[f].coders, sizes, f)
  {
    var init := folders[..|folders| - 1];
    assert forall g :: 0 <= g < |init| ==> init[g] == folders[g];
  }

  /// `get_file_streams_info` returns (rather than panics) exactly when the
  /// folders are stored inline and every folder fits.
  lemma FileStreamsSucceed(ci: CodersInfo)
    ensures FileStreams(ci).Value? <==>
      ci.foldersOrDataStreamIndex.Right? && FoldersFit(ci.foldersOrDataStreamIndex.right, ci.streamsUnpackSizes)
  {
    if ci.foldersOrDataStreamIndex.Right? {
      FoldersStreamsSucceed(ci.foldersOrDataStreamIndex.right, ci.streamsUnpackSizes);
    }
  }

  /// The one-folder, one-copy-coder case of `src/parser/interface/streams.rs:55-85`.
  lemma SingleFolderSingleCoder()
    ensures
      var coder := Coder(None, None, [33, 1]);
      var ci := CodersInfo(1, Right([Folder([coder], [], Some([0]))]), [15], None);
      FileStreams(ci) == Value([FileStreamInfo(coder, 0, 15, 0)])
  {
    var coder := Coder(None, None, [33, 1]);
    var cs := [coder];
    var folders := [Folder(cs, [], Some([0]))];
    assert cs[..0] == [] && folders[..0] == [];
    assert CoderStreams(coder, [15], 0) == Value(Entries(coder, 15, 1));
    CodersStep(cs, 0, [15], 0);
    assert [] + Entries(coder, 15, 1) == Entries(coder, 15, 1);
    assert CodersStreams(cs, [15], 0) == Value(Entries(coder, 15, 1));
    FoldersStep(folders, 0, [15]);
    assert Entries(coder, 15, 1) == [FileStreamInfo(coder, 0, 15, 0)];
  }

  /// The index into the unpack sizes moves once per folder, not once per
  /// stream: a coder with two out streams gets the first folder's size for
  /// both, and the second size is never read.
  lemma SizeIndexPerFolder(a: U64, b: U64)
    ensures
      var coder := Coder(Some(CoderComplex(1, 2)), None, [0]);
      var ci := CodersInfo(1, Right([Folder([coder], [], None)]), [a, b], None);
      FileStreams(ci) == Value([FileStreamInfo(coder, 0, a, 0), FileStreamInfo(coder, 0, a, 0)])
  {
    var coder := Coder(Some(CoderComplex(1, 2)), None, [0]);
    var cs := [coder];
    var folders := [Folder(cs, [], None)];
    assert cs[..0] == [] && folders[..0] == [];
    assert CoderStreams(coder, [a, b], 0) == Value(Entries(coder, a, 2));
    CodersStep(cs, 0, [a, b], 0);
    assert [] + Entries(coder, a, 2) == Entries(coder, a, 2);
    assert CodersStreams(cs, [a, b], 0) == Value(Entries(coder, a, 2));
    FoldersStep(folders, 0, [a, b]);
    assert Entries(coder, a, 2) == [FileStreamInfo(coder, 0, a, 0), FileStreamInfo(coder, 0, a, 0)];
  }

  // ---------------------------------------------------------------------
  // File (src/parser/interface/file.rs)

  /// `File` (`src/parser/interface/file.rs:10-19`).
  datatype File = File(ctime: Option<U64>, atime: Option<U64>, mtime: Option<U64>, name: string, stream: FileStreamInfo)

  /// One of the three time lookups of `from_files_and_coders_info`: the
  /// property `get_property` gave back is read only when it is a `CTime`
  /// (the pattern all three lookups use); a time stored externally and any
  /// other property panic at the lookup's own site.
  function TimeAt(prop: Option<FilesProperty>, index: nat, external: PanicSite, unexpected: PanicSite): (r: OrPanic<Option<U64>>)
    ensures prop.None? ==> r == Value(None)
    ensures prop.Some? && !prop.value.CTime? ==> r == Panicked(unexpected)
    ensures r.Value? && r.value.Some? <==>
      prop.Some? && prop.value.CTime? && index < |prop.value.times| && prop.value.times[index].Some?
      && prop.value.times[index].value.Right?
    ensures r.Value? && r.value.Some? ==> prop.value.times[index] == Some(Right(r.value.value))
  {
    match prop
    case None => Value(None)
    case Some(p) =>
      if !p.CTime? then Panicked(unexpected)
      else if index >= |p.times| then Panicked(TimeIndexOutOfBounds)
      else match p.times[index]
        case None => Value(None)
        case Some(Left(_)) => Panicked(external)
        case Some(Right(t)) => Value(Some(t))
  }

  /// The name lookup: the property is read only when it is a `Names`, an
  /// external name panics, and no property at all gives no name.
  function NameAt(prop: Option<FilesProperty>, index: nat): (r: OrPanic<Option<string>>)
    ensures prop.None? ==> r == Value(None)
    ensures prop.Some? && !prop.value.Names? ==> r == Panicked(UnexpectedNamesVariant)
    ensures r.Value? && r.value.Some? <==>
      prop.Some? && prop.value.Names? && index < |prop.value.names| && prop.value.names[index].Right?
    ensures r.Value? && r.value.Some? ==> prop.value.names[index] == Right(r.value.value)
  {
    match prop
    case None => Value(None)
    case Some(p) =>
      if !p.Names? then Panicked(UnexpectedNamesVariant)
      else if index >= |p.names| then Panicked(NameIndexOutOfBounds)
      else match p.names[index]
        case Left(_) => Panicked(ExternalName)
        case Right(n) => Value(Some(n))
  }

  /// `File::from_files_and_coders_info`: the three times, the name (which
  /// must be there) and the stream at `index`, each looked up in that order.
  function FromFilesAndCodersInfo(fi: FilesInfo, ci: CodersInfo, index: Usize): (r: OrPanic<File>)
    ensures r.Value? ==>
      (FileStreams(ci).Value? && index < |FileStreams(ci).value| && r.value.stream == FileStreams(ci).value[index])
  {
    var ctime :- TimeAt(GetProperty(fi, FilesProperty.CTime([])), index, ExternalCTime, UnexpectedCTimeVariant);
    var atime :- TimeAt(GetProperty(fi, FilesProperty.ATime([])), index, ExternalATime, UnexpectedATimeVariant);
    var mtime :- TimeAt(GetProperty(fi, FilesProperty.MTime([])), index, ExternalMTime, UnexpectedMTimeVariant);
    var name :- NameAt(GetProperty(fi, FilesProperty.Names([])), index);
    if name.None? then Panicked(MissingName)
    else
      var streams :- FileStreams(ci);
      if index >= |streams| then Panicked(StreamIndexOutOfBounds)
      else Value(File(ctime, atime, mtime, name.value, streams[index]))
  }

  /// An `ATime` property is never read: its lookup matches `CTime` only.
  lemma ATimeNeverRead(times: seq<Option<FileTime>>, index: nat)
    ensures TimeAt(Some(FilesProperty.ATime(times)), index, ExternalATime, UnexpectedATimeVariant)
      == Panicked(UnexpectedATimeVariant)
  {
  }

  /// Since `get_property` hands back the first property whatever was asked
  /// for, the time lookups and the name lookup all see the same property,
  /// and it cannot be both a `CTime` and a `Names`: every call panics.
  /// No properties at all leaves the name missing; a first `Names` stops
  /// the creation time lookup; a first `CTime` stops at the name lookup at
  /// the latest.
  lemma ProjectionAlwaysPanics(fi: FilesInfo, ci: CodersInfo, index: Usize)
    ensures FromFilesAndCodersInfo(fi, ci, index).Panicked?
    ensures |fi.properties| == 0 ==> FromFilesAndCodersInfo(fi, ci, index) == Panicked(MissingName)
    ensures |fi.properties| > 0 && !fi.properties[0].CTime? ==>
      FromFilesAndCodersInfo(fi, ci, index) == Panicked(UnexpectedCTimeVariant)
    ensures (|fi.properties| > 0 && fi.properties[0].CTime? && index < |fi.properties[0].times|
      && (fi.properties[0].times[index].None? || fi.properties[0].times[index].value.Right?)) ==>
      FromFilesAndCodersInfo(fi, ci, index) == Panicked(UnexpectedNamesVariant)
  {
    GetPropertyIsFirst(fi, FilesProperty.CTime([]));
    GetPropertyIsFirst(fi, FilesProperty.ATime([]));
    GetPropertyIsFirst(fi, FilesProperty.MTime([]));
    GetPropertyIsFirst(fi, FilesProperty.Names([]));
  }

  /// `File::subslice_raw`: the `size` bytes of `data` that start
  /// `StartHeaderSizeBytes` past the stream's offset. The conversions to
  /// `usize`, the two additions and the slice each panic on their own.
  function SubsliceRaw(f: File, data: Bytes): (r: OrPanic<Bytes>)
    ensures r.Value? <==>
      f.stream.offset + StartHeaderSizeBytes + f.stream.size <= USIZE_MAX
      && f.stream.offset + StartHeaderSizeBytes + f.stream.size <= |data|
    ensures r.Value? ==> (|r.value| == f.stream.size
      && forall k :: 0 <= k < f.stream.size ==> r.value[k] == data[f.stream.offset + StartHeaderSizeBytes + k])
  {
    if f.stream.offset > USIZE_MAX then Panicked(OffsetToUsize)
    else
      var offset := f.stream.offset + StartHeaderSizeBytes;
      if offset > USIZE_MAX then Panicked(OffsetPlusHeaderOverflow)
      else if f.stream.size > USIZE_MAX then Panicked(SizeToUsize)
      else if offset + f.stream.size > USIZE_MAX then Panicked(SliceEndOverflow)
      else if offset + f.stream.size > |data| then Panicked(SliceOutOfRange)
      else Value(data[offset..offset + f.stream.size])
  }

  /// Where `subslice_raw` panics, by the first check that fails.
  lemma SubsliceRawPanics(f: File, data: Bytes)
    ensures f.stream.offset > USIZE_MAX ==> SubsliceRaw(f, data) == Panicked(OffsetToUsize)
    ensures f.stream.offset <= USIZE_MAX < f.stream.offset + StartHeaderSizeBytes ==>
      SubsliceRaw(f, data) == Panicked(OffsetPlusHeaderOverflow)
    ensures (f.stream.offset + StartHeaderSizeBytes + f.stream.size <= USIZE_MAX
      && f.stream.offset + StartHeaderSizeBytes + f.stream.size > |data|) ==>
      SubsliceRaw(f, data) == Panicked(SliceOutOfRange)
  {
  }
}
