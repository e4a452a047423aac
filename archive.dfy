/// The high-level archive (`src/parser/interface/archive.rs`): one `File`
/// per entry of the header's files info.
module Archives {
  import opened Base
  import opened Err
  import opened Parsers
  import opened Files
  import opened Streams
  import opened Headers
  import opened Interface

  /// `PackedHeader {}` and `HeaderInfo {}` (`src/parser/types/header.rs:34,37`)
  /// carry nothing yet.
  datatype PackedHeader = PackedHeader
  datatype HeaderInfo = HeaderInfo

  /// `Archive` (`src/parser/types/mod.rs:45-48`).
  datatype Archive = Archive(
    signatureHeader: SignatureHeader,
    headerOrPackedHeader: Either<Header, (PackedHeader, HeaderInfo)>)

  /// `HighLevelArchive` (`src/parser/interface/archive.rs:7-9`).
  datatype HighLevelArchive = HighLevelArchive(files: seq<File>)

  /// One round of the loop: the coders info of the main streams (both
  /// unwrapped), then the file at `i`.
  function FileAt(hdr: Header, i: Usize): (r: OrPanic<File>)
    requires hdr.files.Some?
    ensures hdr.mainStreams.None? ==> r == Panicked(MissingMainStreams)
    ensures hdr.mainStreams.Some? && hdr.mainStreams.value.codersInfo.None? ==> r == Panicked(MissingCodersInfo)
    ensures r.Value? ==> hdr.mainStreams.Some? && hdr.mainStreams.value.codersInfo.Some?
    ensures r.Value? ==> r == FromFilesAndCodersInfo(hdr.files.value, hdr.mainStreams.value.codersInfo.value, i)
  {
    if hdr.mainStreams.None? then Panicked(MissingMainStreams)
    else if hdr.mainStreams.value.codersInfo.None? then Panicked(MissingCodersInfo)
    else FromFilesAndCodersInfo(hdr.files.value, hdr.mainStreams.value.codersInfo.value, i)
  }

  /// The files the first `n` rounds push, in order; the first panic ends it.
  function FilesUpTo(hdr: Header, n: nat): (r: OrPanic<seq<File>>)
    requires hdr.files.Some? && n <= USIZE_MAX
    ensures r.Value? ==> |r.value| == n
    ensures r.Value? ==> forall k: Usize :: k < n ==> FileAt(hdr, k) == Value(r.value[k])
  {
    if n == 0 then Value([])
    else
      var init :- FilesUpTo(hdr, n - 1);
      var f :- FileAt(hdr, n - 1);
      Value(init + [f])
  }

  /// `HighLevelArchive::from_low_level_archive`: a packed header and a
  /// missing files info panic; otherwise one file per `num_files`.
  function HighLevel(ar: Archive): (r: OrPanic<HighLevelArchive>)
    ensures ar.headerOrPackedHeader.Right? ==> r == Panicked(PanicSite.PackedHeader)
    ensures ar.headerOrPackedHeader.Left? && ar.headerOrPackedHeader.left.files.None? ==>
      r == Panicked(MissingFilesInfo)
    ensures r.Value? ==> (ar.headerOrPackedHeader.Left? && ar.headerOrPackedHeader.left.files.Some?
      && |r.value.files| == ar.headerOrPackedHeader.left.files.value.numFiles)
  {
    match ar.headerOrPackedHeader
    case Right(_) => Panicked(PanicSite.PackedHeader)
    case Left(hdr) =>
      if hdr.files.None? then Panicked(MissingFilesInfo)
      else
        var files :- FilesUpTo(hdr, hdr.files.value.numFiles);
        Value(HighLevelArchive(files))
  }

  /// `from_low_level_archive` with its loop over the file indices
  /// (`src/parser/interface/archive.rs:17-24`). The bound is read once,
  /// before the loop; the unwraps of the main streams and their coders
  /// info happen in every round.
  method FromLowLevelArchive(ar: Archive) returns (r: OrPanic<HighLevelArchive>)
    ensures r == HighLevel(ar)
  {
    if ar.headerOrPackedHeader.Right? {
      return Panicked(PanicSite.PackedHeader);
    }
    var hdr := ar.headerOrPackedHeader.left;
    if hdr.files.None? {
      return Panicked(MissingFilesInfo);
    }
    var numFiles := hdr.files.value.numFiles;
    var files: seq<File> := [];
    for i := 0 to numFiles
      invariant FilesUpTo(hdr, i) == Value(files)
    {
      var file: OrPanic<File>;
      if hdr.mainStreams.None? {
        file := Panicked(MissingMainStreams);
      } else if hdr.mainStreams.value.codersInfo.None? {
        file := Panicked(MissingCodersInfo);
      } else {
        file := FromFilesAndCodersInfo(hdr.files.value, hdr.mainStreams.value.codersInfo.value, i);
      }
      if file.Panicked? {
        FilesUpToSticks(hdr, i + 1, numFiles);
        return Panicked(file.site);
      }
      files := files + [file.value];
    }
    return Value(HighLevelArchive(files));
  }

  /// Once a round panics, so does every longer run of the loop.
  lemma {:induction false} FilesUpToSticks(hdr: Header, n: nat, m: nat)
    requires hdr.files.Some? && n <= m <= USIZE_MAX && FilesUpTo(hdr, n).Panicked?
    ensures FilesUpTo(hdr, m) == FilesUpTo(hdr, n)
    decreases m - n
  {
    if n < m {
      assert FilesUpTo(hdr, n + 1) == FilesUpTo(hdr, n);
      FilesUpToSticks(hdr, n + 1, m);
    }
  }

  /// With at least one file the outcome is that of the first round.
  lemma {:induction false} FirstRoundDecides(hdr: Header, n: nat)
    requires hdr.files.Some? && 0 < n <= USIZE_MAX && FileAt(hdr, 0).Panicked?
    ensures FilesUpTo(hdr, n) == Panicked(FileAt(hdr, 0).site)
    decreases n
  {
    if n > 1 {
      FirstRoundDecides(hdr, n - 1);
    }
  }

  /// Every file lookup panics (`Interface.ProjectionAlwaysPanics`), so an
  /// archive comes out only when it has no files at all, and then it is
  /// empty; with files, the first round's panic is the outcome.
  lemma HighLevelOnlyWithoutFiles(ar: Archive)
    ensures HighLevel(ar).Value? <==>
      ar.headerOrPackedHeader.Left? && ar.headerOrPackedHeader.left.files.Some?
      && ar.headerOrPackedHeader.left.files.value.numFiles == 0
    ensures HighLevel(ar).Value? ==> HighLevel(ar).value == HighLevelArchive([])
    ensures (ar.headerOrPackedHeader.Left? && ar.headerOrPackedHeader.left.files.Some?
      && ar.headerOrPackedHeader.left.files.value.numFiles > 0) ==>
      HighLevel(ar) == Panicked(FileAt(ar.headerOrPackedHeader.left, 0).site)
  {
    if ar.headerOrPackedHeader.Left? && ar.headerOrPackedHeader.left.files.Some? {
      var hdr := ar.headerOrPackedHeader.left;
      var n := hdr.files.value.numFiles;
      if n > 0 {
        if hdr.mainStreams.Some? && hdr.mainStreams.value.codersInfo.Some? {
          ProjectionAlwaysPanics(hdr.files.value, hdr.mainStreams.value.codersInfo.value, 0);
        }
        FirstRoundDecides(hdr, n);
      }
    }
  }
}
