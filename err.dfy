/// The error kinds of `SevenZParserErrorKind` and the shape of a parser's
/// result. nom distinguishes a recoverable `Err::Error` (which `opt`, `alt`
/// and `many_till` catch and turn into "try something else") from a fatal
/// `Err::Failure`; both are kept apart here. A Rust panic is not a nom error
/// at all: it aborts whatever is running, so it is a third kind of fault that
/// no combinator catches, tagged with the site that raises it.
module Err {
  import opened Base

  /// The nom error kinds the modelled parsers raise: running out of
  /// input (`u8`, `le_u16/32/64`, `take`), a literal tag that does not match,
  /// and `many_till` refusing an item parser that consumed nothing.
  datatype NomErrorKind = Eof | Tag | ManyTill

  datatype ConversionError = ToUsize | ToString

  datatype ErrorKind =
    | Nom(nom: NomErrorKind)
    | Crc(expected: U32, got: U32)
    | InvalidPropertyID(id: bv8)
    | ConversionFailure(conversion: ConversionError)
    | InvalidBooleanByte(byte: bv8)
    | FilesEmptyFileBeforeFilesEmptyStream
    | FilesAntiBeforeFilesEmptyStream
    | DummyNotAllZeroes
    | CouldNotDetermineNumFolders
    | CouldNotDetermineNumUnpackStreams

  /// Every place where the modelled code panics: explicit `panic!`, `unwrap`,
  /// `expect`, out-of-bounds indexing and debug-build arithmetic overflow.
  datatype PanicSite =
    | BitVecTruncated             // parsers/bit.rs:30, bits take on too short an input
    | CoderOutStreamsToUsize      // types/coders_info.rs:21, try_into().unwrap()
    | FolderOutStreamsSumOverflow // parsers/coders_info.rs:56-62, u64 sum
    | FolderBindPairsUnderflow    // parsers/coders_info.rs:65, usize 0 - 1
    | FolderInStreamsSumOverflow  // parsers/coders_info.rs:71-77, u64 sum
    | FolderPackedStreamsUnderflow // parsers/coders_info.rs:79, usize subtraction
    | CodersInfoExternalFolders   // parsers/coders_info.rs:128-129, right().unwrap()
    | CodersInfoOutStreamsSumOverflow // parsers/coders_info.rs:134-140, u64 sum
    | StreamsExternalFolders      // interface/streams.rs:22
    | StreamSizeIndexOutOfBounds  // interface/streams.rs:39, streams_unpack_sizes[i]
    | TimeIndexOutOfBounds        // interface/file.rs:26,41,56, t[index]
    | ExternalCTime               // interface/file.rs:29
    | ExternalATime               // interface/file.rs:44
    | ExternalMTime               // interface/file.rs:59
    | UnexpectedCTimeVariant      // interface/file.rs:33
    | UnexpectedATimeVariant      // interface/file.rs:48
    | UnexpectedMTimeVariant      // interface/file.rs:63
    | NameIndexOutOfBounds        // interface/file.rs:71, t[index]
    | ExternalName                // interface/file.rs:72
    | UnexpectedNamesVariant      // interface/file.rs:75
    | MissingName                 // interface/file.rs:79, name.unwrap()
    | StreamIndexOutOfBounds      // interface/file.rs:81
    | OffsetToUsize               // interface/file.rs:96
    | OffsetPlusHeaderOverflow    // interface/file.rs:97
    | SizeToUsize                 // interface/file.rs:98
    | SliceEndOverflow            // interface/file.rs:99, offset + size
    | SliceOutOfRange             // interface/file.rs:99, data[offset..offset + size]
    | PackedHeader                // interface/archive.rs:16, expect_left
    | MissingFilesInfo            // interface/archive.rs:18, unwrap
    | MissingMainStreams          // interface/archive.rs:21, unwrap
    | MissingCodersInfo           // interface/archive.rs:21, unwrap
    | ComplexCoder                // read/decode.rs:14

  datatype Fault =
    | Error(kind: ErrorKind)    // nom::Err::Error
    | Failure(kind: ErrorKind)  // nom::Err::Failure
    | Panic(site: PanicSite)

  /// A parsed value together with the input that is left.
  datatype Parsed<+T> = Parsed(value: T, rest: Bytes)

  /// The result of a parser: `IResult<&[u8], T, SevenZParserError>` with
  /// panics made explicit.
  datatype Res<+T> = Ok(value: T, rest: Bytes) | Fail(fault: Fault) {
    predicate IsFailure() { Fail? }

    function PropagateFailure<U>(): Res<U>
      requires Fail?
    {
      Fail(fault)
    }

    function Extract(): Parsed<T>
      requires Ok?
    {
      Parsed(value, rest)
    }
  }

  /// The result of code outside the parsers that can only panic.
  datatype OrPanic<+T> = Value(value: T) | Panicked(site: PanicSite) {
    predicate IsFailure() { Panicked? }

    function PropagateFailure<U>(): OrPanic<U>
      requires Panicked?
    {
      Panicked(site)
    }

    function Extract(): T
      requires Value?
    {
      value
    }
  }
}
