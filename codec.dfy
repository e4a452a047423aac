/// The codecs (`src/codec/mod.rs`, `src/codec/copy.rs`): codec IDs and the
/// one codec there is, which copies its input.
module Codec {
  import opened Base

  /// `Codecs` (`src/codec/mod.rs:27-30`).
  datatype Codecs = Copy

  /// `CodecError` (`src/codec/mod.rs:47-50`).
  datatype CodecError = InvalidCodecID(id: Bytes)

  /// `Result<T, CodecError>`.
  datatype Outcome<T> = Accepted(value: T) | Rejected(error: CodecError)

  /// The ID a codec is stored under (7-Zip's methods list: `00` is Copy).
  function CodecId(c: Codecs): (r: Bytes)
    ensures |r| == 1
  {
    match c
    case Copy => [0]
  }

  /// `Codecs::try_from`: the one-byte ID `00` is Copy, every other ID is
  /// refused and handed back in the error.
  function TryFrom(id: Bytes): (r: Outcome<Codecs>)
    ensures r.Accepted? <==> id == [0]
    ensures r.Rejected? ==> r.error == InvalidCodecID(id)
  {
    if id == [0] then Accepted(Copy) else Rejected(InvalidCodecID(id))
  }

  lemma TryFromCodecId(c: Codecs)
    ensures TryFrom(CodecId(c)) == Accepted(c)
  {
  }

  /// An ID is accepted only when it is the ID of the codec it names.
  lemma TryFromOnlyIds(id: Bytes)
    ensures TryFrom(id).Accepted? ==> CodecId(TryFrom(id).value) == id
  {
  }

  /// The `Copy` codec (`src/codec/copy.rs:7`) has no state.
  datatype CopyCodec = CopyCodec

  /// `Copy::new` (`src/codec/copy.rs:12-14`).
  function NewCopy(): (r: CopyCodec)
    ensures r == CopyCodec
  {
    CopyCodec
  }

  /// `Codec::decode` for `Copy` (`src/codec/copy.rs:18-20`): the output is
  /// the input, byte for byte.
  function CopyDecode(codec: CopyCodec, data: Bytes): (r: Bytes)
    ensures |r| == |data|
    ensures forall k :: 0 <= k < |data| ==> r[k] == data[k]
  {
    data[..]
  }
}
