/// Dispatching a file's bytes to its codec (`src/read/decode.rs`).
module Decode {
  import opened Base
  import opened Err
  import opened Coders
  import opened Interface
  import opened Codec

  /// `decode_file`: complex coders panic; otherwise the coder's ID picks the
  /// codec, and an unknown ID is the error.
  function DecodeFile(data: Bytes, stream: FileStreamInfo): (r: OrPanic<Outcome<Bytes>>)
    ensures stream.coder.complex.Some? <==> r == Panicked(ComplexCoder)
    ensures (r.Value? && r.value.Accepted?) <==> stream.coder.complex.None? && stream.coder.id == [0]
    ensures r.Value? && r.value.Accepted? ==> r.value.value == data
    ensures r.Value? && r.value.Rejected? ==> r.value.error == InvalidCodecID(stream.coder.id)
  {
    if stream.coder.complex.Some? then Panicked(ComplexCoder)
    else
      match TryFrom(stream.coder.id)
      case Rejected(e) => Value(Rejected(e))
      case Accepted(Copy) => Value(Accepted(CopyDecode(NewCopy(), data)))
  }

  /// Only the coder's kind and ID decide; the offset, size, CRC and coder
  /// attributes of the stream are not consulted.
  lemma DecodeFileReadsCoderOnly(data: Bytes, s: FileStreamInfo, t: FileStreamInfo)
    requires s.coder.complex == t.coder.complex && s.coder.id == t.coder.id
    ensures DecodeFile(data, s) == DecodeFile(data, t)
  {
  }

  /// A stored (Copy) stream decodes to the bytes it was given.
  lemma CopyStreamRoundTrip(data: Bytes, s: FileStreamInfo)
    requires s.coder.complex.None? && s.coder.id == CodecId(Codecs.Copy)
    ensures DecodeFile(data, s) == Value(Accepted(data))
  {
  }
}
