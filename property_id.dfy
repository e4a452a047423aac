/// The property tags of the 7z header format (`src/parser/types/property_id.rs`):
/// one byte per tag, `0x00` to `0x19` in declaration order; every other byte
/// is not a tag.
module PropertyIds {
  import opened Base

  datatype PropertyID =
    | End | Header | ArchiveProperties | AdditionalStreamsInfo | MainStreamsInfo
    | FilesInfo | PackInfo | UnPackInfo | SubStreamsInfo | Size | CRC | Folder
    | CodersUnPackSize | NumUnPackStream | EmptyStream | EmptyFile | Anti | Name
    | CTime | ATime | MTime | WinAttributes | Comment | EncodedHeader | StartPos | Dummy

  /// The `#[repr(u8)]` discriminant, `p as u8`.
  function ToByte(p: PropertyID): (b: bv8)
    ensures b < 0x1A
  {
    match p
    case End => 0x00
    case Header => 0x01
    case ArchiveProperties => 0x02
    case AdditionalStreamsInfo => 0x03
    case MainStreamsInfo => 0x04
    case FilesInfo => 0x05
    case PackInfo => 0x06
    case UnPackInfo => 0x07
    case SubStreamsInfo => 0x08
    case Size => 0x09
    case CRC => 0x0A
    case Folder => 0x0B
    case CodersUnPackSize => 0x0C
    case NumUnPackStream => 0x0D
    case EmptyStream => 0x0E
    case EmptyFile => 0x0F
    case Anti => 0x10
    case Name => 0x11
    case CTime => 0x12
    case ATime => 0x13
    case MTime => 0x14
    case WinAttributes => 0x15
    case Comment => 0x16
    case EncodedHeader => 0x17
    case StartPos => 0x18
    case Dummy => 0x19
  }

  /// `PropertyID::try_from(b)`: the tag with discriminant `b`, or `None`
  /// (the source's `Err(())`).
  function FromByte(b: bv8): Option<PropertyID> {
    if b < 0x10 then FromLowByte(b) else FromHighByte(b)
  }

  function FromLowByte(b: bv8): Option<PropertyID>
    requires b < 0x10
  {
    if b == 0x00 then Some(End)
    else if b == 0x01 then Some(Header)
    else if b == 0x02 then Some(ArchiveProperties)
    else if b == 0x03 then Some(AdditionalStreamsInfo)
    else if b == 0x04 then Some(MainStreamsInfo)
    else if b == 0x05 then Some(FilesInfo)
    else if b == 0x06 then Some(PackInfo)
    else if b == 0x07 then Some(UnPackInfo)
    else if b == 0x08 then Some(SubStreamsInfo)
    else if b == 0x09 then Some(Size)
    else if b == 0x0A then Some(CRC)
    else if b == 0x0B then Some(Folder)
    else if b == 0x0C then Some(CodersUnPackSize)
    else if b == 0x0D then Some(NumUnPackStream)
    else if b == 0x0E then Some(EmptyStream)
    else Some(EmptyFile)
  }

  function FromHighByte(b: bv8): Option<PropertyID>
    requires b >= 0x10
  {
    if b == 0x10 then Some(Anti)
    else if b == 0x11 then Some(Name)
    else if b == 0x12 then Some(CTime)
    else if b == 0x13 then Some(ATime)
    else if b == 0x14 then Some(MTime)
    else if b == 0x15 then Some(WinAttributes)
    else if b == 0x16 then Some(Comment)
    else if b == 0x17 then Some(EncodedHeader)
    else if b == 0x18 then Some(StartPos)
    else if b == 0x19 then Some(Dummy)
    else None
  }

  /// Exactly the bytes `0x00` to `0x19` are tags; every byte from `0x1A` up
  /// is rejected.
  lemma FromByteAccepts(b: bv8)
    ensures FromByte(b).Some? <==> b < 0x1A
  {
  }

  /// Round trip from the tag: `try_from(p as u8) == Ok(p)`.
  lemma FromToByte(p: PropertyID)
    ensures FromByte(ToByte(p)) == Some(p)
  {
  }

  /// Round trip from the byte: an accepted byte is the discriminant of the
  /// tag it decodes to.
  lemma ToFromByte(b: bv8)
    requires FromByte(b).Some?
    ensures ToByte(FromByte(b).value) == b
  {
    if b < 0x10 {
      LowToFromByte(b);
    } else {
      HighToFromByte(b);
    }
  }

  lemma LowToFromByte(b: bv8)
    requires b < 0x10
    ensures ToByte(FromLowByte(b).value) == b
  {
  }

  lemma HighToFromByte(b: bv8)
    requires 0x10 <= b < 0x1A
    ensures ToByte(FromHighByte(b).value) == b
  {
  }

  /// Distinct accepted bytes decode to distinct tags.
  lemma FromByteInjective(a: bv8, b: bv8)
    requires FromByte(a).Some? && FromByte(b).Some? && a != b
    ensures FromByte(a).value != FromByte(b).value
  {
    ToFromByte(a);
    ToFromByte(b);
  }

  /// Distinct tags have distinct discriminants.
  lemma ToByteInjective(p: PropertyID, q: PropertyID)
    requires p != q
    ensures ToByte(p) != ToByte(q)
  {
    FromToByte(p);
    FromToByte(q);
  }

  /// The tags in declaration order.
  const DeclarationOrder: seq<PropertyID> := [
    End, Header, ArchiveProperties, AdditionalStreamsInfo, MainStreamsInfo,
    FilesInfo, PackInfo, UnPackInfo, SubStreamsInfo, Size, CRC, Folder,
    CodersUnPackSize, NumUnPackStream, EmptyStream, EmptyFile, Anti, Name,
    CTime, ATime, MTime, WinAttributes, Comment, EncodedHeader, StartPos, Dummy]

  /// The discriminant of the `i`-th declared tag is `i`, so with
  /// `FromToByte` byte `i` decodes to the `i`-th declared tag.
  lemma DiscriminantIsPosition(i: nat)
    requires i < |DeclarationOrder|
    ensures ToByte(DeclarationOrder[i]) as int == i
  {
    if i < 8 {
    } else if i < 16 {
    } else {
    }
  }
}
