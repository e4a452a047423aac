/// UTF-16 as `widestring::U16CStr::to_string` reads it (section 2.2 of
/// RFC 2781): a code unit outside 0xD800..0xDFFF stands for itself, a high
/// surrogate (0xD800..0xDBFF) followed by a low surrogate (0xDC00..0xDFFF)
/// stands for one supplementary character, and any other surrogate makes
/// the conversion fail. Dafny's `char` is a Unicode scalar value, so a
/// `string` is exactly what the conversion can produce.
module Utf16 {
  import opened Base

  predicate IsHigh(u: U16) { 0xD800 <= u < 0xDC00 }

  predicate IsLow(u: U16) { 0xDC00 <= u < 0xE000 }

  predicate IsSurrogate(u: U16) { 0xD800 <= u < 0xE000 }

  /// The decoder: the string the code units stand for, or `None` when some
  /// surrogate is unpaired.
  function Decode(units: seq<U16>): (r: Option<string>)
    decreases |units|
  {
    if |units| == 0 then Some([])
    else if !IsSurrogate(units[0]) then
      match Decode(units[1..])
      case None => None
      case Some(tail) => Some([units[0] as char] + tail)
    else if IsHigh(units[0]) && |units| >= 2 && IsLow(units[1]) then
      match Decode(units[2..])
      case None => None
      case Some(tail) => Some([Supplementary(units[0], units[1]) as char] + tail)
    else None
  }

  /// The character a surrogate pair stands for: ten bits from each half,
  /// offset by 0x10000.
  function Supplementary(high: U16, low: U16): (c: int)
    requires IsHigh(high) && IsLow(low)
    ensures 0x1_0000 <= c < 0x11_0000
  {
    0x1_0000 + (high as int - 0xD800) * 0x400 + (low as int - 0xDC00)
  }

  /// The encoder: one code unit for a character of the basic plane, a
  /// surrogate pair for a supplementary one.
  function EncodeChar(c: char): (u: seq<U16>)
  {
    var v := c as int;
    if v < 0x1_0000 then [v]
    else
      var w := v - 0x1_0000;
      [0xD800 + w / 0x400, 0xDC00 + w % 0x400]
  }

  function Encode(s: string): (u: seq<U16>)
    decreases |s|
  {
    if |s| == 0 then [] else EncodeChar(s[0]) + Encode(s[1..])
  }

  /// Every surrogate is paired: a high surrogate is directly followed by a
  /// low one and a low surrogate directly follows a high one.
  predicate Paired(units: seq<U16>) {
    && (forall i :: 0 <= i < |units| && IsHigh(units[i]) ==> i + 1 < |units| && IsLow(units[i + 1]))
    && (forall i :: 0 <= i < |units| && IsLow(units[i]) ==> i > 0 && IsHigh(units[i - 1]))
  }

  /// The conversion fails exactly on an unpaired surrogate.
  lemma {:induction false} DecodeSucceeds(units: seq<U16>)
    ensures Decode(units).Some? <==> Paired(units)
    decreases |units|
  {
    if |units| == 0 {
    } else if !IsSurrogate(units[0]) {
      DecodeSucceeds(units[1..]);
      PairedTail(units, 1);
    } else if IsHigh(units[0]) && |units| >= 2 && IsLow(units[1]) {
      DecodeSucceeds(units[2..]);
      PairedTail(units, 2);
    } else if IsLow(units[0]) {
      assert !Paired(units);
    } else {
      assert IsHigh(units[0]);
      assert !Paired(units);
    }
  }

  /// Removing a leading character that is a whole (a non-surrogate, or a
  /// pair) keeps the pairing of what follows and nothing else.
  lemma PairedTail(units: seq<U16>, k: nat)
    requires 1 <= k <= 2 && k <= |units|
    requires k == 1 ==> !IsSurrogate(units[0])
    requires k == 2 ==> IsHigh(units[0]) && IsLow(units[1])
    ensures Paired(units) <==> Paired(units[k..])
  {
    var t := units[k..];
    if Paired(t) {
      forall i | 0 <= i < |units| && IsHigh(units[i])
        ensures i + 1 < |units| && IsLow(units[i + 1])
      {
        if i >= k {
          assert units[i] == t[i - k];
        }
      }
      forall i | 0 <= i < |units| && IsLow(units[i])
        ensures i > 0 && IsHigh(units[i - 1])
      {
        if i >= k {
          assert units[i] == t[i - k];
        }
      }
    }
    if Paired(units) {
      forall i | 0 <= i < |t| && IsHigh(t[i])
        ensures i + 1 < |t| && IsLow(t[i + 1])
      {
        assert t[i] == units[i + k];
      }
      forall i | 0 <= i < |t| && IsLow(t[i])
        ensures i > 0 && IsHigh(t[i - 1])
      {
        assert t[i] == units[i + k];
      }
    }
  }

  /// Decoding reads back every string.
  lemma {:induction false} DecodeEncode(s: string)
    ensures Decode(Encode(s)) == Some(s)
    decreases |s|
  {
    if |s| > 0 {
      DecodeEncode(s[1..]);
      var u := EncodeChar(s[0]);
      var units := Encode(s);
      assert units == u + Encode(s[1..]);
      var v := s[0] as int;
      if v < 0x1_0000 {
        assert units[1..] == Encode(s[1..]);
      } else {
        var w := v - 0x1_0000;
        assert units[0] == 0xD800 + w / 0x400 && units[1] == 0xDC00 + w % 0x400;
        assert units[2..] == Encode(s[1..]);
        assert Supplementary(units[0], units[1]) == v;
      }
      assert [s[0]] + s[1..] == s;
    }
  }

  /// Every decoded string encodes back to the code units it came from, so
  /// no two code-unit sequences decode to the same string.
  lemma {:induction false} EncodeDecode(units: seq<U16>)
    requires Decode(units).Some?
    ensures Encode(Decode(units).value) == units
    decreases |units|
  {
    if |units| > 0 {
      var s := Decode(units).value;
      if !IsSurrogate(units[0]) {
        EncodeDecode(units[1..]);
        assert s[1..] == Decode(units[1..]).value;
        assert units == [units[0]] + units[1..];
      } else {
        EncodeDecode(units[2..]);
        assert s[1..] == Decode(units[2..]).value;
        assert units == [units[0], units[1]] + units[2..];
      }
    }
  }

  /// A string holds no NUL character exactly when its encoding holds no
  /// zero code unit, which is what lets a NUL-terminated sequence of code
  /// units carry it.
  lemma {:induction false} EncodeNonZero(s: string)
    ensures (forall i :: 0 <= i < |s| ==> s[i] != '\0') <==>
            (forall j :: 0 <= j < |Encode(s)| ==> Encode(s)[j] != 0)
    decreases |s|
  {
    if |s| > 0 {
      EncodeNonZero(s[1..]);
      var u := EncodeChar(s[0]);
      var t := Encode(s[1..]);
      assert Encode(s) == u + t;
      assert forall j :: 0 <= j < |t| ==> Encode(s)[|u| + j] == t[j];
      assert forall i :: 0 <= i < |s[1..]| ==> s[1..][i] == s[i + 1];
      if (forall j :: 0 <= j < |Encode(s)| ==> Encode(s)[j] != 0) {
        assert Encode(s)[0] == u[0];
      }
    }
  }
}
