/** `parseHexColor` (main.go:68-86): `#RRGGBB` and `#RGB` into an opaque RGBA colour.

    The Go code hands the digits to `fmt.Sscanf` with the formats `%02x%02x%02x` and
    `%1x%1x%1x`. A width there is a maximum, and text left over after the last field is not
    an error, so the long form also accepts a last channel of one digit followed by any byte.
    `ParseHexColor` models the code as written; `ParseHexColorStrict` is the parser the code
    evidently intends (CSS Color Module Level 3, section 4.2.1). The composition model uses
    the parser as written; `StrictAgreesWithSource` ties the two together. */
module HexColor {
  import opened Basics

  /** `color.RGBA`: four 8-bit channels. */
  datatype Rgba = Rgba(r: byte, g: byte, b: byte, a: byte)

  datatype ColorError =
    | InvalidFormat   // "invalid color format": no leading '#', or a length other than 7 or 4
    | ScanFailed      // the error `fmt.Sscanf` returns for the digits

  const Hash: byte := 0x23
  const Underscore: byte := 0x5F
  const Opaque: byte := 0xFF

  predicate IsHexDigit(c: byte) {
    0x30 <= c <= 0x39 || 0x41 <= c <= 0x46 || 0x61 <= c <= 0x66
  }

  function DigitValue(c: byte): (v: nat)
    requires IsHexDigit(c)
    ensures v < 16
  {
    if c <= 0x39 then c - 0x30 else if c <= 0x46 then c - 0x41 + 10 else c - 0x61 + 10
  }

  predicate AllHex(s: seq<byte>) {
    forall i :: 0 <= i < |s| ==> IsHexDigit(s[i])
  }

  /** The number a run of at most two hexadecimal digits spells. */
  function HexValue(ds: seq<byte>): (v: byte)
    requires |ds| <= 2 && AllHex(ds)
  {
    if |ds| == 0 then 0
    else if |ds| == 1 then DigitValue(ds[0])
    else 16 * DigitValue(ds[0]) + DigitValue(ds[1])
  }

  /** Go's `*=` on a uint8 wraps modulo 256. */
  function MulByte(x: byte, k: byte): (r: byte) {
    (x * k) % 256
  }

  // ---------------------------------------------------------------------------
  // fmt.Sscanf, as the source uses it: three unsigned hexadecimal fields of
  // width at most `w` (1 or 2), read one after the other into uint8 channels.
  // ---------------------------------------------------------------------------

  /** The bytes fmt's scanner collects for a `%x` field: hex digits and '_'. */
  predicate IsScanDigit(c: byte) {
    IsHexDigit(c) || c == Underscore
  }

  /** How many leading bytes of `s` one field of width `w` takes. */
  function TokenLength(s: seq<byte>, w: nat): (n: nat)
    ensures n <= w && n <= |s|
    ensures forall i :: 0 <= i < n ==> IsScanDigit(s[i])
    ensures n < w && n < |s| ==> !IsScanDigit(s[n])
  {
    if w == 0 || |s| == 0 || !IsScanDigit(s[0]) then 0
    else 1 + TokenLength(s[1..], w - 1)
  }

  /** One `%0wx` field: its value and the number of bytes it consumed, or None when the
      scanner fails ("expected integer" on no digit; strconv rejects '_' in base 16). */
  function ScanField(s: seq<byte>, w: nat): (r: Option<(byte, nat)>)
    requires 1 <= w <= 2
    ensures r.Some? ==> 1 <= r.value.1 <= w && r.value.1 <= |s| && AllHex(s[..r.value.1])
    ensures r.Some? ==> r.value.0 == HexValue(s[..r.value.1])
    ensures r.Some? ==> r.value.1 == w || r.value.1 == |s| || !IsScanDigit(s[r.value.1])
    ensures |s| == 0 || !IsHexDigit(s[0]) ==> r.None?
    ensures (exists i :: 0 <= i < TokenLength(s, w) && s[i] == Underscore) ==> r.None?
    ensures 0 < TokenLength(s, w) && AllHex(s[..TokenLength(s, w)]) ==> r.Some?
  {
    var n := TokenLength(s, w);
    if n == 0 || !AllHex(s[..n]) then None
    else Some((HexValue(s[..n]), n))
  }

  /** Three fields in a row; bytes after the third are ignored, as `Sscanf` ignores them. */
  function ScanChannels(s: seq<byte>, w: nat): (r: Option<(byte, byte, byte)>)
    requires 1 <= w <= 2
    ensures |s| == 0 || !IsHexDigit(s[0]) ==> r.None?
    ensures 3 * w <= |s| && AllHex(s[..3 * w]) ==> r.Some?
    ensures r.Some? && w == 1 ==> r.value.0 < 16 && r.value.1 < 16 && r.value.2 < 16
  {
    match ScanField(s, w)
    case None => None
    case Some((r, n1)) =>
      match ScanField(s[n1..], w)
      case None => None
      case Some((g, n2)) =>
        match ScanField(s[n1 + n2..], w)
        case None => None
        case Some((b, _)) => Some((r, g, b))
  }

  /** `parseHexColor` as written. The Go code reads `s[0]` before any length test, so an
      empty string panics; hence the precondition. */
  function ParseHexColor(s: seq<byte>): (r: Result<Rgba, ColorError>)
    requires |s| > 0
    ensures r.Ok? ==> r.value.a == Opaque
    ensures r == Err(InvalidFormat) <==> s[0] != Hash || (|s| != 7 && |s| != 4)
  {
    if s[0] != Hash then Err(InvalidFormat)
    else if |s| == 7 then
      match ScanChannels(s[1..], 2)
      case None => Err(ScanFailed)
      case Some((r, g, b)) => Ok(Rgba(r, g, b, Opaque))
    else if |s| == 4 then
      match ScanChannels(s[1..], 1)
      case None => Err(ScanFailed)
      case Some((r, g, b)) => Ok(Rgba(MulByte(r, 17), MulByte(g, 17), MulByte(b, 17), Opaque))
    else Err(InvalidFormat)
  }

  /** The channel spelled by the two digits at `s[i]` and `s[i + 1]`. */
  function Pair(s: seq<byte>, i: nat): (v: byte)
    requires i + 1 < |s| && IsHexDigit(s[i]) && IsHexDigit(s[i + 1])
  {
    16 * DigitValue(s[i]) + DigitValue(s[i + 1])
  }

  /** `#RRGGBB` with six hexadecimal digits: each channel is its two-digit value. */
  lemma LongFormChannels(s: seq<byte>)
    requires |s| == 7 && s[0] == Hash && AllHex(s[1..])
    ensures IsHexDigit(s[1]) && IsHexDigit(s[2]) && IsHexDigit(s[3])
    ensures IsHexDigit(s[4]) && IsHexDigit(s[5]) && IsHexDigit(s[6])
    ensures ParseHexColor(s) == Ok(Rgba(Pair(s, 1), Pair(s, 3), Pair(s, 5), Opaque))
  {
    var t := s[1..];
    assert forall i :: 1 <= i < 7 ==> IsHexDigit(s[i]) by {
      forall i | 1 <= i < 7 ensures IsHexDigit(s[i]) { assert s[i] == t[i - 1]; }
    }
    assert TokenLength(t, 2) == 2;
    assert t[2..][..2] == s[3..5];
    assert TokenLength(t[2..], 2) == 2;
    assert t[4..][..2] == s[5..7];
    assert TokenLength(t[4..], 2) == 2;
  }

  /** `#RGB` succeeds exactly when the three bytes are hexadecimal digits, and then each
      channel is the digit times 17, which never wraps the uint8. */
  lemma ShortFormChannels(s: seq<byte>)
    requires |s| == 4 && s[0] == Hash
    ensures ParseHexColor(s).Ok? <==> AllHex(s[1..])
    ensures ParseHexColor(s).Ok? ==>
      ParseHexColor(s) == Ok(Rgba(17 * DigitValue(s[1]), 17 * DigitValue(s[2]), 17 * DigitValue(s[3]), Opaque))
  {
    var t := s[1..];
    if AllHex(t) {
      assert IsHexDigit(t[0]) && IsHexDigit(t[1]) && IsHexDigit(t[2]);
      assert TokenLength(t, 1) == 1;
      assert TokenLength(t[1..], 1) == 1;
      assert TokenLength(t[2..], 1) == 1;
      assert t[1..][..1] == [s[2]] && t[2..][..1] == [s[3]] && t[..1] == [s[1]];
    } else {
      var k :| 0 <= k < 3 && !IsHexDigit(t[k]);
      if k == 0 {
        assert ScanField(t, 1).None? by { assert t[..1] == [t[0]]; }
      } else if k == 1 {
        assert ScanField(t[1..], 1).None? by { assert t[1..][..1] == [t[1]]; }
      } else {
        assert ScanField(t[2..], 1).None? by { assert t[2..][..1] == [t[2]]; }
      }
    }
  }

  /** The long form as written accepts a last channel of one digit: `#12345z` parses as
      (0x12, 0x34, 0x05), although `z` is not a hexadecimal digit. */
  lemma TrailingByteAccepted()
    ensures ParseHexColor(Ascii("#12345z")) == Ok(Rgba(0x12, 0x34, 0x05, Opaque))
  {
    var s := Ascii("#12345z");
    TrailingByteBytes();
    TrailingByteChannels();
    assert s[1..] == [0x31, 0x32, 0x33, 0x34, 0x35, 0x7A];
  }

  lemma TrailingByteBytes()
    ensures Ascii("#12345z") == [0x23, 0x31, 0x32, 0x33, 0x34, 0x35, 0x7A]
  {
  }

  /** The digits `12345z`: two full fields, then a one-digit field ended by `z`. */
  lemma TrailingByteChannels()
    ensures ScanChannels([0x31, 0x32, 0x33, 0x34, 0x35, 0x7A], 2) == Some((0x12, 0x34, 0x05))
  {
    var t: seq<byte> := [0x31, 0x32, 0x33, 0x34, 0x35, 0x7A];
    FieldOfTwoDigits(t, 0x31, 0x32);
    FieldOfTwoDigits(t[2..], 0x33, 0x34);
    assert t[4..] == [0x35, 0x7A];
    assert TokenLength(t[4..], 2) == 1;
    assert t[4..][..1] == [0x35];
  }

  /** A field of width 2 that starts with two hexadecimal digits takes both. */
  lemma FieldOfTwoDigits(s: seq<byte>, x: byte, y: byte)
    requires |s| >= 2 && s[0] == x && s[1] == y && IsHexDigit(x) && IsHexDigit(y)
    ensures ScanField(s, 2) == Some((16 * DigitValue(x) + DigitValue(y), 2))
  {
    assert TokenLength(s, 2) == 2;
    assert s[..2] == [x, y];
  }

  // ---------------------------------------------------------------------------
  // The parser the code evidently intends.
  // ---------------------------------------------------------------------------

  /** A leading '#' followed by exactly three or six hexadecimal digits. */
  predicate WellFormed(s: seq<byte>) {
    (|s| == 7 || |s| == 4) && s[0] == Hash && AllHex(s[1..])
  }

  /** `parseHexColor` with the digits checked in full; the empty string is an invalid
      format rather than a panic. */
  function ParseHexColorStrict(s: seq<byte>): (r: Result<Rgba, ColorError>)
    ensures r.Ok? <==> WellFormed(s)
    ensures r.Ok? ==> r.value.a == Opaque
    ensures r.Ok? && |s| == 7 ==>
      r.value == Rgba(Pair(s, 1), Pair(s, 3), Pair(s, 5), Opaque)
    ensures r.Ok? && |s| == 4 ==>
      r.value == Rgba(17 * DigitValue(s[1]), 17 * DigitValue(s[2]), 17 * DigitValue(s[3]), Opaque)
    ensures r == Err(InvalidFormat) <==> |s| == 0 || s[0] != Hash || (|s| != 7 && |s| != 4)
  {
    if |s| == 0 || s[0] != Hash || (|s| != 7 && |s| != 4) then Err(InvalidFormat)
    else if !AllHex(s[1..]) then Err(ScanFailed)
    else
      assert forall i :: 1 <= i < |s| ==> IsHexDigit(s[i]) by {
        forall i | 1 <= i < |s| ensures IsHexDigit(s[i]) { assert s[i] == s[1..][i - 1]; }
      }
      if |s| == 7 then Ok(Rgba(Pair(s, 1), Pair(s, 3), Pair(s, 5), Opaque))
      else Ok(Rgba(17 * DigitValue(s[1]), 17 * DigitValue(s[2]), 17 * DigitValue(s[3]), Opaque))
  }

  /** On every string the strict parser accepts, the code as written gives the same colour;
      and wherever the code as written rejects, so does the strict parser. */
  lemma StrictAgreesWithSource(s: seq<byte>)
    requires |s| > 0
    ensures ParseHexColorStrict(s).Ok? ==> ParseHexColor(s) == ParseHexColorStrict(s)
    ensures ParseHexColor(s).Err? ==> ParseHexColorStrict(s).Err?
  {
    if |s| == 7 && s[0] == Hash && AllHex(s[1..]) {
      LongFormChannels(s);
    } else if |s| == 4 && s[0] == Hash {
      ShortFormChannels(s);
    }
  }

  /** `#RGB` means `#RRGGBB` with every digit doubled, for the parser as written and for the
      corrected one alike. */
  lemma ShortFormIsDoubledLongForm(x: byte, y: byte, z: byte)
    ensures ParseHexColor([Hash, x, y, z]).Ok? <==> ParseHexColor([Hash, x, x, y, y, z, z]).Ok?
    ensures ParseHexColor([Hash, x, y, z]).Ok? ==>
      ParseHexColor([Hash, x, y, z]) == ParseHexColor([Hash, x, x, y, y, z, z])
    ensures ParseHexColorStrict([Hash, x, y, z]) == ParseHexColorStrict([Hash, x, x, y, y, z, z])
  {
    StrictDoubling(x, y, z);
    var short, long := [Hash, x, y, z], [Hash, x, x, y, y, z, z];
    StrictAgreesWithSource(short);
    StrictAgreesWithSource(long);
    ShortFormChannels(short);
    assert short[1..] == [x, y, z] && long[1..] == [x, x, y, y, z, z];
    if !(IsHexDigit(x) && IsHexDigit(y) && IsHexDigit(z)) {
      LongFormRejectsBadDigit(long);
    }
  }

  /** The long form as written fails when one of its first five digits is not a hexadecimal
      digit: whichever field holds that byte either finds no digit or collects a `_`. */
  lemma LongFormRejectsBadDigit(s: seq<byte>)
    requires |s| == 7 && s[0] == Hash
    requires s[1] == s[2] && s[3] == s[4] && s[5] == s[6]
    requires !(IsHexDigit(s[1]) && IsHexDigit(s[3]) && IsHexDigit(s[5]))
    ensures ParseHexColor(s).Err?
  {
    var t := s[1..];
    assert t == [s[1], s[1], s[3], s[3], s[5], s[5]];
    if !IsHexDigit(s[1]) {
      assert ScanField(t, 2).None? by {
        if IsScanDigit(t[0]) { assert TokenLength(t, 2) == 2 && t[..2][0] == Underscore; }
      }
    } else if !IsHexDigit(s[3]) {
      assert TokenLength(t, 2) == 2 && t[2..] == [s[3], s[3], s[5], s[5]];
      assert ScanField(t[2..], 2).None? by {
        if IsScanDigit(s[3]) { assert TokenLength(t[2..], 2) == 2 && t[2..][..2][0] == Underscore; }
      }
    } else {
      assert TokenLength(t, 2) == 2 && t[2..] == [s[3], s[3], s[5], s[5]];
      assert TokenLength(t[2..], 2) == 2 && t[4..] == [s[5], s[5]];
      assert ScanField(t[4..], 2).None? by {
        if IsScanDigit(s[5]) { assert TokenLength(t[4..], 2) == 2 && t[4..][..2][0] == Underscore; }
      }
    }
  }

  lemma StrictDoubling(x: byte, y: byte, z: byte)
    ensures ParseHexColorStrict([Hash, x, y, z]) == ParseHexColorStrict([Hash, x, x, y, y, z, z])
  {
    var short, long := [Hash, x, y, z], [Hash, x, x, y, y, z, z];
    assert short[1..] == [x, y, z] && long[1..] == [x, x, y, y, z, z];
    if IsHexDigit(x) && IsHexDigit(y) && IsHexDigit(z) {
      assert AllHex(long[1..]);
    } else if !IsHexDigit(x) {
      assert !IsHexDigit(short[1..][0]) && !IsHexDigit(long[1..][0]);
    } else if !IsHexDigit(y) {
      assert !IsHexDigit(short[1..][1]) && !IsHexDigit(long[1..][2]);
    } else {
      assert !IsHexDigit(short[1..][2]) && !IsHexDigit(long[1..][4]);
    }
  }

  /** The lower-case hexadecimal digit of a value below 16. */
  function HexDigit(v: nat): (c: byte)
    requires v < 16
    ensures IsHexDigit(c) && DigitValue(c) == v
  {
    if v < 10 then 0x30 + v else 0x61 + (v - 10)
  }

  /** `#rrggbb` for an opaque colour. */
  function FormatHex(c: Rgba): (s: seq<byte>)
  {
    [Hash, HexDigit(c.r / 16), HexDigit(c.r % 16), HexDigit(c.g / 16), HexDigit(c.g % 16),
     HexDigit(c.b / 16), HexDigit(c.b % 16)]
  }

  /** Formatting then parsing an opaque colour gives it back, with either parser. */
  lemma FormatThenParse(c: Rgba)
    requires c.a == Opaque
    ensures ParseHexColorStrict(FormatHex(c)) == Ok(c)
    ensures ParseHexColor(FormatHex(c)) == Ok(c)
  {
    var s := FormatHex(c);
    assert AllHex(s[1..]);
    StrictAgreesWithSource(s);
  }

  /** Worked examples: both forms of white, a long-form colour, a missing '#' and a wrong
      length. */
  lemma ColorExamples()
    ensures ParseHexColor(Ascii("#ffffff")) == Ok(Rgba(255, 255, 255, 255))
    ensures ParseHexColor(Ascii("#fff")) == Ok(Rgba(255, 255, 255, 255))
    ensures ParseHexColor(Ascii("#336699")) == Ok(Rgba(51, 102, 153, 255))
    ensures ParseHexColor(Ascii("336699")) == Err(InvalidFormat)
    ensures ParseHexColor(Ascii("#12")) == Err(InvalidFormat)
    ensures ParseHexColorStrict(Ascii("#ffffff")) == Ok(Rgba(255, 255, 255, 255))
    ensures ParseHexColorStrict(Ascii("#fff")) == Ok(Rgba(255, 255, 255, 255))
    ensures ParseHexColorStrict(Ascii("#336699")) == Ok(Rgba(51, 102, 153, 255))
    ensures ParseHexColorStrict(Ascii("336699")) == Err(InvalidFormat)
    ensures ParseHexColorStrict(Ascii("#12")) == Err(InvalidFormat)
  {
    ColorExampleBytes();
    var white: seq<byte> := [0x23, 0x66, 0x66, 0x66, 0x66, 0x66, 0x66];
    var shortWhite: seq<byte> := [0x23, 0x66, 0x66, 0x66];
    var blue: seq<byte> := [0x23, 0x33, 0x33, 0x36, 0x36, 0x39, 0x39];
    ColorExampleStrict(white, shortWhite, blue);
    StrictAgreesWithSource(white);
    StrictAgreesWithSource(shortWhite);
    StrictAgreesWithSource(blue);
  }

  lemma ColorExampleBytes()
    ensures Ascii("#ffffff") == [0x23, 0x66, 0x66, 0x66, 0x66, 0x66, 0x66]
    ensures Ascii("#fff") == [0x23, 0x66, 0x66, 0x66]
    ensures Ascii("#336699") == [0x23, 0x33, 0x33, 0x36, 0x36, 0x39, 0x39]
    ensures Ascii("336699")[0] == 0x33 && |Ascii("336699")| == 6
    ensures |Ascii("#12")| == 3
  {
  }

  lemma ColorExampleStrict(white: seq<byte>, shortWhite: seq<byte>, blue: seq<byte>)
    requires white == [0x23, 0x66, 0x66, 0x66, 0x66, 0x66, 0x66]
    requires shortWhite == [0x23, 0x66, 0x66, 0x66]
    requires blue == [0x23, 0x33, 0x33, 0x36, 0x36, 0x39, 0x39]
    ensures ParseHexColorStrict(white) == Ok(Rgba(255, 255, 255, 255))
    ensures ParseHexColorStrict(shortWhite) == Ok(Rgba(255, 255, 255, 255))
    ensures ParseHexColorStrict(blue) == Ok(Rgba(51, 102, 153, 255))
  {
    assert AllHex(white[1..]) && AllHex(shortWhite[1..]) && AllHex(blue[1..]);
  }
}
