/**
 * The character layer of librexgen (src/librexgen/string/uchar.h): charset
 * tags, the case flags of a character and the macros that test and set them,
 * the Unicode plane classifier, the 4-byte binary cache and the encoding of a
 * codepoint into a charset.
 */
module UChar {
  import opened Wrappers

  /** A `byte` of the library. */
  type Byte = x: int | 0 <= x < 0x100

  /** A `uint32_t` codepoint. */
  type Codepoint = x: int | 0 <= x < 0x1_0000_0000

  /** A `char16_t` code unit. */
  type CodeUnit = x: int | 0 <= x < 0x1_0000

  // ---------------------------------------------------------------------
  // Charset tags
  // ---------------------------------------------------------------------

  datatype Charset = Ansi | Utf8 | Utf16BE | Utf32BE | Utf16LE | Utf32LE

  /** The `uint8_t` tag of each charset (CHARSET_ANSI … CHARSET_UTF32LE). */
  function CharsetTag(cs: Charset): (tag: bv8)
    ensures 1 <= tag <= 6
  {
    match cs
    case Ansi => 1
    case Utf8 => 2
    case Utf16BE => 3
    case Utf32BE => 4
    case Utf16LE => 5
    case Utf32LE => 6
  }

  /** Reads a charset tag back; exactly the values 1 to 6 are tags. */
  function CharsetOfTag(tag: bv8): (cs: Option<Charset>)
    ensures cs.Some? <==> 1 <= tag <= 6
    ensures cs.Some? ==> CharsetTag(cs.value) == tag
  {
    if tag == 1 then Some(Ansi)
    else if tag == 2 then Some(Utf8)
    else if tag == 3 then Some(Utf16BE)
    else if tag == 4 then Some(Utf32BE)
    else if tag == 5 then Some(Utf16LE)
    else if tag == 6 then Some(Utf32LE)
    else None
  }

  /** The six tags are pairwise distinct, and each reads back as its charset. */
  lemma CharsetTagsDistinct(a: Charset, b: Charset)
    ensures CharsetTag(a) == CharsetTag(b) <==> a == b
    ensures CharsetOfTag(CharsetTag(a)) == Some(a)
  {
  }

  // ---------------------------------------------------------------------
  // Case flags
  // ---------------------------------------------------------------------

  /** `uchar_flags_t`. */
  type UcharFlags = bv8

  const FlagsChangeCase: UcharFlags := 0x01
  const FlagsPreserveCase: UcharFlags := 0x02
  const FlagsUseCasefolded: UcharFlags := 0x04

  /** A flag value with exactly one bit set. */
  predicate SingleBit(f: UcharFlags)
  {
    f != 0 && f & (f - 1) == 0
  }

  /** The three flags are single bits and no two of them share a bit. */
  lemma FlagBitsDistinct()
    ensures SingleBit(FlagsChangeCase) && SingleBit(FlagsPreserveCase) && SingleBit(FlagsUseCasefolded)
    ensures FlagsChangeCase & FlagsPreserveCase == 0
    ensures FlagsChangeCase & FlagsUseCasefolded == 0
    ensures FlagsPreserveCase & FlagsUseCasefolded == 0
  {
  }

  /** C's logical `!` applied to an integer operand: 1 for zero, 0 for anything else. */
  function LogicalNot(x: bv8): bv8
  {
    if x == 0 then 1 else 0
  }

  /** UCHAR_CAN_CHANGE_CASE: the logical negation of the preserve-case bit, read as a truth value. */
  function CanChangeCase(flags: UcharFlags): (can: bool)
    ensures can <==> flags & FlagsPreserveCase == 0
  {
    LogicalNot(flags & FlagsPreserveCase) != 0
  }

  /** UCHAR_MUST_PRESERVE_CASE: the preserve-case bit itself, an integer used as a truth value. */
  function MustPreserveCase(flags: UcharFlags): (r: bv8)
    ensures r == 0 || r == FlagsPreserveCase
    ensures r != 0 <==> flags & FlagsPreserveCase != 0
  {
    flags & FlagsPreserveCase
  }

  /** The two tests are complements, and both look only at the preserve-case bit. */
  lemma CaseTestsAreComplements(flags: UcharFlags)
    ensures CanChangeCase(flags) <==> flags & FlagsPreserveCase == 0
    ensures MustPreserveCase(flags) != 0 <==> flags & FlagsPreserveCase != 0
    ensures CanChangeCase(flags) <==> MustPreserveCase(flags) == 0
  {
  }

  /**
   * UCHAR_SET_CHANGE_CASE as written: sets the change-case bit, then masks with the
   * LOGICAL negation of the preserve-case bit. That negation is 0, so every bit ends up
   * cleared, the change-case bit included.
   */
  function SetChangeCaseFlags(flags: UcharFlags): (r: UcharFlags)
    ensures r == 0
    ensures CanChangeCase(r)
  {
    var f := flags | FlagsChangeCase;
    f & LogicalNot(FlagsPreserveCase)
  }

  /**
   * UCHAR_SET_PRESERVE_CASE as written: masks with the LOGICAL negation of the
   * change-case bit, which is 0, then sets the preserve-case bit; only that bit is left.
   */
  function SetPreserveCaseFlags(flags: UcharFlags): (r: UcharFlags)
    ensures r == FlagsPreserveCase
    ensures !CanChangeCase(r) && MustPreserveCase(r) != 0
  {
    var f := flags & LogicalNot(FlagsChangeCase);
    f | FlagsPreserveCase
  }

  /** After either set-macro the change-case and preserve-case bits are never both set. */
  lemma SetMacrosKeepCaseBitsExclusive(flags: UcharFlags)
    ensures SetChangeCaseFlags(flags) & (FlagsChangeCase | FlagsPreserveCase) != (FlagsChangeCase | FlagsPreserveCase)
    ensures SetPreserveCaseFlags(flags) & (FlagsChangeCase | FlagsPreserveCase) != (FlagsChangeCase | FlagsPreserveCase)
  {
  }

  /** UCHAR_SET_CHANGE_CASE keeps nothing: it even drops the change-case bit it has just set. */
  lemma SetChangeCaseDropsChangeBit(flags: UcharFlags)
    ensures SetChangeCaseFlags(flags) & FlagsChangeCase == 0
    ensures SetChangeCaseFlags(FlagsUseCasefolded) & FlagsUseCasefolded == 0
  {
  }

  /** UCHAR_SET_PRESERVE_CASE drops the use-casefolded bit. */
  lemma SetPreserveCaseDropsCasefoldedBit()
    ensures SetPreserveCaseFlags(FlagsUseCasefolded) & FlagsUseCasefolded == 0
  {
  }

  /** UCHAR_SET_CHANGE_CASE with the bitwise complement `~` in place of `!`. */
  function SetChangeCaseIntended(flags: UcharFlags): (r: UcharFlags)
    ensures r & FlagsChangeCase != 0 && r & FlagsPreserveCase == 0
    ensures CanChangeCase(r)
    ensures r & !(FlagsChangeCase | FlagsPreserveCase) == flags & !(FlagsChangeCase | FlagsPreserveCase)
  {
    (flags | FlagsChangeCase) & !FlagsPreserveCase
  }

  /** UCHAR_SET_PRESERVE_CASE with the bitwise complement `~` in place of `!`. */
  function SetPreserveCaseIntended(flags: UcharFlags): (r: UcharFlags)
    ensures r & FlagsChangeCase == 0 && r & FlagsPreserveCase != 0
    ensures !CanChangeCase(r)
    ensures r & !(FlagsChangeCase | FlagsPreserveCase) == flags & !(FlagsChangeCase | FlagsPreserveCase)
  {
    (flags & !FlagsChangeCase) | FlagsPreserveCase
  }

  // ---------------------------------------------------------------------
  // Unicode planes
  // ---------------------------------------------------------------------

  /** `unicode_plane_t`. */
  datatype Plane = BMP | SMP | SIP | SSP | PuaA | PuaB

  /** The plane numbers of `unicode_plane_t`. */
  function PlaneNumber(p: Plane): (n: nat)
    ensures n <= 16
  {
    match p
    case BMP => 0
    case SMP => 1
    case SIP => 2
    case SSP => 14
    case PuaA => 15
    case PuaB => 16
  }

  /** The plane a number names, if it names one of the six. */
  function PlaneOfNumber(n: nat): (p: Option<Plane>)
    ensures p.Some? <==> n in {0, 1, 2, 14, 15, 16}
    ensures p.Some? ==> PlaneNumber(p.value) == n
  {
    if n == 0 then Some(BMP)
    else if n == 1 then Some(SMP)
    else if n == 2 then Some(SIP)
    else if n == 14 then Some(SSP)
    else if n == 15 then Some(PuaA)
    else if n == 16 then Some(PuaB)
    else None
  }

  // ---------------------------------------------------------------------
  // Encodings
  // ---------------------------------------------------------------------

  /** UCHAR_UNASSIGNED. */
  const Unassigned: Codepoint := 0xffff_ffff

  /** The size of `binary_character_t`, and so of every cached encoding. */
  const CacheSize := 4

  /** Codepoints that Unicode encodings can carry: up to U+10FFFF, outside the surrogate block. */
  predicate IsScalarValue(cp: Codepoint)
  {
    cp <= 0x10FFFF && !(0xD800 <= cp <= 0xDFFF)
  }

  predicate IsContinuation(b: Byte)
  {
    0x80 <= b <= 0xBF
  }

  /** UTF-8 as in the table of section 3 of RFC 3629. */
  function Utf8Encode(cp: Codepoint): (r: Option<seq<Byte>>)
    ensures r.Some? <==> IsScalarValue(cp)
    ensures r.Some? ==> 1 <= |r.value| <= 4
    ensures r.Some? ==> forall i :: 1 <= i < |r.value| ==> IsContinuation(r.value[i])
  {
    if cp <= 0x7F then Some([cp])
    else if cp <= 0x7FF then Some([0xC0 + cp / 0x40, 0x80 + cp % 0x40])
    else if cp <= 0xFFFF then
      if 0xD800 <= cp <= 0xDFFF then None
      else Some([0xE0 + cp / 0x40 / 0x40, 0x80 + cp / 0x40 % 0x40, 0x80 + cp % 0x40])
    else if cp <= 0x10FFFF then
      Some([0xF0 + cp / 0x40 / 0x40 / 0x40, 0x80 + cp / 0x40 / 0x40 % 0x40,
            0x80 + cp / 0x40 % 0x40, 0x80 + cp % 0x40])
    else None
  }

  /** Reads one UTF-8 sequence back; overlong forms, surrogates and values past U+10FFFF are refused. */
  function Utf8Decode(bs: seq<Byte>): Option<Codepoint>
  {
    if |bs| == 1 && bs[0] <= 0x7F then Some(bs[0])
    else if |bs| == 2 && 0xC0 <= bs[0] <= 0xDF && IsContinuation(bs[1]) then
      var cp := (bs[0] as int - 0xC0) * 0x40 + (bs[1] as int - 0x80);
      if 0x80 <= cp then Some(cp) else None
    else if |bs| == 3 && 0xE0 <= bs[0] <= 0xEF && IsContinuation(bs[1]) && IsContinuation(bs[2]) then
      var cp := (bs[0] as int - 0xE0) * 0x1000 + (bs[1] as int - 0x80) * 0x40 + (bs[2] as int - 0x80);
      if 0x800 <= cp && !(0xD800 <= cp <= 0xDFFF) then Some(cp) else None
    else if |bs| == 4 && 0xF0 <= bs[0] <= 0xF7 && IsContinuation(bs[1]) && IsContinuation(bs[2])
                      && IsContinuation(bs[3]) then
      var cp := (bs[0] as int - 0xF0) * 0x40000 + (bs[1] as int - 0x80) * 0x1000
                + (bs[2] as int - 0x80) * 0x40 + (bs[3] as int - 0x80);
      if 0x10000 <= cp <= 0x10FFFF then Some(cp) else None
    else None
  }

  lemma Utf8EncodeDecode(cp: Codepoint)
    requires IsScalarValue(cp)
    ensures Utf8Decode(Utf8Encode(cp).value) == Some(cp)
  {
    var q1 := cp / 0x40;
    var q2 := q1 / 0x40;
    var q3 := q2 / 0x40;
    assert cp == 0x40 * q1 + cp % 0x40;
    assert q1 == 0x40 * q2 + q1 % 0x40;
    assert q2 == 0x40 * q3 + q2 % 0x40;
    if cp <= 0x7F {
    } else if cp <= 0x7FF {
      assert Utf8Encode(cp).value == [0xC0 + q1, 0x80 + cp % 0x40];
    } else if cp <= 0xFFFF {
      assert Utf8Encode(cp).value == [0xE0 + q2, 0x80 + q1 % 0x40, 0x80 + cp % 0x40];
    } else {
      assert Utf8Encode(cp).value == [0xF0 + q3, 0x80 + q2 % 0x40, 0x80 + q1 % 0x40, 0x80 + cp % 0x40];
    }
  }

  lemma Utf8DecodeEncode(bs: seq<Byte>)
    requires Utf8Decode(bs).Some?
    ensures Utf8Encode(Utf8Decode(bs).value) == Some(bs)
  {
    var cp := Utf8Decode(bs).value;
    if |bs| == 1 {
      assert bs == [bs[0]];
    } else if |bs| == 2 {
      assert cp / 0x40 == bs[0] - 0xC0 && cp % 0x40 == bs[1] - 0x80;
      assert bs == [bs[0], bs[1]];
    } else if |bs| == 3 {
      var q1 := (bs[0] as int - 0xE0) * 0x40 + (bs[1] - 0x80);
      assert cp / 0x40 == q1 && cp % 0x40 == bs[2] - 0x80;
      assert q1 / 0x40 == bs[0] - 0xE0 && q1 % 0x40 == bs[1] - 0x80;
      assert bs == [bs[0], bs[1], bs[2]];
    } else if |bs| == 4 {
      var q2 := (bs[0] as int - 0xF0) * 0x40 + (bs[1] - 0x80);
      var q1 := q2 * 0x40 + (bs[2] - 0x80);
      assert cp / 0x40 == q1 && cp % 0x40 == bs[3] - 0x80;
      assert q1 / 0x40 == q2 && q1 % 0x40 == bs[2] - 0x80;
      assert q2 / 0x40 == bs[0] - 0xF0 && q2 % 0x40 == bs[1] - 0x80;
      assert bs == [bs[0], bs[1], bs[2], bs[3]];
    }
  }

  /** UTF-16 code units as in section 2.1 of RFC 2781: one unit, or a high/low surrogate pair. */
  function Utf16Encode(cp: Codepoint): (r: Option<seq<CodeUnit>>)
    ensures r.Some? <==> IsScalarValue(cp)
    ensures r.Some? && cp < 0x10000 ==> r.value == [cp]
    ensures r.Some? && cp >= 0x10000 ==>
      |r.value| == 2 && 0xD800 <= r.value[0] <= 0xDBFF && 0xDC00 <= r.value[1] <= 0xDFFF
  {
    if cp < 0x10000 then
      if 0xD800 <= cp <= 0xDFFF then None else Some([cp])
    else if cp <= 0x10FFFF then
      var u := cp - 0x10000;
      Some([0xD800 + u / 0x400, 0xDC00 + u % 0x400])
    else None
  }

  /** Reads one or two UTF-16 code units back (section 2.2 of RFC 2781). */
  function Utf16Decode(us: seq<CodeUnit>): Option<Codepoint>
  {
    if |us| == 1 && !(0xD800 <= us[0] <= 0xDFFF) then Some(us[0])
    else if |us| == 2 && 0xD800 <= us[0] <= 0xDBFF && 0xDC00 <= us[1] <= 0xDFFF then
      Some(0x10000 + (us[0] as int - 0xD800) * 0x400 + (us[1] as int - 0xDC00))
    else None
  }

  lemma Utf16EncodeDecode(cp: Codepoint)
    requires IsScalarValue(cp)
    ensures Utf16Decode(Utf16Encode(cp).value) == Some(cp)
  {
    if cp >= 0x10000 {
      var u := cp - 0x10000;
      assert u == 0x400 * (u / 0x400) + u % 0x400;
    }
  }

  lemma Utf16DecodeEncode(us: seq<CodeUnit>)
    requires Utf16Decode(us).Some?
    ensures Utf16Encode(Utf16Decode(us).value) == Some(us)
  {
    if |us| == 1 {
      assert us == [us[0]];
    } else {
      var u := Utf16Decode(us).value - 0x10000;
      assert u / 0x400 == us[0] - 0xD800 && u % 0x400 == us[1] - 0xDC00;
      assert us == [us[0], us[1]];
    }
  }

  /** The two bytes of a code unit, most significant first when `bigEndian`. */
  function UnitBytes(u: CodeUnit, bigEndian: bool): seq<Byte>
  {
    if bigEndian then [u / 0x100, u % 0x100] else [u % 0x100, u / 0x100]
  }

  function UnitsBytes(us: seq<CodeUnit>, bigEndian: bool): (bs: seq<Byte>)
    ensures |bs| == 2 * |us|
  {
    if us == [] then [] else UnitBytes(us[0], bigEndian) + UnitsBytes(us[1..], bigEndian)
  }

  function BytesUnits(bs: seq<Byte>, bigEndian: bool): seq<CodeUnit>
    requires |bs| % 2 == 0
  {
    if bs == [] then []
    else
      var u := if bigEndian then bs[0] as int * 0x100 + bs[1] else bs[1] as int * 0x100 + bs[0];
      [u] + BytesUnits(bs[2..], bigEndian)
  }

  lemma {:induction false} UnitsBytesRoundTrip(us: seq<CodeUnit>, bigEndian: bool)
    ensures BytesUnits(UnitsBytes(us, bigEndian), bigEndian) == us
  {
    if us != [] {
      UnitsBytesRoundTrip(us[1..], bigEndian);
      var bs := UnitsBytes(us, bigEndian);
      assert bs[2..] == UnitsBytes(us[1..], bigEndian);
    }
  }

  lemma {:induction false} BytesUnitsRoundTrip(bs: seq<Byte>, bigEndian: bool)
    requires |bs| % 2 == 0
    ensures UnitsBytes(BytesUnits(bs, bigEndian), bigEndian) == bs
  {
    if bs != [] {
      BytesUnitsRoundTrip(bs[2..], bigEndian);
      assert bs == bs[..2] + bs[2..];
    }
  }

  /** UTF-32: the raw 32-bit value as four bytes, most significant first when `bigEndian`. */
  function Utf32Bytes(cp: Codepoint, bigEndian: bool): (bs: seq<Byte>)
    ensures |bs| == 4
  {
    var b3, b2, b1, b0 := cp / 0x100 / 0x100 / 0x100, cp / 0x100 / 0x100 % 0x100, cp / 0x100 % 0x100, cp % 0x100;
    if bigEndian then [b3, b2, b1, b0] else [b0, b1, b2, b3]
  }

  function Utf32Value(bs: seq<Byte>, bigEndian: bool): Option<Codepoint>
  {
    if |bs| != 4 then None
    else if bigEndian then Some(bs[0] as int * 0x100_0000 + bs[1] as int * 0x1_0000 + bs[2] as int * 0x100 + bs[3])
    else Some(bs[3] as int * 0x100_0000 + bs[2] as int * 0x1_0000 + bs[1] as int * 0x100 + bs[0])
  }

  lemma Utf32RoundTrip(cp: Codepoint, bs: seq<Byte>, bigEndian: bool)
    ensures Utf32Value(Utf32Bytes(cp, bigEndian), bigEndian) == Some(cp)
    ensures Utf32Value(bs, bigEndian).Some? ==> Utf32Bytes(Utf32Value(bs, bigEndian).value, bigEndian) == bs
  {
    var q1 := cp / 0x100;
    var q2 := q1 / 0x100;
    assert cp == 0x100 * q1 + cp % 0x100;
    assert q1 == 0x100 * q2 + q1 % 0x100;
    assert q2 == 0x100 * (q2 / 0x100) + q2 % 0x100;
    if |bs| == 4 {
      var (hi, mid, lo, low) := if bigEndian then (bs[0], bs[1], bs[2], bs[3]) else (bs[3], bs[2], bs[1], bs[0]);
      var v2 := hi as int * 0x100 + mid;
      var v1 := v2 * 0x100 + lo;
      var v := v1 * 0x100 + low;
      assert Utf32Value(bs, bigEndian) == Some(v);
      assert v / 0x100 == v1 && v % 0x100 == low;
      assert v1 / 0x100 == v2 && v1 % 0x100 == lo;
      assert v2 / 0x100 == hi && v2 % 0x100 == mid;
      assert bs == [bs[0], bs[1], bs[2], bs[3]];
    }
  }

  predicate IsBigEndian(cs: Charset)
  {
    cs == Utf16BE || cs == Utf32BE
  }

  /**
   * The bytes `encode_codepoint` caches for a codepoint in a charset, or None when the
   * charset has no form for it. Every form fits the 4-byte `binary_character_t`.
   */
  function Encoding(cp: Codepoint, cs: Charset): (r: Option<seq<Byte>>)
    ensures r.Some? ==> 1 <= |r.value| <= CacheSize
    ensures cs == Ansi ==> (r.Some? <==> cp < 0x100) && (r.Some? ==> r.value == [cp])
    ensures cs == Utf8 ==> r == Utf8Encode(cp)
    ensures cs in {Utf16BE, Utf16LE} ==> (r.Some? <==> IsScalarValue(cp))
    ensures cs in {Utf16BE, Utf16LE} && r.Some? ==> |r.value| == (if cp < 0x10000 then 2 else 4)
    ensures cs in {Utf32BE, Utf32LE} ==> r.Some? && |r.value| == 4
  {
    match cs
    case Ansi => if cp < 0x100 then Some([cp]) else None
    case Utf8 => Utf8Encode(cp)
    case Utf16BE | Utf16LE =>
      (match Utf16Encode(cp)
       case Some(us) => Some(UnitsBytes(us, IsBigEndian(cs)))
       case None => None)
    case Utf32BE | Utf32LE => Some(Utf32Bytes(cp, IsBigEndian(cs)))
  }

  /** Reads a cached form back into its codepoint. */
  function Decoding(bs: seq<Byte>, cs: Charset): Option<Codepoint>
  {
    match cs
    case Ansi => if |bs| == 1 then Some(bs[0]) else None
    case Utf8 => Utf8Decode(bs)
    case Utf16BE | Utf16LE =>
      if |bs| % 2 == 0 then Utf16Decode(BytesUnits(bs, IsBigEndian(cs))) else None
    case Utf32BE | Utf32LE => Utf32Value(bs, IsBigEndian(cs))
  }

  /** Every encoding decodes back to the codepoint it came from. */
  lemma EncodingRoundTrip(cp: Codepoint, cs: Charset)
    requires Encoding(cp, cs).Some?
    ensures Decoding(Encoding(cp, cs).value, cs) == Some(cp)
  {
    match cs
    case Ansi =>
    case Utf8 => Utf8EncodeDecode(cp);
    case Utf16BE | Utf16LE =>
      Utf16EncodeDecode(cp);
      UnitsBytesRoundTrip(Utf16Encode(cp).value, IsBigEndian(cs));
    case Utf32BE | Utf32LE => Utf32RoundTrip(cp, [], IsBigEndian(cs));
  }

  /** Every byte string that decodes is exactly the encoding of what it decodes to. */
  lemma DecodingRoundTrip(bs: seq<Byte>, cs: Charset)
    requires Decoding(bs, cs).Some?
    ensures Encoding(Decoding(bs, cs).value, cs) == Some(bs)
  {
    match cs
    case Ansi => assert bs == [bs[0]];
    case Utf8 => Utf8DecodeEncode(bs);
    case Utf16BE | Utf16LE =>
      var us := BytesUnits(bs, IsBigEndian(cs));
      Utf16DecodeEncode(us);
      BytesUnitsRoundTrip(bs, IsBigEndian(cs));
    case Utf32BE | Utf32LE => Utf32RoundTrip(0, bs, IsBigEndian(cs));
  }

  /** UCHAR_UNASSIGNED has no UTF-8, UTF-16 or ANSI form. */
  lemma UnassignedHasNoUnicodeForm()
    ensures Encoding(Unassigned, Ansi).None? && Encoding(Unassigned, Utf8).None?
    ensures Encoding(Unassigned, Utf16BE).None? && Encoding(Unassigned, Utf16LE).None?
  {
  }

  /**
   * encode_codepoint: writes the encoding of `cp` in `cs` into the 4-byte cache `bch`
   * and returns its length; 0, with the cache left as it was, when there is none.
   */
  method EncodeCodepoint(cp: Codepoint, cs: Charset, bch: array<Byte>) returns (len: bv8)
    requires bch.Length == CacheSize
    modifies bch
    ensures Encoding(cp, cs).Some? ==> len as int == |Encoding(cp, cs).value| && bch[..len] == Encoding(cp, cs).value
    ensures Encoding(cp, cs).Some? ==> bch[len..] == old(bch[len..])
    ensures Encoding(cp, cs).None? ==> len == 0 && bch[..] == old(bch[..])
  {
    match Encoding(cp, cs)
    case None =>
      len := 0;
    case Some(bs) =>
      for i := 0 to |bs|
        invariant bch[..i] == bs[..i]
        invariant bch[|bs|..] == old(bch[|bs|..])
      {
        bch[i] := bs[i];
      }
      len := |bs| as bv8;
  }

  // ---------------------------------------------------------------------
  // The character record
  // ---------------------------------------------------------------------

  /** `uchar_t`: a character with its charset, flags, plane, codepoint and cached forms. */
  class UnicodeChar {
    var variant: bv8
    var charLength: bv8
    var flags: UcharFlags
    var plane: Plane
    var codepoint: Codepoint
    var character: seq<Byte>
    var casefolded: seq<seq<Byte>>

    ghost predicate Valid()
      reads this
    {
      |character| <= CacheSize && |casefolded| == 3
      && forall i :: 0 <= i < |casefolded| ==> |casefolded[i]| <= CacheSize
    }

    /** Aggregate initialisation of every field. */
    constructor (variant: bv8, charLength: bv8, flags: UcharFlags, plane: Plane,
                 codepoint: Codepoint, character: seq<Byte>, casefolded: seq<seq<Byte>>)
      requires |character| <= CacheSize && |casefolded| == 3
      requires forall i :: 0 <= i < |casefolded| ==> |casefolded[i]| <= CacheSize
      ensures Valid()
      ensures this.variant == variant && this.charLength == charLength && this.flags == flags
      ensures this.plane == plane && this.codepoint == codepoint
      ensures this.character == character && this.casefolded == casefolded
    {
      this.variant := variant;
      this.charLength := charLength;
      this.flags := flags;
      this.plane := plane;
      this.codepoint := codepoint;
      this.character := character;
      this.casefolded := casefolded;
    }

    /** UCHAR_SET_CHANGE_CASE applied to this character, as written. */
    method SetChangeCase()
      requires Valid()
      modifies this`flags
      ensures Valid()
      ensures flags == SetChangeCaseFlags(old(flags))
      ensures flags == 0 && CanChangeCase(flags)
    {
      flags := flags | FlagsChangeCase;
      flags := flags & LogicalNot(FlagsPreserveCase);
    }

    /** UCHAR_SET_PRESERVE_CASE applied to this character, as written. */
    method SetPreserveCase()
      requires Valid()
      modifies this`flags
      ensures Valid()
      ensures flags == SetPreserveCaseFlags(old(flags))
      ensures flags == FlagsPreserveCase && !CanChangeCase(flags)
    {
      flags := flags & LogicalNot(FlagsChangeCase);
      flags := flags | FlagsPreserveCase;
    }
  }
}
