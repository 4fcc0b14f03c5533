/**
 * The three encodings of the text-file input step (one byte per character,
 * two bytes big-endian, two bytes little-endian): their constants, the
 * recognition of carriage return and line feed, the guess of the encoding
 * from a charset name, and the removal of byte-order marks.
 *
 * Encoding a string to bytes (`String.getBytes`) is not part of this model:
 * `GetBytes` receives its result.
 */
module EncodingTypes {
  import opened JavaLang

  /** A Java `byte`: signed, -128..127. */
  newtype Byte = x: int | -128 <= x < 128

  /** A 16-bit code with its two bytes exchanged. */
  function Swap16(x: int): int {
    (x % 256) * 256 + x / 256
  }

  datatype EncodingType = Single | DoubleBigEndian | DoubleLittleEndian
  {
    /** Bytes per character. */
    function Length(): (n: int)
      ensures n == 1 || n == 2
    {
      match this
      case Single => 1
      case DoubleBigEndian => 2
      case DoubleLittleEndian => 2
    }

    /**
     * The byte-order mark U+FEFF, as read in the type's own byte order; the
     * one-byte type has none (0).
     */
    function Bom(): (b: int)
      ensures b == 0 <==> Length() == 1
      ensures Length() == 2 ==> b == (if this == DoubleLittleEndian then Swap16(0xFEFF) else 0xFEFF)
    {
      match this
      case Single => 0
      case DoubleBigEndian => 0xFEFF
      case DoubleLittleEndian => 0xFFFE
    }

    /** The carriage return: '\r', byte-swapped for the little-endian type. */
    function CarriageReturnChar(): (c: int)
      ensures c == (if this == DoubleLittleEndian then Swap16('\r' as int) else '\r' as int)
    {
      match this
      case Single => '\r' as int
      case DoubleBigEndian => 0x000d
      case DoubleLittleEndian => 0x0d00
    }

    /** The line feed: '\n', byte-swapped for the little-endian type. */
    function LineFeedChar(): (c: int)
      ensures c == (if this == DoubleLittleEndian then Swap16('\n' as int) else '\n' as int)
    {
      match this
      case Single => '\n' as int
      case DoubleBigEndian => 0x000a
      case DoubleLittleEndian => 0x0a00
    }

    /** `isReturn`: the type's carriage return, or a plain '\r'. */
    predicate IsReturn(c: int)
      ensures IsReturn(c) <==> c == '\r' as int || (this == DoubleLittleEndian && c == Swap16('\r' as int))
    {
      c == CarriageReturnChar() || c == '\r' as int
    }

    /** `isLinefeed`: the type's line feed, or a plain '\n'. */
    predicate IsLinefeed(c: int)
      ensures IsLinefeed(c) <==> c == '\n' as int || (this == DoubleLittleEndian && c == Swap16('\n' as int))
    {
      c == LineFeedChar() || c == '\n' as int
    }
  }

  /**
   * Each type recognises exactly two codes as a carriage return and two as
   * a line feed (one for the one-byte type, where both coincide), and no
   * code is both.
   */
  lemma LineEnds(t: EncodingType, c: int)
    ensures t.IsReturn(c) <==> c == 13 || (t == DoubleLittleEndian && c == 0x0d00)
    ensures t.IsLinefeed(c) <==> c == 10 || (t == DoubleLittleEndian && c == 0x0a00)
    ensures !(t.IsReturn(c) && t.IsLinefeed(c))
  {
  }

  predicate StartsWith(s: string, prefix: string) {
    |prefix| <= |s| && s[..|prefix|] == prefix
  }

  /**
   * `guessEncodingType`: one byte for an empty name; big-endian for
   * "UnicodeBig…", "UTF-16BE" and, without a byte-order mark to say
   * otherwise, "UTF-16" (as section 4.3 of RFC 2781 prescribes);
   * little-endian for "UnicodeLittle…" and "UTF-16LE"; one byte otherwise.
   */
  function GuessEncodingType(encoding: Option<string>): (t: EncodingType)
    ensures IsEmpty(encoding) ==> t == Single
    ensures encoding == Some("UTF-16") || encoding == Some("UTF-16BE") ==> t == DoubleBigEndian
    ensures encoding == Some("UTF-16LE") ==> t == DoubleLittleEndian
    ensures encoding.Some? && StartsWith(encoding.value, "UnicodeBig") ==> t == DoubleBigEndian
    ensures encoding.Some? && StartsWith(encoding.value, "UnicodeLittle") ==> t == DoubleLittleEndian
    ensures (!IsEmpty(encoding) && !StartsWith(encoding.value, "UnicodeBig") &&
             !StartsWith(encoding.value, "UnicodeLittle") && encoding.value !in {"UTF-16", "UTF-16BE", "UTF-16LE"})
            ==> t == Single
  {
    if IsEmpty(encoding) then Single
    else
      var e := encoding.value;
      // The two prefixes differ at their eighth character.
      assert StartsWith(e, "UnicodeLittle") ==> e[7] == 'L' && !StartsWith(e, "UnicodeBig");
      if StartsWith(e, "UnicodeBig") || e == "UTF-16BE" then DoubleBigEndian
      else if StartsWith(e, "UnicodeLittle") || e == "UTF-16LE" then DoubleLittleEndian
      else if e == "UTF-16" then DoubleBigEndian
      else Single
  }

  /** Only the UTF-16 and Unicode names select a two-byte type. */
  lemma GuessTwoBytes(encoding: Option<string>)
    ensures GuessEncodingType(encoding).Length() == 2 <==>
              encoding.Some? &&
              (StartsWith(encoding.value, "UnicodeBig") || StartsWith(encoding.value, "UnicodeLittle") ||
               encoding.value in {"UTF-16", "UTF-16BE", "UTF-16LE"})
  {
  }

  /** The byte-order mark as a character (U+FEFF), which is how a UTF-8 mark decodes. */
  const Utf8Bom: char := '\U{FEFF}'

  /** The position of the first `c` in `s`. */
  function IndexOf(s: string, c: char): (k: nat)
    requires c in s
    ensures k < |s| && s[k] == c && c !in s[..k]
  {
    if s[0] == c then 0
    else
      assert s == [s[0]] + s[1..];
      1 + IndexOf(s[1..], c)
  }

  /**
   * `removeBOMIfPresent`: null stays null; otherwise the first mark
   * character is removed (`replaceFirst`, which finds it anywhere, not only
   * at the start) and the rest is kept.
   */
  function RemoveBomIfPresent(s: Option<string>): (r: Option<string>)
    ensures s.None? <==> r.None?
    ensures s.Some? && Utf8Bom !in s.value ==> r == s
    ensures s.Some? && Utf8Bom in s.value ==>
              r.value == s.value[..IndexOf(s.value, Utf8Bom)] + s.value[IndexOf(s.value, Utf8Bom) + 1..]
  {
    match s
    case None => None
    case Some(t) =>
      if Utf8Bom !in t then s
      else
        var k := IndexOf(t, Utf8Bom);
        Some(t[..k] + t[k + 1..])
  }

  /** A text that begins with the mark loses exactly that mark, and a text without one is left alone. */
  lemma RemoveLeadingBom(text: string)
    ensures RemoveBomIfPresent(Some([Utf8Bom] + text)) == Some(text)
    ensures Utf8Bom !in text ==> RemoveBomIfPresent(Some(text)) == Some(text)
    ensures RemoveBomIfPresent(RemoveBomIfPresent(Some([Utf8Bom] + text))) == RemoveBomIfPresent(Some(text))
  {
    var t := [Utf8Bom] + text;
    assert IndexOf(t, Utf8Bom) == 0;
    assert t[..0] + t[1..] == text;
  }

  /** What `getBytes` returns for bytes `withBom`: the last two cases drop a leading pair of negative bytes. */
  function StripBom(t: EncodingType, withBom: seq<Byte>): (r: seq<Byte>)
    ensures |r| <= |withBom|
    ensures r == withBom || (|withBom| >= 2 && r == withBom[2..])
  {
    if t.Length() == 2 && |withBom| >= 2 && withBom[0] < 0 && withBom[1] < 0 then withBom[2..] else withBom
  }

  /**
   * For a two-byte type, the byte-order mark that Java writes in front of
   * UTF-16 text (0xFE 0xFF, or 0xFF 0xFE) is removed and the text is kept.
   */
  lemma StripBomRemovesMark(t: EncodingType, content: seq<Byte>)
    requires t.Length() == 2
    ensures StripBom(t, [-2, -1] + content) == content
    ensures StripBom(t, [-1, -2] + content) == content
    ensures StripBom(Single, [-2, -1] + content) == [-2, -1] + content
  {
    assert ([-2, -1] + content)[2..] == content;
    assert ([-1, -2] + content)[2..] == content;
  }

  /**
   * The test is "both leading bytes negative", not "a byte-order mark": for
   * a two-byte type, any content that begins with two bytes of 0x80 or more
   * loses them too.
   */
  lemma StripBomAnyHighPair(t: EncodingType, b0: Byte, b1: Byte, content: seq<Byte>)
    requires t.Length() == 2 && b0 < 0 && b1 < 0
    ensures StripBom(t, [b0, b1] + content) == content
  {
    assert ([b0, b1] + content)[2..] == content;
  }

  /**
   * `getBytes` after the encoding: for a one-byte type, or fewer than two
   * bytes, or leading bytes that are not both negative, the encoded array
   * itself; otherwise a fresh array holding all but its first two bytes.
   */
  method GetBytes(t: EncodingType, withBom: array<Byte>) returns (b: array<Byte>)
    ensures b[..] == StripBom(t, withBom[..])
    ensures b == withBom || (fresh(b) && b.Length == withBom.Length - 2)
  {
    if t.Length() != 2 || withBom.Length < 2 {
      return withBom;
    }
    if withBom[0] < 0 && withBom[1] < 0 {
      b := new Byte[withBom.Length - 2];
      var i := 0;
      while i < withBom.Length - 2
        invariant 0 <= i <= withBom.Length - 2
        invariant b[..i] == withBom[2..i + 2]
      {
        b[i] := withBom[i + 2];
        i := i + 1;
      }
      assert withBom[2..i + 2] == withBom[..][2..];
    } else {
      b := withBom;
    }
  }
}
