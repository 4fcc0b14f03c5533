/**
 * A field of the XML input step: its trim-type code table, its defaults,
 * and the comma-separated encoding of its list of positions in a document.
 *
 * A position (`XMLInputFieldPosition`) is not part of this model; it is a
 * value of the type parameter `P`, written out by a `show` function and
 * read back by a `parse` function that the caller supplies. Java's null
 * array entries are `None`.
 */
module XmlInputField {
  import opened JavaLang

  const TrimNone: int := 0
  const TrimLeft: int := 1
  const TrimRight: int := 2
  const TrimBoth: int := 3

  /** The codes of the trim types, indexed by trim type. */
  const TrimTypeCodes: seq<string> := ["none", "left", "right", "both"]

  /** `ValueMetaInterface.TYPE_STRING`, the type of a new field. */
  const TypeString: int := 2

  /** The separator of `getFieldPositionsCode` and `setFieldPosition`. */
  const PositionMarker: char := ','

  /** The first index `i >= from` whose code matches `tt` ignoring case, else 0 (the loop of `getTrimTypeByCode`). */
  function TrimTypeFrom(tt: string, from: nat): (r: int)
    requires from <= |TrimTypeCodes|
    ensures 0 <= r < |TrimTypeCodes|
    ensures r > 0 ==> from <= r && EqualsIgnoreCase(TrimTypeCodes[r], tt)
    ensures r > 0 ==> forall j :: from <= j < r ==> !EqualsIgnoreCase(TrimTypeCodes[j], tt)
    ensures (exists j :: from <= j < |TrimTypeCodes| && EqualsIgnoreCase(TrimTypeCodes[j], tt)) ==>
              EqualsIgnoreCase(TrimTypeCodes[r], tt)
    decreases |TrimTypeCodes| - from
  {
    if from == |TrimTypeCodes| then 0
    else if EqualsIgnoreCase(TrimTypeCodes[from], tt) then from
    else TrimTypeFrom(tt, from + 1)
  }

  /**
   * `getTrimTypeByCode`: the trim type whose code equals `tt` ignoring case;
   * 0 ("none") for null and for unknown codes.
   */
  function TrimTypeByCode(tt: Option<string>): (r: int)
    ensures 0 <= r < |TrimTypeCodes|
    ensures tt.None? ==> r == TrimNone
    ensures tt.Some? && (exists j :: 0 <= j < |TrimTypeCodes| && EqualsIgnoreCase(TrimTypeCodes[j], tt.value)) ==>
              EqualsIgnoreCase(TrimTypeCodes[r], tt.value)
    ensures tt.Some? && (forall j :: 0 <= j < |TrimTypeCodes| ==> !EqualsIgnoreCase(TrimTypeCodes[j], tt.value)) ==>
              r == TrimNone
  {
    if tt.None? then 0 else TrimTypeFrom(tt.value, 0)
  }

  /** `getTrimTypeCode(int)`: the code of a trim type, "none" when out of range. */
  function TrimTypeCode(i: int): (r: string)
    ensures 0 <= i < |TrimTypeCodes| ==> r == TrimTypeCodes[i]
    ensures !(0 <= i < |TrimTypeCodes|) ==> r == "none"
  {
    if i < 0 || i >= |TrimTypeCodes| then TrimTypeCodes[0] else TrimTypeCodes[i]
  }

  /** No two codes are equal ignoring case. */
  lemma CodesDistinct(i: nat, j: nat)
    requires i < |TrimTypeCodes| && j < |TrimTypeCodes| && i != j
    ensures !EqualsIgnoreCase(TrimTypeCodes[i], TrimTypeCodes[j])
  {
    assert TrimTypeCodes[0][0] == 'n' && TrimTypeCodes[1][0] == 'l' && TrimTypeCodes[2][0] == 'r' && TrimTypeCodes[3][0] == 'b';
    assert ToLowerAscii(TrimTypeCodes[i][0]) != ToLowerAscii(TrimTypeCodes[j][0]);
  }

  /** Reading a trim type's code back gives the trim type, in any letter case. */
  lemma TrimTypeRoundTrip(i: int, tt: string)
    requires 0 <= i < |TrimTypeCodes|
    requires EqualsIgnoreCase(tt, TrimTypeCode(i))
    ensures TrimTypeByCode(Some(tt)) == i
    ensures TrimTypeByCode(Some(TrimTypeCode(i))) == i
  {
    var r := TrimTypeByCode(Some(tt));
    EqualsIgnoreCaseEquivalence(TrimTypeCodes[i], tt, TrimTypeCodes[r]);
    if r != i {
      CodesDistinct(i, r);
    }
    EqualsIgnoreCaseEquivalence(TrimTypeCodes[i], TrimTypeCodes[i], TrimTypeCodes[i]);
    var r' := TrimTypeByCode(Some(TrimTypeCode(i)));
    if r' != i {
      CodesDistinct(i, r');
    }
  }

  // ---------------------------------------------------------------------
  // The comma-separated list of positions.
  // ---------------------------------------------------------------------

  /** The pieces joined with the separator, with none before the first or after the last. */
  function Join(pieces: seq<string>): (r: string)
    ensures |pieces| == 1 ==> r == pieces[0]
    decreases |pieces|
  {
    if |pieces| == 0 then ""
    else if |pieces| == 1 then pieces[0]
    else Join(pieces[..|pieces| - 1]) + [PositionMarker] + pieces[|pieces| - 1]
  }

  /** All the pieces between separators, empty ones included. */
  function Pieces(s: string): (r: seq<string>)
    ensures |r| >= 1
    decreases |s|
  {
    if |s| == 0 then [""]
    else
      var rest := Pieces(s[..|s| - 1]);
      if s[|s| - 1] == PositionMarker then rest + [""]
      else rest[..|rest| - 1] + [rest[|rest| - 1] + [s[|s| - 1]]]
  }

  function DropTrailingEmpty(pieces: seq<string>): (r: seq<string>)
    ensures |r| <= |pieces| && r == pieces[..|r|]
    ensures |r| > 0 ==> r[|r| - 1] != ""
    decreases |pieces|
  {
    if |pieces| > 0 && pieces[|pieces| - 1] == "" then DropTrailingEmpty(pieces[..|pieces| - 1]) else pieces
  }

  /**
   * `String.split(",")`: the whole string when it holds no separator (so the
   * empty string gives one empty piece); otherwise the pieces without the
   * trailing empty ones.
   */
  function Split(s: string): (r: seq<string>)
    ensures PositionMarker !in s ==> r == [s]
  {
    if PositionMarker !in s then [s] else DropTrailingEmpty(Pieces(s))
  }

  predicate Plain(piece: string) {
    PositionMarker !in piece
  }

  lemma {:induction false} PiecesOfJoin(pieces: seq<string>)
    requires |pieces| >= 1
    requires forall i :: 0 <= i < |pieces| ==> Plain(pieces[i])
    ensures Pieces(Join(pieces)) == pieces
    decreases |pieces|
  {
    if |pieces| == 1 {
      PiecesOfPlain(pieces[0]);
    } else {
      var init := pieces[..|pieces| - 1];
      var last := pieces[|pieces| - 1];
      PiecesOfJoin(init);
      PiecesAppend(Join(init), last);
      assert init + [last] == pieces;
    }
  }

  lemma {:induction false} PiecesOfPlain(s: string)
    requires Plain(s)
    ensures Pieces(s) == [s]
    decreases |s|
  {
    if |s| > 0 {
      assert Plain(s[..|s| - 1]) by { assert forall k :: 0 <= k < |s| - 1 ==> s[..|s| - 1][k] == s[k]; }
      PiecesOfPlain(s[..|s| - 1]);
      assert s[..|s| - 1] + [s[|s| - 1]] == s;
    }
  }

  /** Appending a separator and a plain piece adds exactly that piece. */
  lemma {:induction false} PiecesAppend(s: string, piece: string)
    requires Plain(piece)
    ensures Pieces(s + [PositionMarker] + piece) == Pieces(s) + [piece]
    decreases |piece|
  {
    if |piece| == 0 {
      assert s + [PositionMarker] + piece == s + [PositionMarker];
      assert (s + [PositionMarker])[..|s|] == s;
    } else {
      var init := piece[..|piece| - 1];
      assert Plain(init) by { assert forall k :: 0 <= k < |init| ==> init[k] == piece[k]; }
      PiecesAppend(s, init);
      var t := s + [PositionMarker] + piece;
      assert t[..|t| - 1] == s + [PositionMarker] + init;
      assert init + [piece[|piece| - 1]] == piece;
    }
  }

  /**
   * Splitting the joined codes gives the codes back, provided there is at
   * least one, none contains the separator and the last is not empty (Java's
   * `split` drops trailing empty pieces).
   */
  lemma SplitJoin(pieces: seq<string>)
    requires |pieces| >= 1 && pieces[|pieces| - 1] != ""
    requires forall i :: 0 <= i < |pieces| ==> Plain(pieces[i])
    ensures Split(Join(pieces)) == pieces
  {
    PiecesOfJoin(pieces);
    if PositionMarker in Join(pieces) {
      assert DropTrailingEmpty(pieces) == pieces;
    } else {
      PiecesOfPlain(Join(pieces));
    }
  }

  /** The empty list has no encoding of its own: it is written as "", which reads back as one empty code. */
  lemma EmptyListEncoding()
    ensures Join([]) == "" && Split("") == [""]
  {
  }

  /** The codes of a list of positions that are all present. */
  function Codes<P>(positions: seq<Option<P>>, show: P -> string): (r: seq<string>)
    requires forall i :: 0 <= i < |positions| ==> positions[i].Some?
    ensures |r| == |positions|
    ensures forall i :: 0 <= i < |r| ==> r[i] == show(positions[i].value)
  {
    seq(|positions|, i requires 0 <= i < |positions| => show(positions[i].value))
  }

  // ---------------------------------------------------------------------
  // The field object.
  // ---------------------------------------------------------------------

  class XmlInputField<P> {
    var name: Option<string>
    var fieldPosition: array?<Option<P>>
    var fieldType: int
    var length: int
    var format: Option<string>
    var trimType: int
    var precision: int
    var currencySymbol: Option<string>
    var decimalSymbol: Option<string>
    var groupSymbol: Option<string>
    var repeat: bool

    /** A new field: length and precision -1, string type, no trimming, not repeated, empty format and symbols. */
    constructor (fieldName: Option<string>, positions: array?<Option<P>>)
      ensures name == fieldName && fieldPosition == positions
      ensures length == -1 && precision == -1 && fieldType == TypeString && trimType == TrimNone && !repeat
      ensures format == currencySymbol == decimalSymbol == groupSymbol == Some("")
    {
      name := fieldName;
      fieldPosition := positions;
      length := -1;
      fieldType := TypeString;
      format := Some("");
      trimType := TrimNone;
      groupSymbol := Some("");
      decimalSymbol := Some("");
      currencySymbol := Some("");
      precision := -1;
      repeat := false;
    }

    /** The field-by-field copy `super.clone()` makes, with the positions array given. */
    constructor Copy(f: XmlInputField<P>, positions: array?<Option<P>>)
      ensures name == f.name && fieldPosition == positions && fieldType == f.fieldType
      ensures length == f.length && format == f.format && trimType == f.trimType && precision == f.precision
      ensures currencySymbol == f.currencySymbol && decimalSymbol == f.decimalSymbol
      ensures groupSymbol == f.groupSymbol && repeat == f.repeat
    {
      name, fieldPosition, fieldType := f.name, positions, f.fieldType;
      length, format, trimType, precision := f.length, f.format, f.trimType, f.precision;
      currencySymbol, decimalSymbol, groupSymbol, repeat := f.currencySymbol, f.decimalSymbol, f.groupSymbol, f.repeat;
    }

    /** `flipRepeated`: negate the repeat flag, so that two flips restore it. */
    method FlipRepeated()
      modifies this`repeat
      ensures repeat == !old(repeat)
    {
      repeat := !repeat;
    }

    /** The trim type as its code, as `getTrimTypeCode()` writes it. */
    function TrimTypeCodeOfField(): (r: string)
      reads this
      ensures r in TrimTypeCodes
    {
      TrimTypeCode(trimType)
    }

    /** `setTrimType(getTrimTypeByCode(tt))`, as the XML reader does. */
    method SetTrimTypeByCode(tt: Option<string>)
      modifies this`trimType
      ensures trimType == TrimTypeByCode(tt) && 0 <= trimType < |TrimTypeCodes|
    {
      trimType := TrimTypeByCode(tt);
    }

    /**
     * `getFieldPositionsCode`: the codes of the positions in order, joined
     * with ",". (A null array or a null entry is a NullPointerException.)
     */
    method GetFieldPositionsCode(show: P -> string) returns (enc: string)
      requires fieldPosition != null && forall i :: 0 <= i < fieldPosition.Length ==> fieldPosition[i].Some?
      ensures enc == Join(Codes(fieldPosition[..], show))
    {
      enc := "";
      var i := 0;
      while i < fieldPosition.Length
        invariant 0 <= i <= fieldPosition.Length
        invariant enc == Join(Codes(fieldPosition[..i], show))
      {
        var pos := fieldPosition[i].value;
        if i > 0 {
          enc := enc + [PositionMarker];
        }
        enc := enc + show(pos);
        assert Codes(fieldPosition[..i + 1], show)[..i] == Codes(fieldPosition[..i], show);
        i := i + 1;
      }
      assert fieldPosition[..i] == fieldPosition[..];
    }

    /**
     * `setFieldPosition(String)`: split the text at "," and parse each piece.
     * A null text, or a piece that does not parse, is an error (`ok` false);
     * the new array is installed before the parsing starts, so after an
     * error it holds the positions parsed so far followed by nulls.
     */
    method SetFieldPosition(encoded: Option<string>, parse: string -> Option<P>) returns (ok: bool)
      modifies this`fieldPosition
      ensures encoded.None? ==> !ok && fieldPosition == old(fieldPosition)
      ensures encoded.Some? ==> fieldPosition != null && fresh(fieldPosition) &&
                                fieldPosition.Length == |Split(encoded.value)|
      ensures encoded.Some? ==>
                (ok <==> forall i :: 0 <= i < fieldPosition.Length ==> parse(Split(encoded.value)[i]).Some?)
      ensures ok ==> forall i :: 0 <= i < fieldPosition.Length ==> fieldPosition[i] == parse(Split(encoded.value)[i])
      ensures encoded.Some? && !ok ==>
                exists k :: 0 <= k < fieldPosition.Length && parse(Split(encoded.value)[k]).None? &&
                  (forall i :: 0 <= i < k ==> fieldPosition[i] == parse(Split(encoded.value)[i])) &&
                  (forall i :: k <= i < fieldPosition.Length ==> fieldPosition[i].None?)
    {
      if encoded.None? {
        return false;
      }
      var codes := Split(encoded.value);
      var positions := new Option<P>[|codes|](_ => None);
      fieldPosition := positions;
      var i := 0;
      while i < |codes|
        invariant 0 <= i <= |codes| && fieldPosition == positions
        invariant forall j :: 0 <= j < i ==> positions[j] == parse(codes[j]) && positions[j].Some?
        invariant forall j :: i <= j < |codes| ==> positions[j].None?
      {
        var p := parse(codes[i]);
        if p.None? {
          return false;
        }
        positions[i] := p;
        i := i + 1;
      }
      return true;
    }

    /**
     * `clone`: a copy of every field, with a fresh positions array holding
     * copies of the positions when there is one (a null entry is a
     * NullPointerException). Positions are values here, so their copies are
     * equal to them.
     */
    method Clone() returns (retval: XmlInputField<P>)
      requires fieldPosition != null ==> forall i :: 0 <= i < fieldPosition.Length ==> fieldPosition[i].Some?
      ensures fresh(retval)
      ensures retval.name == name && retval.fieldType == fieldType && retval.length == length
      ensures retval.format == format && retval.trimType == trimType && retval.precision == precision
      ensures retval.currencySymbol == currencySymbol && retval.decimalSymbol == decimalSymbol
      ensures retval.groupSymbol == groupSymbol && retval.repeat == repeat
      ensures fieldPosition == null ==> retval.fieldPosition == null
      ensures fieldPosition != null ==> retval.fieldPosition != null && fresh(retval.fieldPosition) &&
                                        retval.fieldPosition[..] == fieldPosition[..]
    {
      if fieldPosition == null {
        retval := new XmlInputField<P>.Copy(this, null);
      } else {
        var copies := new Option<P>[fieldPosition.Length](_ => None);
        var i := 0;
        while i < fieldPosition.Length
          invariant 0 <= i <= fieldPosition.Length
          invariant copies[..i] == fieldPosition[..i]
        {
          copies[i] := Some(fieldPosition[i].value);
          i := i + 1;
        }
        retval := new XmlInputField<P>.Copy(this, copies);
      }
    }
  }

  /**
   * Writing the positions out and reading them back gives the same
   * positions, when every code is non-empty, holds no "," and parses back to
   * its position, and there is at least one position.
   */
  lemma PositionsRoundTrip<P>(positions: seq<Option<P>>, show: P -> string, parse: string -> Option<P>)
    requires |positions| >= 1
    requires forall i :: 0 <= i < |positions| ==> positions[i].Some?
    requires forall i :: 0 <= i < |positions| ==>
               show(positions[i].value) != "" && Plain(show(positions[i].value)) &&
               parse(show(positions[i].value)) == positions[i]
    ensures var codes := Split(Join(Codes(positions, show)));
            |codes| == |positions| && forall i :: 0 <= i < |codes| ==> parse(codes[i]) == positions[i]
  {
    SplitJoin(Codes(positions, show));
  }
}
