/**
 Places in a source text: the compiler reports UTF-8 byte offsets, the editor selects by UTF-16
 index. UTF-8 widths follow section 3 of RFC 3629, surrogate pairs section 2.1 of RFC 2781.
 */
module SourceSpan {
  /** A UTF-16 code unit; a text may hold surrogates that form no pair. */
  type Unit = n: nat | n < 0x1_0000

  type Text = seq<Unit>

  const NEWLINE: Unit := 10

  predicate IsHigh(u: Unit)
  {
    0xD800 <= u <= 0xDBFF
  }

  predicate IsLow(u: Unit)
  {
    0xDC00 <= u <= 0xDFFF
  }

  // ---------------------------------------------------------------- scalars

  /** How many units the first scalar takes. */
  function ScalarLength(s: Text): (n: nat)
    requires s != []
    ensures 1 <= n <= |s|
  {
    if |s| > 1 && IsHigh(s[0]) && IsLow(s[1]) then 2 else 1
  }

  function CodePoint(s: Text): nat
    requires s != []
  {
    if ScalarLength(s) == 2 then 0x1_0000 + (s[0] as int - 0xD800) * 0x400 + (s[1] as int - 0xDC00) else s[0]
  }

  /** How many UTF-8 bytes the first scalar takes. */
  function Width(s: Text): (w: nat)
    requires s != []
    ensures 1 <= w <= 4 && (w == 4 <==> ScalarLength(s) == 2)
  {
    var codePoint := CodePoint(s);
    if codePoint <= 0x7F then 1
    else if codePoint <= 0x7FF then 2
    else if codePoint <= 0xFFFF then 3
    else 4
  }

  /** The UTF-16 form of a code point. */
  ghost function Utf16(c: nat): Text
    requires c < 0x11_0000
  {
    if c < 0x1_0000 then [c] else [0xD800 + (c - 0x1_0000) / 0x400, 0xDC00 + (c - 0x1_0000) % 0x400]
  }

  /** The UTF-8 form of a code point. */
  ghost function Utf8(c: nat): seq<nat>
    requires c < 0x11_0000
  {
    if c < 0x80 then [c]
    else if c < 0x800 then [0xC0 + c / 0x40, 0x80 + c % 0x40]
    else if c < 0x1_0000 then [0xE0 + c / 0x1000, 0x80 + c / 0x40 % 0x40, 0x80 + c % 0x40]
    else [0xF0 + c / 0x4_0000, 0x80 + c / 0x1000 % 0x40, 0x80 + c / 0x40 % 0x40, 0x80 + c % 0x40]
  }

  /** The first scalar is what its code point is written as, in both forms. */
  lemma {:induction false} ScalarIsWritten(s: Text)
    requires s != []
    ensures CodePoint(s) < 0x11_0000
    ensures Utf16(CodePoint(s)) == s[..ScalarLength(s)] && |Utf8(CodePoint(s))| == Width(s)
  {
  }

  /** A code point that takes a pair is read from it, whatever follows. */
  lemma {:induction false} PairIsRead(c: nat, rest: Text)
    requires 0x1_0000 <= c < 0x11_0000
    ensures var s := Utf16(c) + rest;
            ScalarLength(s) == 2 && CodePoint(s) == c
  {
  }

  /** The length of a text in UTF-8 bytes. */
  function Bytes(s: Text): nat
  {
    if s == [] then 0 else Width(s) + Bytes(s[ScalarLength(s)..])
  }

  /** The number of scalars of a text. */
  function Scalars(s: Text): nat
  {
    if s == [] then 0 else 1 + Scalars(s[ScalarLength(s)..])
  }

  /** A scalar ends at `i`, or the text begins there. */
  predicate IsBoundary(s: Text, i: nat)
  {
    i == 0 || (s != [] && ScalarLength(s) <= i && IsBoundary(s[ScalarLength(s)..], i - ScalarLength(s)))
  }

  /** The boundaries are the places that separate no surrogate pair. */
  lemma {:induction false} BoundarySplitsNoPair(s: Text, i: nat)
    ensures IsBoundary(s, i) <==> i <= |s| && !(0 < i < |s| && IsHigh(s[i - 1]) && IsLow(s[i]))
  {
    if i > 0 && s != [] {
      var n := ScalarLength(s);
      if n <= i {
        BoundarySplitsNoPair(s[n..], i - n);
      }
    }
  }

  /** Cutting at a boundary cuts between scalars. */
  lemma {:induction false} FirstOfPrefix(s: Text, i: nat)
    requires s != [] && ScalarLength(s) <= i <= |s|
    ensures ScalarLength(s[..i]) == ScalarLength(s) && Width(s[..i]) == Width(s)
  {
    assert s[..i][0] == s[0] && (i > 1 ==> s[..i][1] == s[1]);
    assert CodePoint(s[..i]) == CodePoint(s);
  }

  lemma {:induction false} CutAtBoundary(s: Text, i: nat)
    requires IsBoundary(s, i)
    ensures i <= |s|
    ensures Bytes(s) == Bytes(s[..i]) + Bytes(s[i..]) && Scalars(s) == Scalars(s[..i]) + Scalars(s[i..])
  {
    if i == 0 {
      assert s[..0] == [] && s[0..] == s;
    } else {
      var n := ScalarLength(s);
      CutAtBoundary(s[n..], i - n);
      FirstOfPrefix(s, i);
      hide ScalarLength, Width;
      assert s[..i][n..] == s[n..][..i - n] && s[i..] == s[n..][i - n..];
    }
  }

  /** The bytes up to a boundary, scalar by scalar. */
  lemma {:induction false} BytesUpTo(s: Text, i: nat)
    requires 0 < i && IsBoundary(s, i)
    ensures var n := ScalarLength(s);
            n <= i <= |s| && Bytes(s[..i]) == Width(s) + Bytes(s[n..][..i - n])
  {
    CutAtBoundary(s, i);
    var n := ScalarLength(s);
    assert s[..i][n..] == s[n..][..i - n];
    assert ScalarLength(s[..i]) == n && Width(s[..i]) == Width(s);
  }

  // ---------------------------------------------------------------- offsets

  /** The units of the scalars that fit into a number of bytes. */
  function Index(s: Text, target: nat): (r: nat)
    ensures r <= |s|
  {
    if s == [] || Width(s) > target then 0
    else ScalarLength(s) + Index(s[ScalarLength(s)..], target - Width(s))
  }

  function Target(byteOffset: int): (target: nat)
    ensures byteOffset >= 0 ==> target == byteOffset
    ensures byteOffset < 0 ==> target == 0
  {
    if byteOffset > 0 then byteOffset else 0
  }

  /** The conversion: one pass over the scalars, up to the first that no longer fits. */
  method Utf8ByteOffsetToUtf16Index(source: Text, byteOffset: int) returns (index: nat)
    ensures index == Index(source, Target(byteOffset))
  {
    var target := Target(byteOffset);
    var bytes: nat := 0;
    index := 0;
    while index < |source|
      invariant index <= |source| && bytes <= target
      invariant Index(source, target) == index + Index(source[index..], target - bytes)
    {
      var scalar := source[index..];
      if bytes + Width(scalar) > target {
        return;
      }
      assert scalar[ScalarLength(scalar)..] == source[index + ScalarLength(scalar)..];
      bytes := bytes + Width(scalar);
      index := index + ScalarLength(scalar);
    }
    index := |source|;
  }

  /** The converted offset is a boundary within the given number of bytes. */
  lemma {:induction false} IndexIsBoundary(s: Text, target: nat)
    ensures IsBoundary(s, Index(s, target)) && Bytes(s[..Index(s, target)]) <= target
  {
    assert Bytes([]) == 0;
    hide Width, Bytes, ScalarLength;
    var r := Index(s, target);
    if r > 0 {
      IndexIsBoundary(s[ScalarLength(s)..], target - Width(s));
      BytesUpTo(s, r);
    } else {
      assert s[..0] == [];
    }
  }

  /** It is the largest: exactly the boundaries up to it are within that number. */
  lemma {:induction false} IndexIsLongestPrefix(s: Text, target: nat, i: nat)
    requires IsBoundary(s, i)
    ensures i <= |s| && (i <= Index(s, target) <==> Bytes(s[..i]) <= target)
  {
    assert Bytes([]) == 0;
    hide Width, Bytes, ScalarLength;
    if i > 0 {
      BytesUpTo(s, i);
      if Width(s) <= target {
        IndexIsLongestPrefix(s[ScalarLength(s)..], target - Width(s), i - ScalarLength(s));
      }
    } else {
      assert s[..0] == [];
    }
  }

  /** The offset of a boundary converts to that boundary. */
  lemma {:induction false} BoundaryOffsetIsExact(s: Text, i: nat)
    requires IsBoundary(s, i)
    ensures i <= |s| && Index(s, Bytes(s[..i])) == i
  {
    assert Bytes([]) == 0;
    hide Width, Bytes, ScalarLength;
    if i > 0 {
      BytesUpTo(s, i);
      BoundaryOffsetIsExact(s[ScalarLength(s)..], i - ScalarLength(s));
    } else {
      assert s[..0] == [];
    }
  }

  lemma {:induction false} IndexIsMonotone(s: Text, target: nat, target': nat)
    requires target <= target'
    ensures Index(s, target) <= Index(s, target')
  {
    if s != [] && Width(s) <= target {
      IndexIsMonotone(s[ScalarLength(s)..], target - Width(s), target' - Width(s));
    }
  }

  // ---------------------------------------------------------------- selections

  datatype Span = Span(start: int, end: int)

  datatype Selection = Selection(start: nat, end: nat)

  function SelectionOf(source: Text, span: Span): Selection
  {
    var start, end := Index(source, Target(span.start)), Index(source, Target(span.end));
    Selection(start, if start <= end then end else start)
  }

  /** A selection lies in the text and splits no pair; only a reversed span is made empty. */
  ghost predicate IsProper(source: Text, span: Span, selection: Selection)
  {
    && selection.start <= selection.end <= |source|
    && IsBoundary(source, selection.start) && IsBoundary(source, selection.end)
    && selection.start == Index(source, Target(span.start))
    && (span.start <= span.end ==> selection.end == Index(source, Target(span.end)))
    && (span.end <= span.start ==> selection.end == selection.start)
  }

  lemma {:induction false} SelectionIsProper(source: Text, span: Span)
    ensures IsProper(source, span, SelectionOf(source, span))
  {
    IndexIsBoundary(source, Target(span.start));
    IndexIsBoundary(source, Target(span.end));
    if span.start <= span.end {
      IndexIsMonotone(source, Target(span.start), Target(span.end));
    } else {
      IndexIsMonotone(source, Target(span.end), Target(span.start));
    }
  }

  /** The selection of a span: both ends converted, and a reversed span made empty. */
  method SourceSelection(source: Text, span: Span) returns (selection: Selection)
    ensures selection == SelectionOf(source, span) && IsProper(source, span, selection)
  {
    var start := Utf8ByteOffsetToUtf16Index(source, span.start);
    var end := Utf8ByteOffsetToUtf16Index(source, span.end);
    SelectionIsProper(source, span);
    return Selection(start, if start <= end then end else start);
  }

  // ---------------------------------------------------------------- line and column

  /** What follows the last line break. */
  function LastLine(s: Text): (r: Text)
    ensures |r| <= |s| && r == s[|s| - |r|..]
  {
    if s == [] || s[|s| - 1] == NEWLINE then [] else LastLine(s[..|s| - 1]) + [s[|s| - 1]]
  }

  function Line(s: Text): nat
  {
    if s == [] then 1 else Line(s[..|s| - 1]) + if s[|s| - 1] == NEWLINE then 1 else 0
  }

  /** The place behind a prefix of the text, as it is shown. */
  function Location(prefix: Text): (nat, nat)
  {
    (Line(prefix), Scalars(LastLine(prefix)) + 1)
  }

  predicate Earlier(a: (nat, nat), b: (nat, nat))
  {
    a.0 < b.0 || (a.0 == b.0 && a.1 < b.1)
  }

  lemma {:induction false} LineGrows(s: Text, i: nat)
    requires i <= |s|
    ensures Line(s[..i]) <= Line(s)
    ensures Line(s[..i]) == Line(s) ==> LastLine(s) == LastLine(s[..i]) + s[i..]
  {
    if i == |s| {
      assert s[..i] == s && s[i..] == [];
    } else {
      var init := s[..|s| - 1];
      LineGrows(init, i);
      assert init[..i] == s[..i];
      assert s[i..] == init[i..] + [s[|s| - 1]];
    }
  }

  /** The scalars of a text that is cut at a boundary add up. */
  lemma {:induction false} ScalarsAdd(a: Text, b: Text)
    requires IsBoundary(a + b, |a|)
    ensures Scalars(a + b) == Scalars(a) + Scalars(b)
  {
    CutAtBoundary(a + b, |a|);
    assert (a + b)[..|a|] == a && (a + b)[|a|..] == b;
  }

  lemma {:induction false} UnitNext(s: Text, i: nat)
    requires i < |s|
    ensures Line(s[..i + 1]) == Line(s[..i]) + if s[i] == 10 then 1 else 0
    ensures LastLine(s[..i + 1]) == if s[i] == 10 then [] else LastLine(s[..i]) + [s[i]]
  {
    assert s[..i + 1][..i] == s[..i];
  }

  /** A scalar that is no line break stays on its line. */
  lemma {:induction false} ScalarNext(s: Text, i: nat)
    requires i < |s| && s[i] != 10
    ensures var j := i + ScalarLength(s[i..]);
            Line(s[..j]) == Line(s[..i]) && LastLine(s[..j]) == LastLine(s[..i]) + s[..j][i..]
  {
    hide Line, LastLine;
    UnitNext(s, i);
    if ScalarLength(s[i..]) == 2 {
      assert IsLow(s[i..][1]) && s[i..][1] == s[i + 1];
      hide ScalarLength, IsLow;
      UnitNext(s, i + 1);
      assert s[..i + 2][i..] == [s[i]] + [s[i + 1]];
    } else {
      assert s[..i + 1][i..] == [s[i]];
    }
  }

  lemma {:induction false} BreakNext(s: Text, i: nat)
    requires i < |s| && s[i] == 10
    ensures ScalarLength(s[i..]) == 1 && Location(s[..i + 1]) == (Location(s[..i]).0 + 1, 1)
  {
    UnitNext(s, i);
    assert s[i..][0] == s[i] && Scalars([]) == 0;
    hide Line, LastLine, Scalars;
  }

  lemma {:induction false} ColumnNext(s: Text, i: nat)
    requires i < |s| && IsBoundary(s, i) && s[i] != 10
    ensures var (line, column) := Location(s[..i]);
            Location(s[..i + ScalarLength(s[i..])]) == (line, column + 1)
  {
    hide LastLine, Line, Scalars, IsBoundary, ScalarLength;
    var j := i + ScalarLength(s[i..]);
    ScalarNext(s, i);
    LineBoundary(s, i, j);
    ScalarsAdd(LastLine(s[..i]), s[..j][i..]);
    OneScalar(s, i);
  }

  /**
   A text starts at line 1 and column 1; a line break leads to the start of the next line, and
   every other scalar to the next column.
   */
  lemma {:induction false} LocationNext(s: Text, i: nat)
    requires i < |s| && IsBoundary(s, i)
    ensures Location([]) == (1, 1)
    ensures var (line, column) := Location(s[..i]);
            Location(s[..i + ScalarLength(s[i..])]) == if s[i] == 10 then (line + 1, 1) else (line, column + 1)
  {
    assert Location([]) == (1, 1);
    hide *;
    if s[i] == 10 {
      BreakNext(s, i);
    } else {
      ColumnNext(s, i);
    }
  }

  lemma {:induction false} OneScalar(s: Text, i: nat)
    requires i < |s|
    ensures Scalars(s[..i + ScalarLength(s[i..])][i..]) == 1
  {
    var n := ScalarLength(s[i..]);
    var scalar := s[..i + n][i..];
    assert |scalar| == n && scalar[0] == s[i] && ScalarLength(scalar) == n && scalar[n..] == [];
  }

  /** A later boundary has a later place. */
  lemma {:induction false} LocationsAreInOrder(s: Text, i: nat, j: nat)
    requires i < j <= |s| && IsBoundary(s, i)
    ensures Earlier(Location(s[..i]), Location(s[..j]))
  {
    hide LastLine, Line, IsBoundary;
    assert s[..j][..i] == s[..i];
    LineGrows(s[..j], i);
    if Line(s[..i]) == Line(s[..j]) {
      var before, between := LastLine(s[..i]), s[..j][i..];
      LineBoundary(s, i, j);
      ScalarsAdd(before, between);
    }
  }

  /** The boundary is one inside the line it lies in. */
  lemma {:induction false} LineBoundary(s: Text, i: nat, j: nat)
    requires i < j <= |s| && IsBoundary(s, i)
    ensures IsBoundary(LastLine(s[..i]) + s[..j][i..], |LastLine(s[..i])|)
  {
    hide LastLine;
    var before, between := LastLine(s[..i]), s[..j][i..];
    BoundarySplitsNoPair(s, i);
    BoundarySplitsNoPair(before + between, |before|);
    assert |before| > 0 ==> before[|before| - 1] == s[i - 1];
    assert between[0] == s[i];
  }
}
