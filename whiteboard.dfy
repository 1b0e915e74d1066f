/** The whiteboard: text written at arbitrary (even negative) line and column
    indices on an unbounded area of spaces, rendered with the common left
    margin removed. */
module Diagram {
  import opened Wrappers
  import opened Strings

  /** Go's math.MaxInt on a 64-bit platform: the margin before any line. */
  const MaxInt := 0x7fff_ffff_ffff_ffff

  /** One line: its text starts at column `firstColIdx`. A line that was
      never written has no buffer at all (a nil slice), which is not the
      same as an empty one. */
  datatype WhiteboardLine = WhiteboardLine(firstColIdx: int, buf: Option<seq<char>>) {
    function Runes(): seq<char> {
      if buf.Some? then buf.value else []
    }

    /** The rune at column `col`: a space outside the buffer. */
    function At(col: int): char {
      var i := col - firstColIdx;
      if 0 <= i < |Runes()| then Runes()[i] else ' '
    }
  }

  /** The zero line that getLine adds. */
  const EmptyLine := WhiteboardLine(0, None)

  function Blank(n: nat): (r: seq<WhiteboardLine>)
    ensures |r| == n && forall i :: 0 <= i < n ==> r[i] == EmptyLine
  {
    seq(n, _ => EmptyLine)
  }

  /** Number of ' ' runes at the start of `s`. */
  function LeadingBlanks(s: seq<char>): (n: nat)
    ensures n <= |s|
  {
    if s == [] || s[0] != ' ' then 0 else 1 + LeadingBlanks(s[1..])
  }

  lemma {:induction false} LeadingBlanksFacts(s: seq<char>)
    ensures forall i :: 0 <= i < LeadingBlanks(s) ==> s[i] == ' '
    ensures LeadingBlanks(s) == |s| || s[LeadingBlanks(s)] != ' '
  {
    if s != [] && s[0] == ' ' {
      LeadingBlanksFacts(s[1..]);
    }
  }

  /** The column of the first non-space rune of a line (its end when it is
      all spaces; column 0 for a line never written). */
  function Edge(l: WhiteboardLine): int {
    l.firstColIdx + LeadingBlanks(l.Runes())
  }

  function Min(a: int, b: int): int {
    if a <= b then a else b
  }

  /** The margin Indented removes: the least Edge over the lines, starting
      from MaxInt. */
  function Margin(ls: seq<WhiteboardLine>): (m: int)
    ensures m <= MaxInt
  {
    if ls == [] then MaxInt else Min(Margin(ls[..|ls| - 1]), Edge(ls[|ls| - 1]))
  }

  /** One rendered row, without its newline: the indentation, then the line
      shifted so that column `m` comes right after it. */
  function Row(l: WhiteboardLine, m: int, indent: nat): string
    requires m <= Edge(l)
  {
    Spaces(indent) + (if l.firstColIdx > m then Spaces(l.firstColIdx - m) + l.Runes() else l.Runes()[m - l.firstColIdx..])
  }

  /** The margin fits every line: no line has text left of it. */
  ghost predicate MarginFits(ls: seq<WhiteboardLine>, m: int) {
    forall j :: 0 <= j < |ls| ==> m <= Edge(ls[j])
  }

  /** The rows of all lines, in line order. */
  function Rows(ls: seq<WhiteboardLine>, m: int, indent: nat): (r: seq<string>)
    requires MarginFits(ls, m)
    ensures |r| == |ls|
  {
    if ls == [] then [] else Rows(ls[..|ls| - 1], m, indent) + [Row(ls[|ls| - 1], m, indent)]
  }

  /** The rune at (line, col) of lines that start at line `first`. */
  function CellOf(first: int, ls: seq<WhiteboardLine>, line: int, col: int): char {
    var k := line - first;
    if 0 <= k < |ls| then ls[k].At(col) else ' '
  }

  /** What getLine leaves at absolute line `line`: the line that was there,
      or an empty one. */
  function Carried(first: int, ls: seq<WhiteboardLine>, line: int): WhiteboardLine {
    var a := line - first;
    if 0 <= a < |ls| then ls[a] else EmptyLine
  }

  /** The whiteboard: line `firstLineIdx + k` is `lines[k]`. */
  class Whiteboard {
    var firstLineIdx: int
    var lines: seq<WhiteboardLine>

    /** A line without a buffer is one getLine added, at column 0. */
    ghost predicate Valid()
      reads this
    {
      forall k :: 0 <= k < |lines| && lines[k].buf.None? ==> lines[k].firstColIdx == 0
    }

    /** The rune at (line, col): a space wherever nothing was written. */
    function Cell(line: int, col: int): char
      reads this
    {
      CellOf(firstLineIdx, lines, line, col)
    }

    /** The zero whiteboard. */
    constructor ()
      ensures Valid() && firstLineIdx == 0 && lines == []
    {
      firstLineIdx := 0;
      lines := [];
    }

    /** getLine: makes line `lineIdx` exist, adding empty lines before or
        after the others as needed, and returns its index in `lines`. Lines
        that existed keep their absolute index. */
    method GetLine(lineIdx: int) returns (k: nat)
      requires Valid()
      modifies this
      ensures Valid()
      ensures k < |lines| && k == lineIdx - firstLineIdx
      ensures old(|lines|) == 0 ==> firstLineIdx == lineIdx && lines == [EmptyLine]
      ensures old(|lines|) > 0 ==>
        && firstLineIdx == Min(old(firstLineIdx), lineIdx)
        && firstLineIdx + |lines| == if lineIdx < old(firstLineIdx) + old(|lines|) then old(firstLineIdx) + old(|lines|) else lineIdx + 1
      ensures forall j :: 0 <= j < |lines| ==>
        lines[j] == Carried(old(firstLineIdx), old(lines), firstLineIdx + j)
      ensures forall line, col :: Cell(line, col) == old(Cell(line, col))
    {
      if |lines| == 0 {
        lines := [EmptyLine];
        firstLineIdx := lineIdx;
      } else if lineIdx < firstLineIdx {
        var extra := firstLineIdx - lineIdx;
        lines := Blank(extra) + lines;
        firstLineIdx := lineIdx;
      } else if lineIdx >= firstLineIdx + |lines| {
        var extra := lineIdx - (firstLineIdx + |lines|) + 1;
        lines := lines + Blank(extra);
      }
      k := lineIdx - firstLineIdx;
    }

    /** Write: puts the runes of `s` at line `lineIdx` from column `colIdx`
        on; no other cell changes. */
    method Write(lineIdx: int, colIdx: int, s: string)
      requires Valid()
      modifies this
      ensures Valid()
      ensures firstLineIdx <= lineIdx < firstLineIdx + |lines|
      ensures lines[lineIdx - firstLineIdx].buf.Some?
      ensures Carried(old(firstLineIdx), old(lines), lineIdx).buf.None? ==>
        lines[lineIdx - firstLineIdx] == WhiteboardLine(colIdx, Some(s))
      ensures old(|lines|) == 0 ==> firstLineIdx == lineIdx && |lines| == 1
      ensures old(|lines|) > 0 ==>
        && firstLineIdx == Min(old(firstLineIdx), lineIdx)
        && firstLineIdx + |lines| == if lineIdx < old(firstLineIdx) + old(|lines|) then old(firstLineIdx) + old(|lines|) else lineIdx + 1
      ensures forall j :: 0 <= j < |lines| && firstLineIdx + j != lineIdx ==>
        lines[j] == Carried(old(firstLineIdx), old(lines), firstLineIdx + j)
      ensures forall line, col ::
        Cell(line, col) == (if line == lineIdx && colIdx <= col < colIdx + |s| then s[col - colIdx] else old(Cell(line, col)))
    {
      var runes := s;
      var k := GetLine(lineIdx);
      var l := lines[k];
      if l.buf.None? {
        l := WhiteboardLine(colIdx, Some(runes));
      } else {
        if colIdx < l.firstColIdx {
          l := ExtendLeft(l, colIdx);
        }
        l := ExtendRight(l, colIdx + |runes|);
        l := CopyAt(l, colIdx, runes);
      }
      StoreCells(firstLineIdx, lines, k, l);
      lines := lines[k := l];
    }

    /** String: Indented with no indentation. */
    method String() returns (r: string)
      ensures lines == [] ==> r == ""
      ensures lines != [] ==> MarginFits(lines, Margin(lines)) && r == Unlines(Rows(lines, Margin(lines), 0))
    {
      r := Indented(0);
    }

    /** Indented: one row per line, in order, each preceded by `indent`
        spaces and followed by a newline, with the common margin removed. */
    method Indented(indent: int) returns (r: string)
      requires |lines| == 0 || indent >= 0
      ensures lines == [] ==> r == ""
      ensures lines != [] ==> MarginFits(lines, Margin(lines)) && r == Unlines(Rows(lines, Margin(lines), indent))
    {
      if |lines| == 0 {
        return "";
      }
      var firstCol := MaxInt;
      for j := 0 to |lines|
        invariant firstCol == Margin(lines[..j])
      {
        var l := lines[j];
        if l.firstColIdx < firstCol {
          var i := CountLeadingBlanks(l.Runes());
          if l.firstColIdx + i < firstCol {
            firstCol := l.firstColIdx + i;
          }
        } else {
          LeadingBlanksBelow(l.Runes());
        }
        MarginStep(lines, j);
      }
      assert lines[..|lines|] == lines;
      MarginIsLeast(lines);
      var buf := "";
      for j := 0 to |lines|
        invariant MarginFits(lines, firstCol) && MarginFits(lines[..j], firstCol)
        invariant buf == Unlines(Rows(lines[..j], firstCol, indent))
      {
        var l := lines[j];
        RowsStep(lines, j, firstCol, indent);
        ghost var row := Row(l, firstCol, indent);
        ghost var before := buf;
        AppendRow(before, l, firstCol, indent);
        buf := buf + Spaces(indent);
        if l.firstColIdx > firstCol {
          buf := buf + Spaces(l.firstColIdx - firstCol);
          buf := buf + l.Runes();
        } else {
          buf := buf + l.Runes()[firstCol - l.firstColIdx..];
        }
        assert buf == before + row;
        buf := buf + "\n";
        UnlinesSnoc(Rows(lines[..j], firstCol, indent), row);
      }
      assert lines[..|lines|] == lines;
      r := buf;
    }
  }

  /** The inner loop of Indented: counts the spaces that start a buffer. */
  method CountLeadingBlanks(buf: seq<char>) returns (i: nat)
    ensures i == LeadingBlanks(buf)
    ensures i <= |buf| && (i == |buf| || buf[i] != ' ')
    ensures forall x :: 0 <= x < i ==> buf[x] == ' '
  {
    i := 0;
    while i < |buf| && buf[i] == ' '
      invariant i <= |buf|
      invariant forall x :: 0 <= x < i ==> buf[x] == ' '
    {
      i := i + 1;
    }
    LeadingBlanksIs(buf, i);
  }

  /** Extends a written line to the left so that it starts at or before
      `colIdx`: by at least half its length, the new cells are spaces, and
      every column keeps its rune. */
  method ExtendLeft(l: WhiteboardLine, colIdx: int) returns (r: WhiteboardLine)
    requires l.buf.Some? && colIdx < l.firstColIdx
    ensures r.buf.Some?
    ensures |r.Runes()| == if l.firstColIdx + |l.Runes()| - colIdx < |l.Runes()| * 3 / 2
                            then |l.Runes()| * 3 / 2 else l.firstColIdx + |l.Runes()| - colIdx
    ensures |r.Runes()| >= |l.Runes()| * 3 / 2
    ensures r.firstColIdx <= colIdx
    ensures r.firstColIdx == l.firstColIdx - (|r.Runes()| - |l.Runes()|)
    ensures forall i :: 0 <= i < |r.Runes()| - |l.Runes()| ==> r.Runes()[i] == ' '
    ensures r.Runes()[|r.Runes()| - |l.Runes()|..] == l.Runes()
    ensures forall col :: r.At(col) == l.At(col)
  {
    var buf := l.buf.value;
    var newLength := l.firstColIdx + |buf| - colIdx;
    if newLength < |buf| * 3 / 2 {
      newLength := |buf| * 3 / 2;
    }
    var extra := newLength - |buf|;
    var newBuf := new char[extra];
    for i := 0 to extra
      invariant forall x :: 0 <= x < i ==> newBuf[x] == ' '
    {
      newBuf[i] := ' ';
    }
    r := WhiteboardLine(l.firstColIdx - extra, Some(newBuf[..] + buf));
    assert r.Runes()[extra..] == buf;
  }

  /** Extends a written line to the right with spaces until it reaches
      column `end`; every column keeps its rune. */
  method ExtendRight(l: WhiteboardLine, end: int) returns (r: WhiteboardLine)
    requires l.buf.Some?
    ensures r.buf.Some? && r.firstColIdx == l.firstColIdx
    ensures r.firstColIdx + |r.Runes()| == if end <= l.firstColIdx + |l.Runes()| then l.firstColIdx + |l.Runes()| else end
    ensures r.Runes()[..|l.Runes()|] == l.Runes()
    ensures forall i :: |l.Runes()| <= i < |r.Runes()| ==> r.Runes()[i] == ' '
    ensures forall col :: r.At(col) == l.At(col)
  {
    var buf := l.buf.value;
    while l.firstColIdx + |buf| < end
      invariant |buf| >= |l.Runes()| && buf[..|l.Runes()|] == l.Runes()
      invariant forall i :: |l.Runes()| <= i < |buf| ==> buf[i] == ' '
      invariant l.firstColIdx + |buf| <= if end <= l.firstColIdx + |l.Runes()| then l.firstColIdx + |l.Runes()| else end
      decreases end - (l.firstColIdx + |buf|)
    {
      buf := buf + [' '];
    }
    r := WhiteboardLine(l.firstColIdx, Some(buf));
  }

  /** Go's copy of `runes` into the buffer from column `colIdx`, which the
      buffer already covers: those columns hold `runes`, all others keep
      their rune. */
  method CopyAt(l: WhiteboardLine, colIdx: int, runes: seq<char>) returns (r: WhiteboardLine)
    requires l.buf.Some? && l.firstColIdx <= colIdx && colIdx + |runes| <= l.firstColIdx + |l.Runes()|
    ensures r.buf.Some? && r.firstColIdx == l.firstColIdx && |r.Runes()| == |l.Runes()|
    ensures forall col :: r.At(col) == if colIdx <= col < colIdx + |runes| then runes[col - colIdx] else l.At(col)
  {
    var buf := l.buf.value;
    var p := colIdx - l.firstColIdx;
    for i := 0 to |runes|
      invariant |buf| == |l.Runes()|
      invariant forall x :: 0 <= x < |buf| ==> buf[x] == if p <= x < p + i then runes[x - p] else l.Runes()[x]
    {
      buf := buf[p + i := runes[i]];
    }
    r := WhiteboardLine(l.firstColIdx, Some(buf));
  }

  // ---------------------------------------------------------------------
  // Properties of the margin and the rendering
  // ---------------------------------------------------------------------

  lemma {:induction false} LeadingBlanksIs(s: seq<char>, i: nat)
    requires i <= |s| && (i == |s| || s[i] != ' ')
    requires forall x :: 0 <= x < i ==> s[x] == ' '
    ensures LeadingBlanks(s) == i
  {
    if i > 0 {
      LeadingBlanksIs(s[1..], i - 1);
    }
  }

  lemma LeadingBlanksBelow(s: seq<char>)
    ensures 0 <= LeadingBlanks(s) <= |s|
  {
  }

  /** The margin is the least edge: no line starts left of it, and unless
      there are no lines at all, some line starts exactly at it or it is
      MaxInt. */
  lemma {:induction false} MarginIsLeast(ls: seq<WhiteboardLine>)
    ensures MarginFits(ls, Margin(ls))
    ensures Margin(ls) == MaxInt || exists j :: 0 <= j < |ls| && Margin(ls) == Edge(ls[j])
  {
    if ls != [] {
      var init := ls[..|ls| - 1];
      MarginIsLeast(init);
      assert forall j :: 0 <= j < |init| ==> ls[j] == init[j];
    }
  }

  /** Removing the margin cuts off only spaces: every line is blank left of
      it. */
  lemma MarginCutsBlanks(ls: seq<WhiteboardLine>, j: nat, col: int)
    requires j < |ls| && col < Margin(ls)
    ensures ls[j].At(col) == ' '
  {
    MarginIsLeast(ls);
    LeadingBlanksFacts(ls[j].Runes());
  }

  /** A line of a board that was never written (one getLine added) counts
      as starting at column 0, so its presence keeps the margin at 0 or left
      of it. */
  lemma GapLineMargin(wb: Whiteboard, j: nat)
    requires wb.Valid() && j < |wb.lines| && wb.lines[j].buf.None?
    ensures Margin(wb.lines) <= 0
  {
    assert wb.lines[j] == EmptyLine;
    MarginIsLeast(wb.lines);
  }

  lemma {:induction false} RowsAt(ls: seq<WhiteboardLine>, m: int, indent: nat, j: nat)
    requires MarginFits(ls, m) && j < |ls|
    ensures Rows(ls, m, indent)[j] == Row(ls[j], m, indent)
  {
    var init := ls[..|ls| - 1];
    assert MarginFits(init, m) by {
      assert forall x :: 0 <= x < |init| ==> init[x] == ls[x];
    }
    if j < |init| {
      RowsAt(init, m, indent, j);
    }
  }

  /** A row shows the line's cells from the margin on: `indent` spaces,
      then at position indent + x the rune at column m + x, up to the line's
      last column. */
  lemma RowCells(l: WhiteboardLine, m: int, indent: nat)
    requires m <= Edge(l)
    ensures |Row(l, m, indent)| == indent + (l.firstColIdx + |l.Runes()| - m)
    ensures forall y :: 0 <= y < indent ==> Row(l, m, indent)[y] == ' '
    ensures forall y :: indent <= y < |Row(l, m, indent)| ==> Row(l, m, indent)[y] == l.At(m + y - indent)
  {
    var row := Row(l, m, indent);
    if l.firstColIdx > m {
      assert row == Spaces(indent) + Spaces(l.firstColIdx - m) + l.Runes();
    } else {
      assert row == Spaces(indent) + l.Runes()[m - l.firstColIdx..];
    }
  }

  /** Writing line `k` changes the cells of that line only. */
  lemma StoreCells(first: int, ls: seq<WhiteboardLine>, k: nat, l: WhiteboardLine)
    requires k < |ls|
    ensures forall line, col ::
      CellOf(first, ls[k := l], line, col) == (if line == first + k then l.At(col) else CellOf(first, ls, line, col))
  {
    forall line, col
      ensures CellOf(first, ls[k := l], line, col) == (if line == first + k then l.At(col) else CellOf(first, ls, line, col))
    {
    }
  }

  /** The pieces Indented writes for one line make up its row. */
  lemma AppendRow(u: string, l: WhiteboardLine, m: int, indent: nat)
    requires m <= Edge(l)
    ensures l.firstColIdx > m ==> u + Spaces(indent) + Spaces(l.firstColIdx - m) + l.Runes() == u + Row(l, m, indent)
    ensures l.firstColIdx <= m ==> u + Spaces(indent) + l.Runes()[m - l.firstColIdx..] == u + Row(l, m, indent)
  {
  }

  lemma MarginStep(ls: seq<WhiteboardLine>, j: nat)
    requires j < |ls|
    ensures Margin(ls[..j + 1]) == Min(Margin(ls[..j]), Edge(ls[j]))
  {
    assert ls[..j + 1][..j] == ls[..j];
  }

  lemma RowsStep(ls: seq<WhiteboardLine>, j: nat, m: int, indent: nat)
    requires j < |ls| && MarginFits(ls, m)
    ensures MarginFits(ls[..j], m) && MarginFits(ls[..j + 1], m)
    ensures Rows(ls[..j + 1], m, indent) == Rows(ls[..j], m, indent) + [Row(ls[j], m, indent)]
  {
    assert ls[..j + 1][..j] == ls[..j];
  }

  /** The rendering of a whiteboard: row j of Indented shows line
      firstLineIdx + j, column m + x at position indent + x, where m is the
      margin. */
  lemma RenderedCell(wb: Whiteboard, indent: nat, j: nat, x: nat)
    requires j < |wb.lines|
    requires x < wb.lines[j].firstColIdx + |wb.lines[j].Runes()| - Margin(wb.lines)
    ensures MarginFits(wb.lines, Margin(wb.lines))
    ensures indent + x < |Rows(wb.lines, Margin(wb.lines), indent)[j]|
    ensures Rows(wb.lines, Margin(wb.lines), indent)[j][indent + x] == wb.Cell(wb.firstLineIdx + j, Margin(wb.lines) + x)
  {
    MarginIsLeast(wb.lines);
    RowsAt(wb.lines, Margin(wb.lines), indent, j);
    RowCells(wb.lines[j], Margin(wb.lines), indent);
  }
}
