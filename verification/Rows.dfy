// The composer's visual rows (pkgs/clients/tui/src/composer.rs).
module Rows {
  import opened Clusters
  import opened Sequences
  import Wrap

  /** One visual row: the byte it starts at, its clusters, and whether its logical line ends with it. */
  datatype Row = Row(start: nat, text: seq<Cluster>, hardEnd: bool)

  /** Where the next row starts: a newline follows a hard end. */
  function NextStart(row: Row): nat {
    row.start + Bytes(row.text) + (if row.hardEnd then 1 else 0)
  }

  /** The rows of a logical line from its cluster `i` on, when the row being filled began at cluster `b`. */
  function LineRows(line: seq<Cluster>, base: nat, width: nat, b: nat, i: nat): (rows: seq<Row>)
    requires b <= i <= |line|
    ensures rows != []
    decreases |line| - i
  {
    if i == |line| then [Row(base + Bytes(line[..b]), line[b..], true)]
    else if Cells(line[b..i]) + line[i].cells > width && b < i then
      [Row(base + Bytes(line[..b]), line[b..i], false)] + LineRows(line, base, width, i, i + 1)
    else LineRows(line, base, width, b, i + 1)
  }

  function LinesRows(lines: seq<seq<Cluster>>, base: nat, width: nat): seq<Row>
    decreases |lines|
  {
    if lines == [] then []
    else LineRows(lines[0], base, width, 0, 0) + LinesRows(lines[1..], base + Bytes(lines[0]) + 1, width)
  }

  /** A pane of no cells counts as one cell wide. */
  function AtLeastOne(width: nat): nat {
    if width == 0 then 1 else width
  }

  function RowsOf(text: seq<Cluster>, width: nat): seq<Row> {
    LinesRows(Split(text, NEWLINE), 0, AtLeastOne(width))
  }

  /** The caret at `byte` is drawn in row `r` before its cluster `k`; after the last one only at a hard end. */
  ghost predicate CaretBefore(rows: seq<Row>, r: nat, k: nat, byte: nat) {
    && r < |rows|
    && k <= |rows[r].text|
    && (k < |rows[r].text| || rows[r].hardEnd)
    && byte == rows[r].start + Bytes(rows[r].text[..k])
  }

  ghost predicate Located(rows: seq<Row>, r: nat, column: nat, byte: nat) {
    exists k: nat :: CaretBefore(rows, r, k, byte) && column == Cells(rows[r].text[..k])
  }

  // ----- rows tile the text -----

  ghost predicate Chained(rows: seq<Row>) {
    forall r :: 0 < r < |rows| ==> rows[r].start == NextStart(rows[r - 1])
  }

  lemma {:induction false} ChainedAppend(a: seq<Row>, b: seq<Row>)
    requires Chained(a) && Chained(b)
    requires a != [] && b != [] ==> b[0].start == NextStart(a[|a| - 1])
    ensures Chained(a + b)
  {
    var all := a + b;
    forall r | 0 < r < |all| ensures all[r].start == NextStart(all[r - 1]) {
      if r > |a| {
        assert all[r] == b[r - |a|] && all[r - 1] == b[r - |a| - 1];
      }
    }
  }

  /** Rows of a line from its cluster `b` on: chained, from that cluster's byte to the next line's. */
  ghost predicate LineChained(line: seq<Cluster>, base: nat, b: nat, rows: seq<Row>)
    requires b <= |line|
  {
    && rows != [] && Chained(rows)
    && rows[0].start == base + Bytes(line[..b])
    && NextStart(rows[|rows| - 1]) == base + Bytes(line) + 1
  }

  lemma {:induction false} LastRowChained(line: seq<Cluster>, base: nat, b: nat)
    requires b <= |line|
    ensures LineChained(line, base, b, [Row(base + Bytes(line[..b]), line[b..], true)])
  {
    assert line == line[..b] + line[b..];
    BytesAppend(line[..b], line[b..]);
  }

  lemma {:induction false} SoftRowChained(line: seq<Cluster>, base: nat, b: nat, i: nat, rest: seq<Row>)
    requires b <= i <= |line| && LineChained(line, base, i, rest)
    ensures LineChained(line, base, b, [Row(base + Bytes(line[..b]), line[b..i], false)] + rest)
  {
    assert line[..i] == line[..b] + line[b..i];
    BytesAppend(line[..b], line[b..i]);
    ChainedAppend([Row(base + Bytes(line[..b]), line[b..i], false)], rest);
  }

  lemma {:induction false} LineRowsChained(line: seq<Cluster>, base: nat, width: nat, b: nat, i: nat)
    requires b <= i <= |line|
    ensures LineChained(line, base, b, LineRows(line, base, width, b, i))
    decreases |line| - i
  {
    if i == |line| {
      LastRowChained(line, base, b);
    } else if Cells(line[b..i]) + line[i].cells > width && b < i {
      LineRowsChained(line, base, width, i, i + 1);
      SoftRowChained(line, base, b, i, LineRows(line, base, width, i, i + 1));
    } else {
      LineRowsChained(line, base, width, b, i + 1);
    }
  }

  lemma {:induction false} LinesRowsChained(lines: seq<seq<Cluster>>, base: nat, width: nat)
    ensures Chained(LinesRows(lines, base, width))
    ensures lines != [] ==> LinesRows(lines, base, width) != [] && LinesRows(lines, base, width)[0].start == base
    decreases |lines|
  {
    if lines != [] {
      LineRowsChained(lines[0], base, width, 0, 0);
      LinesRowsChained(lines[1..], base + Bytes(lines[0]) + 1, width);
      assert lines[0][..0] == [];
      ChainedAppend(LineRows(lines[0], base, width, 0, 0), LinesRows(lines[1..], base + Bytes(lines[0]) + 1, width));
    }
  }

  lemma {:induction false} RowsAdvance(rows: seq<Row>, r: nat, s: nat)
    requires Chained(rows) && r < s < |rows|
    ensures NextStart(rows[r]) <= rows[s].start
    decreases s
  {
    assert rows[s].start == NextStart(rows[s - 1]);
    if r < s - 1 {
      RowsAdvance(rows, r, s - 1);
    }
  }

  lemma {:induction false} CaretBelowNextStart(rows: seq<Row>, r: nat, k: nat, byte: nat)
    requires CaretBefore(rows, r, k, byte)
    ensures rows[r].start <= byte < NextStart(rows[r])
  {
    var text := rows[r].text;
    BoundariesGrow(text, k, |text|);
    assert text[..|text|] == text;
  }

  /** One caret offset is drawn in one place. */
  lemma {:induction false} LocatedOnce(rows: seq<Row>, r: nat, c: nat, s: nat, d: nat, byte: nat)
    requires Chained(rows)
    requires Located(rows, r, c, byte) && Located(rows, s, d, byte)
    ensures r == s && c == d
  {
    var j: nat :| CaretBefore(rows, r, j, byte) && c == Cells(rows[r].text[..j]);
    var k: nat :| CaretBefore(rows, s, k, byte) && d == Cells(rows[s].text[..k]);
    CaretBelowNextStart(rows, r, j, byte);
    CaretBelowNextStart(rows, s, k, byte);
    if r < s {
      RowsAdvance(rows, r, s);
    } else if s < r {
      RowsAdvance(rows, s, r);
    } else if j < k {
      BoundariesGrow(rows[r].text, j, k);
    } else {
      BoundariesGrow(rows[r].text, k, j);
    }
  }

  // ----- rows lie on boundaries -----

  lemma {:induction false} LineCaretOnBoundary(line: seq<Cluster>, base: nat, width: nat, b: nat, i: nat, r: nat,
                                               k: nat, byte: nat)
    requires b <= i <= |line|
    requires CaretBefore(LineRows(line, base, width, b, i), r, k, byte)
    ensures byte >= base && IsBoundary(line, byte - base)
    decreases |line| - i
  {
    if i == |line| {
      assert line[..b] + line[b..][..k] == line[..b + k];
      BytesAppend(line[..b], line[b..][..k]);
    } else if Cells(line[b..i]) + line[i].cells > width && b < i {
      var rest := LineRows(line, base, width, i, i + 1);
      if r == 0 {
        assert line[..b] + line[b..i][..k] == line[..b + k];
        BytesAppend(line[..b], line[b..i][..k]);
      } else {
        assert CaretBefore(rest, r - 1, k, byte);
        LineCaretOnBoundary(line, base, width, i, i + 1, r - 1, k, byte);
      }
    } else {
      LineCaretOnBoundary(line, base, width, b, i + 1, r, k, byte);
    }
  }

  lemma {:induction false} BoundaryInPrefix(a: seq<Cluster>, b: seq<Cluster>, byte: nat)
    requires IsBoundary(a, byte)
    ensures IsBoundary(a + b, byte)
  {
    var k: nat :| k <= |a| && byte == Bytes(a[..k]);
    assert (a + b)[..k] == a[..k];
  }

  lemma {:induction false} BoundaryInSuffix(a: seq<Cluster>, b: seq<Cluster>, byte: nat)
    requires IsBoundary(b, byte)
    ensures IsBoundary(a + b, Bytes(a) + byte)
  {
    var k: nat :| k <= |b| && byte == Bytes(b[..k]);
    assert (a + b)[..|a| + k] == a + b[..k];
    BytesAppend(a, b[..k]);
  }

  lemma {:induction false} LinesCaretOnBoundary(lines: seq<seq<Cluster>>, base: nat, width: nat, r: nat, k: nat,
                                                byte: nat)
    requires CaretBefore(LinesRows(lines, base, width), r, k, byte)
    ensures byte >= base && IsBoundary(Join(lines, NEWLINE), byte - base)
    decreases |lines|
  {
    var first := LineRows(lines[0], base, width, 0, 0);
    var next := base + Bytes(lines[0]) + 1;
    if r < |first| {
      assert CaretBefore(first, r, k, byte);
      LineCaretOnBoundary(lines[0], base, width, 0, 0, r, k, byte);
      if |lines| > 1 {
        assert Join(lines, NEWLINE) == lines[0] + ([NEWLINE] + Join(lines[1..], NEWLINE));
        BoundaryInPrefix(lines[0], [NEWLINE] + Join(lines[1..], NEWLINE), byte - base);
      }
    } else {
      assert CaretBefore(LinesRows(lines[1..], next, width), r - |first|, k, byte);
      LinesCaretOnBoundary(lines[1..], next, width, r - |first|, k, byte);
      BytesAppend(lines[0], [NEWLINE]);
      assert Bytes([NEWLINE]) == 1 + Bytes([]);
      BoundaryInSuffix(lines[0] + [NEWLINE], Join(lines[1..], NEWLINE), byte - next);
    }
  }

  /** Wherever the caret can be drawn is a cluster boundary. */
  lemma {:induction false} CaretOnBoundary(text: seq<Cluster>, width: nat, r: nat, k: nat, byte: nat)
    requires CaretBefore(RowsOf(text, width), r, k, byte)
    ensures IsBoundary(text, byte)
  {
    JoinInvertsSplit(text, NEWLINE);
    LinesCaretOnBoundary(Split(text, NEWLINE), 0, AtLeastOne(width), r, k, byte);
  }

  // ----- what the rows show -----

  /** A row overflows only when it is a single cluster. */
  ghost predicate RowsFit(rows: seq<Row>, width: nat) {
    forall r :: 0 <= r < |rows| ==> Cells(rows[r].text) <= width || |rows[r].text| == 1
  }

  /** Row texts in order, with a newline after each hard end. */
  function Shown(rows: seq<Row>): seq<Cluster> {
    if rows == [] then []
    else rows[0].text + (if rows[0].hardEnd then [NEWLINE] else []) + Shown(rows[1..])
  }

  lemma {:induction false} ShownAppend(a: seq<Row>, b: seq<Row>)
    ensures Shown(a + b) == Shown(a) + Shown(b)
  {
    if a == [] {
      assert a + b == b;
    } else {
      assert (a + b)[1..] == a[1..] + b;
      ShownAppend(a[1..], b);
    }
  }

  /** Rows that show a line from its cluster `b` on, and fit. */
  ghost predicate LineShown(line: seq<Cluster>, width: nat, b: nat, rows: seq<Row>)
    requires b <= |line|
  {
    Shown(rows) == line[b..] + [NEWLINE] && RowsFit(rows, width)
  }

  lemma {:induction false} LastRowShown(line: seq<Cluster>, width: nat, b: nat, start: nat)
    requires b <= |line| && (Cells(line[b..]) <= width || |line| == b + 1)
    ensures LineShown(line, width, b, [Row(start, line[b..], true)])
  {
    var row := Row(start, line[b..], true);
    assert Shown([row]) == row.text + [NEWLINE] + Shown([row][1..]);
  }

  lemma {:induction false} SoftRowShown(line: seq<Cluster>, width: nat, b: nat, i: nat, start: nat, rest: seq<Row>)
    requires b <= i <= |line| && (Cells(line[b..i]) <= width || i == b + 1)
    requires LineShown(line, width, i, rest)
    ensures LineShown(line, width, b, [Row(start, line[b..i], false)] + rest)
  {
    assert ([Row(start, line[b..i], false)] + rest)[1..] == rest;
    assert line[b..] == line[b..i] + line[i..];
  }

  lemma {:induction false} LineRowsShow(line: seq<Cluster>, base: nat, width: nat, b: nat, i: nat)
    requires b <= i <= |line| && width >= 1
    requires Cells(line[b..i]) <= width || i == b + 1
    ensures LineShown(line, width, b, LineRows(line, base, width, b, i))
    decreases |line| - i
  {
    var start := base + Bytes(line[..b]);
    if i == |line| {
      assert line[b..i] == line[b..];
      LastRowShown(line, width, b, start);
    } else if Cells(line[b..i]) + line[i].cells > width && b < i {
      LineRowsShow(line, base, width, i, i + 1);
      SoftRowShown(line, width, b, i, start, LineRows(line, base, width, i, i + 1));
    } else {
      CellsSnoc(line[b..i], line[i]);
      SliceSnoc(line, b, i);
      LineRowsShow(line, base, width, b, i + 1);
    }
  }

  lemma {:induction false} LinesRowsShow(lines: seq<seq<Cluster>>, base: nat, width: nat)
    requires lines != [] && width >= 1
    ensures Shown(LinesRows(lines, base, width)) == Join(lines, NEWLINE) + [NEWLINE]
    ensures RowsFit(LinesRows(lines, base, width), width)
    decreases |lines|
  {
    assert lines[0][0..] == lines[0] && lines[0][0..0] == [];
    LineRowsShow(lines[0], base, width, 0, 0);
    var first := LineRows(lines[0], base, width, 0, 0);
    var next := base + Bytes(lines[0]) + 1;
    ShownAppend(first, LinesRows(lines[1..], next, width));
    if |lines| > 1 {
      LinesRowsShow(lines[1..], next, width);
    } else {
      assert LinesRows(lines[1..], next, width) == [];
    }
  }

  /** Wrapping drops no cluster and adds none: the rows spell the text, and fit unless one cluster alone does not. */
  lemma {:induction false} RowsSpellTheText(text: seq<Cluster>, width: nat)
    ensures Shown(RowsOf(text, width)) == text + [NEWLINE]
    ensures RowsFit(RowsOf(text, width), if width == 0 then 1 else width)
  {
    JoinInvertsSplit(text, NEWLINE);
    LinesRowsShow(Split(text, NEWLINE), 0, AtLeastOne(width));
  }

  // ----- rows are no more than they must be -----

  function Texts(rows: seq<Row>): (texts: seq<Line>)
    ensures |texts| == |rows| && forall r :: 0 <= r < |rows| ==> texts[r] == rows[r].text
  {
    seq(|rows|, r requires 0 <= r < |rows| => rows[r].text)
  }

  /**
    The rows hold the line and end it hard; they fit unless one cluster alone does not, each but the last had
    no room for the first cluster of the next, and no fitting split of the line has fewer.
   */
  ghost predicate LineTiled(rows: seq<Row>, line: seq<Cluster>, width: nat) {
    && rows != [] && Concat(Texts(rows)) == line
    && (forall r :: 0 <= r < |rows| ==> (rows[r].hardEnd <==> r == |rows| - 1))
    && RowsFit(rows, width) && Wrap.Greedy(Texts(rows), width)
    && forall pieces :: Wrap.FittingSplit(pieces, line, width) ==> |rows| <= |pieces|
  }

  /** The rows start at the text's first byte, one where the one before ends, and tile its logical lines one by one. */
  ghost predicate Tiled(rows: seq<Row>, text: seq<Cluster>, width: nat) {
    && rows != [] && rows[0].start == 0 && Chained(rows)
    && exists groups: seq<seq<Row>> :: Concat(groups) == rows && LinesTiled(groups, Split(text, NEWLINE), width)
  }

  ghost predicate LinesTiled(groups: seq<seq<Row>>, lines: seq<seq<Cluster>>, width: nat) {
    |groups| == |lines| && forall n :: 0 <= n < |lines| ==> LineTiled(groups[n], lines[n], width)
  }

  /** Rows from cluster `b` on that hold the clusters up to `i` in the first row. */
  ghost predicate Packed(rows: seq<Row>, line: seq<Cluster>, width: nat, b: nat, i: nat)
    requires b <= i <= |line|
  {
    && rows != [] && Concat(Texts(rows)) == line[b..] && line[b..i] <= rows[0].text
    && (forall r :: 0 <= r < |rows| ==> (rows[r].hardEnd <==> r == |rows| - 1))
    && Wrap.Greedy(Texts(rows), width)
  }

  lemma {:induction false} RowInFront(row: Row, rest: seq<Row>, line: seq<Cluster>, width: nat, b: nat, i: nat)
    requires b < i < |line| && row.text == line[b..i] && !row.hardEnd
    requires Cells(line[b..i]) + line[i].cells > width && Packed(rest, line, width, i, i + 1)
    ensures Packed([row] + rest, line, width, b, i)
  {
    var rows := [row] + rest;
    var texts, later := Texts(rows), Texts(rest);
    assert texts == [row.text] + later;
    assert line[b..] == line[b..i] + line[i..];
    assert line[i..i + 1] == [line[i]];
    forall k | 0 < k < |texts| ensures texts[k] != [] && Cells(texts[k - 1] + [texts[k][0]]) > width {
      if k == 1 {
        assert later[0][0] == line[i];
        CellsSnoc(line[b..i], line[i]);
      } else {
        assert texts[k] == later[k - 1] && texts[k - 1] == later[k - 2];
      }
    }
    forall r | 0 <= r < |rows| ensures rows[r].hardEnd <==> r == |rows| - 1 {
      if r > 0 {
        assert rows[r] == rest[r - 1];
      }
    }
  }

  lemma {:induction false} LastRowPacked(line: seq<Cluster>, width: nat, b: nat, start: nat)
    requires b <= |line|
    ensures Packed([Row(start, line[b..], true)], line, width, b, |line|)
  {
    var row, none := Row(start, line[b..], true), [];
    assert Texts([row]) == none + [line[b..]];
    ConcatSnoc(none, line[b..]);
    assert line[b..|line|] == line[b..];
  }

  lemma {:induction false} LineRowsPacked(line: seq<Cluster>, base: nat, width: nat, b: nat, i: nat)
    requires b <= i <= |line|
    ensures Packed(LineRows(line, base, width, b, i), line, width, b, i)
    decreases |line| - i
  {
    if i == |line| {
      LastRowPacked(line, width, b, base + Bytes(line[..b]));
      assert line[b..i] == line[b..];
    } else if Cells(line[b..i]) + line[i].cells > width && b < i {
      LineRowsPacked(line, base, width, i, i + 1);
      RowInFront(Row(base + Bytes(line[..b]), line[b..i], false), LineRows(line, base, width, i, i + 1),
                 line, width, b, i);
    } else {
      LineRowsPacked(line, base, width, b, i + 1);
      PackedLess(LineRows(line, base, width, b, i + 1), line, width, b, i);
    }
  }

  lemma {:induction false} PackedLess(rows: seq<Row>, line: seq<Cluster>, width: nat, b: nat, i: nat)
    requires b <= i < |line| && Packed(rows, line, width, b, i + 1)
    ensures Packed(rows, line, width, b, i)
  {
    SliceSnoc(line, b, i);
    assert line[b..i] <= line[b..i + 1] <= rows[0].text;
  }

  lemma {:induction false} SliceSnoc(line: seq<Cluster>, b: nat, i: nat)
    requires b <= i < |line|
    ensures line[b..i + 1] == line[b..i] + [line[i]]
  {
  }

  lemma {:induction false} LineRowsTile(line: seq<Cluster>, base: nat, width: nat)
    requires width >= 1
    ensures LineTiled(LineRows(line, base, width, 0, 0), line, width)
  {
    var rows := LineRows(line, base, width, 0, 0);
    assert line[0..] == line && line[0..0] == [];
    LineRowsPacked(line, base, width, 0, 0);
    LineRowsShow(line, base, width, 0, 0);
    Wrap.FewestLines(Texts(rows), line, width);
  }

  lemma {:induction false} LinesRowsTile(lines: seq<seq<Cluster>>, base: nat, width: nat)
      returns (groups: seq<seq<Row>>)
    requires width >= 1
    ensures Concat(groups) == LinesRows(lines, base, width) && LinesTiled(groups, lines, width)
    decreases |lines|
  {
    if lines == [] {
      groups := [];
    } else {
      var rest := LinesRowsTile(lines[1..], base + Bytes(lines[0]) + 1, width);
      LineRowsTile(lines[0], base, width);
      groups := [LineRows(lines[0], base, width, 0, 0)] + rest;
      assert groups[1..] == rest;
      forall n | 0 <= n < |lines| ensures LineTiled(groups[n], lines[n], width) {
        if n > 0 {
          assert LineTiled(rest[n - 1], lines[1..][n - 1], width);
        }
      }
    }
  }

  /** The rows of a text at a width, where width 0 counts as 1: each logical line in as few rows as it can be. */
  lemma {:induction false} RowsTileTheText(text: seq<Cluster>, width: nat)
    ensures Tiled(RowsOf(text, width), text, if width == 0 then 1 else width)
  {
    var lines := Split(text, NEWLINE);
    var groups := LinesRowsTile(lines, 0, if width == 0 then 1 else width);
    LinesRowsChained(lines, 0, if width == 0 then 1 else width);
  }
}
