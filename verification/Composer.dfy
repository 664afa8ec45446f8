// The message buffer, its caret, and vertical motion (pkgs/clients/tui/src/composer.rs).
module Composer {
  import opened Clusters
  import opened Rows
  import opened Sequences

  const MAX_ROWS: nat := 8

  // ----- from a column to an offset -----

  /** The cluster of `row` a caret aimed at `column` stops before. */
  function StopAt(row: Row, column: nat, k: nat): (stop: nat)
    requires k <= |row.text|
    ensures stop <= |row.text|
    decreases |row.text| - k
  {
    if k < |row.text| && Cells(row.text[..k]) < column then StopAt(row, column, k + 1)
    else if k < |row.text| then k
    else if row.hardEnd || row.text == [] then |row.text|
    else |row.text| - 1
  }

  /** The stop is the first cluster at or past the column; past them all, the last place a caret can stand. */
  lemma {:induction false} StopIsFirstAtColumn(row: Row, column: nat, k: nat)
    requires k <= |row.text|
    requires forall j :: 0 <= j < k ==> Cells(row.text[..j]) < column
    ensures var stop := StopAt(row, column, k);
            && (forall j :: 0 <= j < stop ==> Cells(row.text[..j]) < column)
            && (Cells(row.text[..stop]) < column ==>
                  stop == if row.hardEnd || row.text == [] then |row.text| else |row.text| - 1)
    decreases |row.text| - k
  {
    if k < |row.text| && Cells(row.text[..k]) < column {
      StopIsFirstAtColumn(row, column, k + 1);
    }
  }

  class Composer {
    var text: seq<Cluster>
    /** A byte offset. */
    var caret: nat

    /** The caret is always on a boundary. */
    ghost predicate Valid()
      reads this
    {
      IsBoundary(text, caret)
    }

    constructor ()
      ensures Valid() && text == [] && caret == 0
    {
      text, caret := [], 0;
      new;
      assert text[..0] == [];
    }

    /** The cluster index of the caret. */
    method CaretIndex() returns (k: nat)
      requires Valid()
      ensures k <= |text| && Bytes(text[..k]) == caret
    {
      k := 0;
      var at: nat := 0;
      assert text[..0] == [];
      while at < caret
        invariant k <= |text| && at == Bytes(text[..k]) && at <= caret
        decreases caret - at
      {
        EndIsLastBoundary(text, caret);
        assert text[..|text|] == text;
        NoBoundaryInside(text, k, caret);
        BytesSnoc(text, k);
        at := at + text[k].size;
        k := k + 1;
      }
    }

    // ----- edits -----

    method Insert(s: seq<Cluster>)
      requires Valid()
      modifies this
      ensures Valid()
      ensures exists k: nat :: k <= |old(text)| && old(caret) == Bytes(old(text)[..k])
                && text == old(text)[..k] + s + old(text)[k..]
                && caret == Bytes(old(text)[..k] + s)
    {
      var k := CaretIndex();
      var before := text[..k];
      BytesAppend(before, s);
      text := before + s + text[k..];
      caret := caret + Bytes(s);
      assert text[..k + |s|] == before + s;
    }

    method Backspace()
      requires Valid()
      modifies this
      ensures Valid()
      ensures old(caret) == 0 ==> text == old(text) && caret == 0
      ensures old(caret) > 0 ==>
                exists k: nat :: 0 < k <= |old(text)| && old(caret) == Bytes(old(text)[..k])
                  && text == old(text)[..k - 1] + old(text)[k..]
                  && caret == Bytes(old(text)[..k - 1])
    {
      var k := CaretIndex();
      if k > 0 {
        BytesSnoc(text, k - 1);
        ghost var was := text;
        caret := caret - text[k - 1].size;
        text := text[..k - 1] + text[k..];
        assert text[..k - 1] == was[..k - 1];
        assert caret == Bytes(was[..k - 1]);
      } else {
        assert text[..0] == [];
      }
    }

    method Left()
      requires Valid()
      modifies this`caret
      ensures Valid()
      ensures old(caret) == 0 ==> caret == 0
      ensures old(caret) > 0 ==>
                exists k: nat :: 0 < k <= |text| && old(caret) == Bytes(text[..k]) && caret == Bytes(text[..k - 1])
    {
      var k := CaretIndex();
      if k > 0 {
        BytesSnoc(text, k - 1);
        caret := caret - text[k - 1].size;
        assert caret == Bytes(text[..k - 1]);
      } else {
        assert text[..0] == [];
      }
    }

    method Right()
      requires Valid()
      modifies this`caret
      ensures Valid()
      ensures old(caret) == Bytes(text) ==> caret == old(caret)
      ensures old(caret) < Bytes(text) ==>
                exists k: nat :: k < |text| && old(caret) == Bytes(text[..k]) && caret == Bytes(text[..k + 1])
    {
      var k := CaretIndex();
      assert text[..|text|] == text;
      if k < |text| {
        BytesSnoc(text, k);
        BoundariesGrow(text, k + 1, |text|);
        caret := caret + text[k].size;
        assert caret == Bytes(text[..k + 1]);
      }
    }

    // ----- layout -----

    /** The visual rows and where in them the caret is. */
    method Layout(width: nat) returns (rows: seq<Row>, caretRow: nat, caretColumn: nat)
      requires Valid()
      ensures rows == RowsOf(text, width)
      ensures Located(rows, caretRow, caretColumn, caret)
    {
      var w := AtLeastOne(width);
      var lines := Split(text, NEWLINE);
      JoinInvertsSplit(text, NEWLINE);
      rows, caretRow, caretColumn := [], 0, 0;
      var base: nat := 0;
      ghost var p: nat := 0;
      assert text[..0] == [] && text[0..] == text && lines[0..] == lines;
      for n := 0 to |lines|
        invariant LaidUpTo(text, width, lines, n, p, base, rows)
        invariant caret < base ==> Located(rows, caretRow, caretColumn, caret)
      {
        var line := lines[n];
        LineAt(text, lines, n, p);
        LineLaid(text, width, lines, n, p, base, rows);
        rows, caretRow, caretColumn := LayoutLine(line, base, w, p, rows, caretRow, caretColumn);
        p := p + |line| + 1;
        base := base + Bytes(line) + 1;
      }
      assert lines[|lines|..] == [];
      EndIsLastBoundary(text, caret);
    }

    /** Lays one logical line, which starts at byte `base`. */
    method LayoutLine(line: seq<Cluster>, base: nat, w: nat, ghost p: nat,
                      rowsSoFar: seq<Row>, rowSoFar: nat, columnSoFar: nat)
      returns (rows: seq<Row>, caretRow: nat, caretColumn: nat)
      requires Valid()
      requires p + |line| <= |text| && text[p..p + |line|] == line && base == Bytes(text[..p])
      requires caret < base ==> Located(rowsSoFar, rowSoFar, columnSoFar, caret)
      ensures rows == rowsSoFar + LineRows(line, base, w, 0, 0)
      ensures caret <= base + Bytes(line) ==> Located(rows, caretRow, caretColumn, caret)
    {
      rows, caretRow, caretColumn := rowsSoFar, rowSoFar, columnSoFar;
      ghost var total := rowsSoFar + LineRows(line, base, w, 0, 0);
      ghost var b: nat := 0;
      var i: nat := 0;
      var row: seq<Cluster> := [];
      var rowStart: nat := base;
      var used: nat := 0;
      var at: nat := base;
      assert line[..0] == [] && line[0..0] == [];
      if caret < base {
        LocatedStays(rows, Row(rowStart, row, false), caretRow, caretColumn, caret);
      }
      while i < |line|
        invariant i <= |line|
        invariant Filling(line, base, w, b, i, i, rows, row, rowStart, used, at, total)
        invariant caret < at ==> Located(rows + [Row(rowStart, row, false)], caretRow, caretColumn, caret)
      {
        var cluster := line[i];
        BoundaryWithinLine(text, p, line, base, i, caret);
        rows, row, rowStart, used, b, caretRow, caretColumn :=
          PlaceCluster(line, base, w, b, i, rows, row, rowStart, used, at, total, caretRow, caretColumn);
        at := at + cluster.size;
        i := i + 1;
      }
      LineEnds(line, base, w, b, rows, row, rowStart, used, at, total, caretRow, caretColumn, caret);
      if at == caret {
        caretRow, caretColumn := |rows|, used;
      }
      rows := rows + [Row(rowStart, row, true)];
    }

    /** Puts cluster `i` of a line into the row being filled, or into a new row if it does not fit there. */
    method PlaceCluster(line: seq<Cluster>, ghost base: nat, w: nat, ghost start: nat, i: nat, rowsSoFar: seq<Row>,
                        rowSoFar: seq<Cluster>, startSoFar: nat, usedSoFar: nat, at: nat, ghost total: seq<Row>,
                        r: nat, c: nat)
      returns (rows: seq<Row>, row: seq<Cluster>, rowStart: nat, used: nat, ghost b: nat,
               caretRow: nat, caretColumn: nat)
      requires i < |line| && Filling(line, base, w, start, i, i, rowsSoFar, rowSoFar, startSoFar, usedSoFar, at, total)
      requires caret < at ==> Located(rowsSoFar + [Row(startSoFar, rowSoFar, false)], r, c, caret)
      ensures Filling(line, base, w, b, i + 1, i + 1, rows, row, rowStart, used, at + line[i].size, total)
      ensures caret <= at ==> Located(rows + [Row(rowStart, row, false)], caretRow, caretColumn, caret)
    {
      var cluster := line[i];
      caretRow, caretColumn := r, c;
      ClusterComes(line, base, w, start, i, rowsSoFar, rowSoFar, startSoFar, usedSoFar, at, total, r, c, caret);
      if usedSoFar + cluster.cells > w && rowSoFar != [] {
        rows := rowsSoFar + [Row(startSoFar, rowSoFar, false)];
        if at == caret {
          caretRow, caretColumn := |rows|, 0;
        }
        ClusterTaken(line, base, w, i, i, rows, [], at, 0, at, total, caretRow, caretColumn, caret);
        return rows, [] + [cluster], at, 0 + cluster.cells, i, caretRow, caretColumn;
      }
      if at == caret {
        caretRow, caretColumn := |rowsSoFar|, usedSoFar;
      }
      ClusterTaken(line, base, w, start, i, rowsSoFar, rowSoFar, startSoFar, usedSoFar, at, total,
                   caretRow, caretColumn, caret);
      return rowsSoFar, rowSoFar + [cluster], startSoFar, usedSoFar + cluster.cells, start, caretRow, caretColumn;
    }

    // ----- vertical motion -----

    /** The byte offset in `row` for a caret aimed at `column`; a soft row stops before its end. */
    method OffsetInRow(row: Row, column: nat) returns (offset: nat)
      ensures offset == row.start + Bytes(row.text[..StopAt(row, column, 0)])
    {
      var used: nat, at: nat := 0, row.start;
      var last := row.start;
      var k := 0;
      assert row.text[..0] == [];
      while k < |row.text|
        invariant k <= |row.text|
        invariant used == Cells(row.text[..k]) && at == row.start + Bytes(row.text[..k])
        invariant last == row.start + Bytes(row.text[..if k == 0 then 0 else k - 1])
        invariant StopAt(row, column, k) == StopAt(row, column, 0)
      {
        if used >= column {
          return at;
        }
        last := at;
        CellsSnoc(row.text[..k], row.text[k]);
        assert row.text[..k + 1] == row.text[..k] + [row.text[k]];
        BytesSnoc(row.text, k);
        used := used + row.text[k].cells;
        at := at + row.text[k].size;
        k := k + 1;
      }
      assert row.text[..|row.text|] == row.text;
      offset := if row.hardEnd || row.text == [] then at else last;
    }

    /** The caret moves to the row above, at the first cluster at or past its column, unless it is on the first row. */
    method Up(width: nat)
      requires Valid()
      modifies this`caret
      ensures Valid()
      ensures MovedTo(text, width, old(caret), caret, -1)
    {
      var rows, row, column := Layout(width);
      if row == 0 {
        assert Still(rows, 0, column, caret, -1);
        return;
      }
      ghost var was := caret;
      caret := OffsetInRow(rows[row - 1], column);
      StopIsLocated(text, width, row - 1, column, caret);
      assert Stepped(rows, row, column, was, caret, -1);
    }

    /** Likewise one row down, unless it is on the last row. */
    method Down(width: nat)
      requires Valid()
      modifies this`caret
      ensures Valid()
      ensures MovedTo(text, width, old(caret), caret, 1)
    {
      var rows, row, column := Layout(width);
      if row + 1 >= |rows| {
        assert Still(rows, row, column, caret, 1);
        return;
      }
      ghost var was := caret;
      caret := OffsetInRow(rows[row + 1], column);
      StopIsLocated(text, width, row + 1, column, caret);
      assert Stepped(rows, row, column, was, caret, 1);
    }

    /** At most eight rows: the first ones, or those up to the caret's. */
    method VisibleRows(width: nat) returns (shown: seq<Row>, caretRow: nat, caretColumn: nat)
      requires Valid()
      ensures |shown| == if |RowsOf(text, width)| <= 8 then |RowsOf(text, width)| else 8
      ensures exists first: nat :: IsWindow(RowsOf(text, width), first, shown, caretRow, caretColumn, caret)
    {
      var rows, row, column := Layout(width);
      if |rows| <= MAX_ROWS {
        assert rows[0..0 + |rows|] == rows;
        assert IsWindow(rows, 0, rows, row, column, caret);
        return rows, row, column;
      }
      var last := if row > MAX_ROWS - 1 then row else MAX_ROWS - 1;
      var start := last + 1 - MAX_ROWS;
      shown, caretRow, caretColumn := rows[start..last + 1], row - start, column;
      assert IsWindow(rows, start, shown, caretRow, caretColumn, caret);
    }
  }

  /** `shown` is the stretch of `rows` from the first one on, or the one that ends with the caret's row. */
  ghost predicate IsWindow(rows: seq<Row>, first: nat, shown: seq<Row>, caretRow: nat, caretColumn: nat, caret: nat) {
    && first + |shown| <= |rows|
    && shown == rows[first..first + |shown|]
    && caretRow < |shown| && (first == 0 || caretRow == |shown| - 1)
    && Located(rows, first + caretRow, caretColumn, caret)
  }

  // ----- what one vertical move does -----

  /** On the edge the caret stays. */
  ghost predicate Still(rows: seq<Row>, row: nat, column: nat, caret: nat, step: int) {
    Located(rows, row, column, caret) && !(0 <= row + step < |rows|)
  }

  /** Otherwise it lands in the next row over, where a caret aimed at its column stops. */
  ghost predicate Stepped(rows: seq<Row>, row: nat, column: nat, before: nat, after: nat, step: int) {
    && Located(rows, row, column, before)
    && 0 <= row + step < |rows|
    && var target := rows[row + step];
       var stop := StopAt(target, column, 0);
       && after == target.start + Bytes(target.text[..stop])
       && Located(rows, row + step, Cells(target.text[..stop]), after)
  }

  ghost predicate MovedTo(text: seq<Cluster>, width: nat, before: nat, after: nat, step: int) {
    var rows := RowsOf(text, width);
    exists row: nat, column: nat ::
      (Still(rows, row, column, before, step) && after == before) || Stepped(rows, row, column, before, after, step)
  }

  lemma {:induction false} EndIsLastBoundary(text: seq<Cluster>, byte: nat)
    requires IsBoundary(text, byte)
    ensures byte <= Bytes(text)
  {
    var k: nat :| k <= |text| && byte == Bytes(text[..k]);
    BoundariesGrow(text, k, |text|);
    assert text[..|text|] == text;
  }

  /** After `n` logical lines, which end before cluster `p`, at byte `base`: the rows so far and those still to come. */
  ghost predicate LaidUpTo(text: seq<Cluster>, width: nat, lines: seq<seq<Cluster>>, n: nat, p: nat, base: nat,
                           rows: seq<Row>) {
    && n <= |lines|
    && rows + LinesRows(lines[n..], base, AtLeastOne(width)) == RowsOf(text, width)
    && (n < |lines| ==> p <= |text| && text[p..] == Join(lines[n..], NEWLINE) && base == Bytes(text[..p]))
    && (n == |lines| ==> base == Bytes(text) + 1)
  }

  lemma {:induction false} LineLaid(text: seq<Cluster>, width: nat, lines: seq<seq<Cluster>>, n: nat, p: nat,
                                    base: nat, rows: seq<Row>)
    requires n < |lines| && LaidUpTo(text, width, lines, n, p, base, rows)
    ensures LaidUpTo(text, width, lines, n + 1, p + |lines[n]| + 1, base + Bytes(lines[n]) + 1,
                     rows + LineRows(lines[n], base, AtLeastOne(width), 0, 0))
  {
    var line, next, w := lines[n], base + Bytes(lines[n]) + 1, AtLeastOne(width);
    NextLine(text, lines, n, p);
    assert lines[n..][0] == line && lines[n..][1..] == lines[n + 1..];
    var first, rest := LineRows(line, base, w, 0, 0), LinesRows(lines[n + 1..], next, w);
    assert rows + first + rest == rows + (first + rest);
  }

  lemma {:induction false} LineAt(text: seq<Cluster>, lines: seq<seq<Cluster>>, n: nat, p: nat)
    requires n < |lines| && p <= |text| && text[p..] == Join(lines[n..], NEWLINE)
    ensures p + |lines[n]| <= |text| && text[p..p + |lines[n]|] == lines[n]
  {
    NextLine(text, lines, n, p);
  }

  lemma {:induction false} NextLine(text: seq<Cluster>, lines: seq<seq<Cluster>>, n: nat, p: nat)
    requires n < |lines| && p <= |text| && text[p..] == Join(lines[n..], NEWLINE)
    ensures p + |lines[n]| <= |text| && text[p..p + |lines[n]|] == lines[n]
    ensures n + 1 < |lines| ==>
              && p + |lines[n]| + 1 <= |text|
              && text[p + |lines[n]| + 1..] == Join(lines[n + 1..], NEWLINE)
              && Bytes(text[..p + |lines[n]| + 1]) == Bytes(text[..p]) + Bytes(lines[n]) + 1
    ensures n + 1 == |lines| ==> Bytes(text) == Bytes(text[..p]) + Bytes(lines[n])
  {
    var line := lines[n];
    assert text == text[..p] + text[p..];
    if n + 1 < |lines| {
      assert lines[n..][0] == line && lines[n..][1..] == lines[n + 1..];
      assert text[p..] == line + [NEWLINE] + Join(lines[n + 1..], NEWLINE);
      assert text[..p + |line| + 1] == text[..p] + (line + [NEWLINE]);
      BytesAppend(text[..p], line + [NEWLINE]);
      BytesAppend(line, [NEWLINE]);
      assert Bytes([NEWLINE]) == 1 + Bytes([]);
    } else {
      assert lines[n..] == [line];
      BytesAppend(text[..p], line);
    }
  }

  /**
    Half-way through a logical line: `row` holds its clusters from `b` up to `i`, and what is laid so far
    together with the rows still to come, read from `next` on, is `total`.
   */
  ghost predicate Filling(line: seq<Cluster>, base: nat, w: nat, b: nat, i: nat, next: nat, rows: seq<Row>,
                          row: seq<Cluster>, rowStart: nat, used: nat, at: nat, total: seq<Row>)
  {
    && b <= i <= next <= |line|
    && row == line[b..i] && used == Cells(row)
    && at == base + Bytes(line[..i]) && rowStart == base + Bytes(line[..b])
    && rows + LineRows(line, base, w, b, next) == total
  }

  lemma {:induction false} RowBreaks(line: seq<Cluster>, base: nat, w: nat, b: nat, i: nat, rows: seq<Row>,
                                     row: seq<Cluster>, rowStart: nat, used: nat, at: nat, total: seq<Row>)
    requires Filling(line, base, w, b, i, i, rows, row, rowStart, used, at, total) && i < |line|
    requires used + line[i].cells > w && row != []
    ensures Filling(line, base, w, i, i, i + 1, rows + [Row(rowStart, row, false)], [], at, 0, at, total)
  {
    var done := Row(rowStart, row, false);
    assert LineRows(line, base, w, b, i) == [done] + LineRows(line, base, w, i, i + 1);
    assert rows + [done] + LineRows(line, base, w, i, i + 1) == total;
  }

  lemma {:induction false} RowGrows(line: seq<Cluster>, base: nat, w: nat, b: nat, i: nat, rows: seq<Row>,
                                    row: seq<Cluster>, rowStart: nat, used: nat, at: nat, total: seq<Row>)
    requires Filling(line, base, w, b, i, i, rows, row, rowStart, used, at, total) && i < |line|
    requires used + line[i].cells <= w || row == []
    ensures Filling(line, base, w, b, i, i + 1, rows, row, rowStart, used, at, total)
  {
    assert row == [] ==> b == i;
    assert LineRows(line, base, w, b, i) == LineRows(line, base, w, b, i + 1);
  }

  /** Before cluster `i` goes in, the row is kept or broken; the caret stays where it was drawn. */
  lemma {:induction false} ClusterComes(line: seq<Cluster>, base: nat, w: nat, b: nat, i: nat, rows: seq<Row>,
                                        row: seq<Cluster>, rowStart: nat, used: nat, at: nat, total: seq<Row>,
                                        r: nat, c: nat, byte: nat)
    requires i < |line| && Filling(line, base, w, b, i, i, rows, row, rowStart, used, at, total)
    requires byte < at ==> Located(rows + [Row(rowStart, row, false)], r, c, byte)
    ensures used + line[i].cells > w && row != [] ==>
              && Filling(line, base, w, i, i, i + 1, rows + [Row(rowStart, row, false)], [], at, 0, at, total)
              && (byte < at ==> Located(rows + [Row(rowStart, row, false)] + [Row(at, [], false)], r, c, byte))
    ensures !(used + line[i].cells > w && row != []) ==>
              Filling(line, base, w, b, i, i + 1, rows, row, rowStart, used, at, total)
  {
    if used + line[i].cells > w && row != [] {
      RowBreaks(line, base, w, b, i, rows, row, rowStart, used, at, total);
      if byte < at {
        LocatedStays(rows + [Row(rowStart, row, false)], Row(at, [], false), r, c, byte);
      }
    } else {
      RowGrows(line, base, w, b, i, rows, row, rowStart, used, at, total);
    }
  }

  lemma {:induction false} ClusterTaken(line: seq<Cluster>, base: nat, w: nat, b: nat, i: nat, rows: seq<Row>,
                                        row: seq<Cluster>, rowStart: nat, used: nat, at: nat, total: seq<Row>,
                                        r: nat, c: nat, byte: nat)
    requires i < |line| && Filling(line, base, w, b, i, i + 1, rows, row, rowStart, used, at, total)
    requires byte < at ==> Located(rows + [Row(rowStart, row, false)], r, c, byte)
    requires byte == at ==> r == |rows| && c == used
    ensures byte <= at ==> Located(rows + [Row(rowStart, row + [line[i]], false)], r, c, byte)
    ensures Filling(line, base, w, b, i + 1, i + 1, rows, row + [line[i]], rowStart, used + line[i].cells,
                    at + line[i].size, total)
  {
    CaretAtCluster(line, base, w, b, i, rows, row, rowStart, used, at, total, r, c, byte);
    assert line[b..i + 1] == line[b..i] + [line[i]];
    CellsSnoc(line[b..i], line[i]);
    BytesSnoc(line, i);
  }

  /** The last row of a line takes the caret if it is at the line's end, and keeps it if it came before. */
  lemma {:induction false} LineEnds(line: seq<Cluster>, base: nat, w: nat, b: nat, rows: seq<Row>, row: seq<Cluster>,
                                    rowStart: nat, used: nat, at: nat, total: seq<Row>, r: nat, c: nat, byte: nat)
    requires Filling(line, base, w, b, |line|, |line|, rows, row, rowStart, used, at, total)
    requires byte < at ==> Located(rows + [Row(rowStart, row, false)], r, c, byte)
    ensures rows + [Row(rowStart, row, true)] == total && at == base + Bytes(line)
    ensures byte <= at ==>
              Located(total, if byte == at then |rows| else r, if byte == at then used else c, byte)
  {
    assert line[..|line|] == line && line[b..] == row;
    if byte < at {
      LocatedWhenEnded(rows, rowStart, row, r, c, byte);
    } else if byte == at {
      assert line == line[..b] + row;
      BytesAppend(line[..b], row);
      assert total[|rows|] == Row(rowStart, row, true) && row[..|row|] == row;
      assert CaretBefore(total, |rows|, |row|, byte);
    }
  }

  lemma {:induction false} LocatedStays(rows: seq<Row>, next: Row, r: nat, c: nat, byte: nat)
    requires Located(rows, r, c, byte)
    ensures Located(rows + [next], r, c, byte)
  {
    var k: nat :| CaretBefore(rows, r, k, byte) && c == Cells(rows[r].text[..k]);
    assert (rows + [next])[r] == rows[r];
    assert CaretBefore(rows + [next], r, k, byte);
  }

  lemma {:induction false} LocatedWhenEnded(rows: seq<Row>, start: nat, row: seq<Cluster>, r: nat, c: nat, byte: nat)
    requires Located(rows + [Row(start, row, false)], r, c, byte)
    ensures Located(rows + [Row(start, row, true)], r, c, byte)
  {
    var filling, ended := rows + [Row(start, row, false)], rows + [Row(start, row, true)];
    var k: nat :| CaretBefore(filling, r, k, byte) && c == Cells(filling[r].text[..k]);
    assert ended[r].text == filling[r].text && ended[r].start == filling[r].start;
    assert CaretBefore(ended, r, k, byte);
  }

  /** Adding a cluster keeps the caret where it was drawn, and draws it before that cluster if it belongs there. */
  lemma {:induction false} CaretAtCluster(line: seq<Cluster>, base: nat, w: nat, b: nat, i: nat, rows: seq<Row>,
                                          row: seq<Cluster>, rowStart: nat, used: nat, at: nat, total: seq<Row>,
                                          r: nat, c: nat, byte: nat)
    requires i < |line| && Filling(line, base, w, b, i, i + 1, rows, row, rowStart, used, at, total)
    requires byte < at ==> Located(rows + [Row(rowStart, row, false)], r, c, byte)
    requires byte == at ==> r == |rows| && c == used
    ensures byte <= at ==> Located(rows + [Row(rowStart, row + [line[i]], false)], r, c, byte)
  {
    var shorter, longer := rows + [Row(rowStart, row, false)], rows + [Row(rowStart, row + [line[i]], false)];
    if byte < at {
      var k: nat :| CaretBefore(shorter, r, k, byte) && c == Cells(shorter[r].text[..k]);
      assert longer[r].text[..k] == shorter[r].text[..k] && longer[r].start == shorter[r].start;
      assert CaretBefore(longer, r, k, byte);
    } else if byte == at {
      assert line[..i] == line[..b] + row;
      BytesAppend(line[..b], row);
      assert longer[r].text[..|row|] == row;
      assert CaretBefore(longer, r, |row|, byte);
    }
  }

  lemma {:induction false} BoundaryWithinLine(text: seq<Cluster>, p: nat, line: seq<Cluster>, base: nat, i: nat,
                                              byte: nat)
    requires p + |line| <= |text| && text[p..p + |line|] == line && base == Bytes(text[..p])
    requires i < |line| && IsBoundary(text, byte)
    ensures byte <= base + Bytes(line[..i]) || byte >= base + Bytes(line[..i]) + line[i].size
  {
    assert text[..p + i] == text[..p] + line[..i];
    BytesAppend(text[..p], line[..i]);
    assert text[p + i] == text[p..p + |line|][i];
    BytesSnoc(text, p + i);
    NoBoundaryInside(text, p + i, byte);
  }

  lemma {:induction false} StopIsLocated(text: seq<Cluster>, width: nat, r: nat, column: nat, byte: nat)
    requires r < |RowsOf(text, width)|
    requires var row := RowsOf(text, width)[r];
             byte == row.start + Bytes(row.text[..StopAt(row, column, 0)])
    ensures var row := RowsOf(text, width)[r];
            Located(RowsOf(text, width), r, Cells(row.text[..StopAt(row, column, 0)]), byte)
    ensures IsBoundary(text, byte)
  {
    var rows := RowsOf(text, width);
    var stop := StopAt(rows[r], column, 0);
    SoftRowsHoldText(text, width, r);
    if rows[r].text != [] {
      StopBeforeSoftEnd(rows[r], column, 0);
    }
    assert CaretBefore(rows, r, stop, byte);
    CaretOnBoundary(text, width, r, stop, byte);
  }

  lemma {:induction false} StopBeforeSoftEnd(row: Row, column: nat, k: nat)
    requires k <= |row.text| && row.text != []
    ensures StopAt(row, column, k) < |row.text| || row.hardEnd
    decreases |row.text| - k
  {
    if k < |row.text| && Cells(row.text[..k]) < column {
      StopBeforeSoftEnd(row, column, k + 1);
    }
  }

  lemma {:induction false} SoftRowsHoldText(text: seq<Cluster>, width: nat, r: nat)
    requires r < |RowsOf(text, width)|
    ensures RowsOf(text, width)[r].text != [] || RowsOf(text, width)[r].hardEnd
  {
    LinesSoftRows(Split(text, NEWLINE), 0, AtLeastOne(width), r);
  }

  lemma {:induction false} LinesSoftRows(lines: seq<seq<Cluster>>, base: nat, width: nat, r: nat)
    requires r < |LinesRows(lines, base, width)|
    ensures LinesRows(lines, base, width)[r].text != [] || LinesRows(lines, base, width)[r].hardEnd
    decreases |lines|
  {
    var first := LineRows(lines[0], base, width, 0, 0);
    if r < |first| {
      LineSoftRows(lines[0], base, width, 0, 0, r);
    } else {
      LinesSoftRows(lines[1..], base + Bytes(lines[0]) + 1, width, r - |first|);
    }
  }

  lemma {:induction false} LineSoftRows(line: seq<Cluster>, base: nat, width: nat, b: nat, i: nat, r: nat)
    requires b <= i <= |line| && r < |LineRows(line, base, width, b, i)|
    ensures LineRows(line, base, width, b, i)[r].text != [] || LineRows(line, base, width, b, i)[r].hardEnd
    decreases |line| - i
  {
    if i < |line| {
      if Cells(line[b..i]) + line[i].cells > width && b < i {
        if r > 0 {
          LineSoftRows(line, base, width, i, i + 1, r - 1);
        }
      } else {
        LineSoftRows(line, base, width, b, i + 1, r);
      }
    }
  }

  /**
    Laying the text out again after a move puts the caret exactly one visual row over whenever there is
    such a row, and in the same place otherwise: at every width, soft boundaries, empty lines and wide
    clusters included.
   */
  lemma {:induction false} OneRowOver(text: seq<Cluster>, width: nat, before: nat, after: nat, step: int,
                                      row: nat, column: nat, newRow: nat, newColumn: nat)
    requires step == 1 || step == -1
    requires MovedTo(text, width, before, after, step)
    requires Located(RowsOf(text, width), row, column, before)
    requires Located(RowsOf(text, width), newRow, newColumn, after)
    ensures 0 <= row + step < |RowsOf(text, width)| ==> newRow == row + step
    ensures !(0 <= row + step < |RowsOf(text, width)|) ==> newRow == row && newColumn == column && after == before
    ensures newRow != row ==>
              var target := RowsOf(text, width)[newRow];
              newColumn == Cells(target.text[..StopAt(target, column, 0)])
  {
    var rows := RowsOf(text, width);
    LinesRowsChained(Split(text, NEWLINE), 0, AtLeastOne(width));
    var r: nat, c: nat :|
      (Still(rows, r, c, before, step) && after == before) || Stepped(rows, r, c, before, after, step);
    LocatedOnce(rows, r, c, row, column, before);
    if Stepped(rows, r, c, before, after, step) {
      SteppedLands(rows, row, column, before, after, step, newRow, newColumn);
    } else {
      LocatedOnce(rows, row, column, newRow, newColumn, before);
    }
  }

  lemma {:induction false} SteppedLands(rows: seq<Row>, row: nat, column: nat, before: nat, after: nat, step: int,
                                        newRow: nat, newColumn: nat)
    requires Chained(rows) && Stepped(rows, row, column, before, after, step)
    requires Located(rows, newRow, newColumn, after)
    ensures 0 <= row + step < |rows| && newRow == row + step
    ensures newColumn == Cells(rows[newRow].text[..StopAt(rows[newRow], column, 0)])
  {
    var target := rows[row + step];
    LocatedOnce(rows, row + step, Cells(target.text[..StopAt(target, column, 0)]), newRow, newColumn, after);
  }
}
