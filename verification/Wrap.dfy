// Wrapping by display cells (pkgs/clients/tui/src/wrap.rs).
module Wrap {
  import opened Clusters
  import opened Sequences
  import opened Typeset

  ghost predicate AllFit(lines: seq<Line>, max: nat) {
    forall i :: 0 <= i < |lines| ==> Cells(lines[i]) <= max
  }

  ghost predicate NoneWider(text: seq<Cluster>, room: int) {
    forall i :: 0 <= i < |text| ==> text[i].cells <= room
  }

  /** Each line but the last could not have taken the first cluster of the next. */
  ghost predicate Greedy(lines: seq<Line>, max: nat) {
    forall k :: 0 < k < |lines| ==> lines[k] != [] && Cells(lines[k - 1] + [lines[k][0]]) > max
  }

  /** A split of `text` into consecutive pieces that fit. */
  ghost predicate FittingSplit(pieces: seq<Line>, text: seq<Cluster>, max: nat) {
    pieces != [] && Concat(pieces) == text && AllFit(pieces, max)
  }

  // ----- greedy lines are the fewest -----

  lemma {:induction false} NoPieceReachesFurther(piece: Line, skipped: Line, first: Line, next: Cluster, tail: Line,
                                                 max: nat)
    requires Cells(piece) <= max
    requires Cells(first + [next]) > max
    requires piece <= skipped + (first + [next] + tail)
    ensures |piece| <= |skipped| + |first|
  {
    if |piece| > |skipped| + |first| {
      var from, to := |skipped|, |skipped| + |first| + 1;
      var all := skipped + (first + [next] + tail);
      assert piece[from..to] == all[from..to] == first + [next];
      CellsOfPart(piece, from, to);
    }
  }

  /** Any fitting split that covers at least what the greedy lines cover has at least as many pieces. */
  lemma {:induction false} GreedyStaysAhead(lines: seq<Line>, skipped: Line, pieces: seq<Line>, max: nat)
    requires lines != [] && pieces != []
    requires Greedy(lines, max) && AllFit(pieces, max)
    requires Concat(pieces) == skipped + Concat(lines)
    ensures |lines| <= |pieces|
    decreases |pieces|
  {
    if |lines| > 1 {
      var rest := pieces[1..];
      assert AllFit(rest, max) && Cells(pieces[0]) <= max;
      var left := FirstPieceStopsShort(lines, skipped, pieces, max);
      assert rest != [];
      if |pieces[0]| <= |skipped| {
        GreedyStaysAhead(lines, left, rest, max);
      } else {
        var others := lines[1..];
        assert Greedy(others, max) by {
          forall j | 0 < j < |others| ensures others[j] != [] && Cells(others[j - 1] + [others[j][0]]) > max {
            assert others[j] == lines[j + 1] && others[j - 1] == lines[j];
          }
        }
        GreedyStaysAhead(others, left, rest, max);
      }
    }
  }

  /** The first piece ends within the skipped text or within the first line; `left` is what it leaves of that. */
  lemma {:induction false} FirstPieceStopsShort(lines: seq<Line>, skipped: Line, pieces: seq<Line>,
                                                max: nat) returns (left: Line)
    requires |lines| > 1 && pieces != []
    requires Greedy(lines, max) && Cells(pieces[0]) <= max
    requires Concat(pieces) == skipped + Concat(lines)
    ensures Concat(pieces[1..]) == left + Concat(if |pieces[0]| <= |skipped| then lines else lines[1..])
    ensures pieces[1..] != []
  {
    var piece, first, others := pieces[0], lines[0], lines[1..];
    assert others[0] == lines[1] && lines[1] != [];
    var next, tail := lines[1][0], lines[1][1..] + Concat(others[1..]);
    assert Concat(others) == [next] + tail;
    assert Concat(lines) == first + [next] + tail;
    NoPieceReachesFurther(piece, skipped, first, next, tail, max);
    var rest := Concat(pieces[1..]);
    assert rest == (skipped + Concat(lines))[|piece|..];
    if |piece| <= |skipped| {
      left := skipped[|piece|..];
      assert rest == left + Concat(lines);
    } else {
      left := first[|piece| - |skipped|..];
      assert rest == left + Concat(others);
    }
    assert rest != [];
  }

  lemma {:induction false} FewestLines(lines: seq<Line>, text: seq<Cluster>, max: nat)
    requires lines != [] && Concat(lines) == text && Greedy(lines, max)
    ensures forall pieces :: FittingSplit(pieces, text, max) ==> |lines| <= |pieces|
  {
    forall pieces | FittingSplit(pieces, text, max) ensures |lines| <= |pieces| {
      assert [] + Concat(lines) == text;
      GreedyStaysAhead(lines, [], pieces, max);
    }
  }

  /** `lines` hold `text`, overflow only if one of its clusters does, and otherwise break only where they must. */
  ghost predicate Broken(lines: seq<Line>, text: seq<Cluster>, max: nat) {
    && Concat(lines) == text
    && (AllFit(lines, max) <==> NoneWider(text, max))
    && (NoneWider(text, max) ==> Greedy(lines, max))
  }

  /** One more cluster, on a line of its own if there is no room and on the last line if there is. */
  lemma {:induction false} OneMoreBroken(text: seq<Cluster>, c: Cluster, lines: seq<Line>, current: Line, max: nat)
    requires Broken(lines + [current], text, max)
    requires current == [] ==> lines == []
    ensures Cells(current) + c.cells > max && Cells(current) > 0 ==> Broken(lines + [current] + [[c]], text + [c], max)
    ensures !(Cells(current) + c.cells > max && Cells(current) > 0) ==>
              Broken(lines + [current + [c]], text + [c], max)
  {
    NoneWiderSnoc(text, c, max);
    if Cells(current) + c.cells > max && Cells(current) > 0 {
      BreakBefore(lines, current, c, max);
    } else {
      GrowLast(lines, current, c, max);
    }
  }

  /**
    Breaks `text` every `max` cells, keeping every cluster. Lines overflow only if a cluster does,
    and then no split has fewer lines.
   */
  method HardWrap(text: seq<Cluster>, max: nat) returns (lines: seq<Line>)
    ensures max == 0 ==> lines == [[]]
    ensures max > 0 ==> lines != [] && Concat(lines) == text
    ensures max > 0 ==> (AllFit(lines, max) <==> NoneWider(text, max))
    ensures max > 0 && NoneWider(text, max) ==>
              forall pieces :: FittingSplit(pieces, text, max) ==> |lines| <= |pieces|
  {
    if max == 0 {
      return [[]];
    }
    lines := [];
    var current: Line := [];
    var used: nat := 0;
    for i := 0 to |text|
      invariant Broken(lines + [current], text[..i], max)
      invariant used == Cells(current)
      invariant current == [] ==> lines == []
    {
      var cluster := text[i];
      CellsSnoc(current, cluster);
      assert text[..i + 1] == text[..i] + [cluster];
      OneMoreBroken(text[..i], cluster, lines, current, max);
      if used + cluster.cells > max && used > 0 {
        lines := lines + [current];
        current := [cluster];
        used := cluster.cells;
      } else {
        current := current + [cluster];
        used := used + cluster.cells;
      }
    }
    lines := lines + [current];
    assert text[..|text|] == text;
    if NoneWider(text, max) {
      FewestLines(lines, text, max);
    }
  }

  lemma {:induction false} NoneWiderSnoc(text: seq<Cluster>, c: Cluster, room: int)
    ensures NoneWider(text + [c], room) <==> NoneWider(text, room) && c.cells <= room
  {
    assert (text + [c])[|text|] == c;
    assert forall i :: 0 <= i < |text| ==> (text + [c])[i] == text[i];
  }

  lemma {:induction false} AllFitSnoc(lines: seq<Line>, last: Line, max: nat)
    ensures AllFit(lines + [last], max) <==> AllFit(lines, max) && Cells(last) <= max
  {
    assert (lines + [last])[|lines|] == last;
    assert forall i :: 0 <= i < |lines| ==> (lines + [last])[i] == lines[i];
  }

  /** Starting a new line with `c`, because the line before has no room for it. */
  lemma {:induction false} BreakBefore(lines: seq<Line>, current: Line, c: Cluster, max: nat)
    requires Cells(current) + c.cells > max && current != []
    ensures Concat(lines + [current] + [[c]]) == Concat(lines + [current]) + [c]
    ensures AllFit(lines + [current] + [[c]], max) <==> AllFit(lines + [current], max) && c.cells <= max
    ensures Greedy(lines + [current], max) ==> Greedy(lines + [current] + [[c]], max)
  {
    ConcatSnoc(lines + [current], [c]);
    AllFitSnoc(lines + [current], [c], max);
    CellsSnoc([], c);
    assert [] + [c] == [c];
    CellsSnoc(current, c);
    var all, more := lines + [current], lines + [current] + [[c]];
    if Greedy(all, max) {
      forall k | 0 < k < |more| ensures more[k] != [] && Cells(more[k - 1] + [more[k][0]]) > max {
        if k < |all| {
          assert more[k] == all[k] && more[k - 1] == all[k - 1];
        } else {
          assert more[k] == [c] && more[k - 1] == current;
        }
      }
    }
  }

  /** Letting the last line take one more cluster. */
  lemma {:induction false} GrowLast(lines: seq<Line>, current: Line, c: Cluster, max: nat)
    requires Cells(current) + c.cells <= max || Cells(current) == 0
    requires current == [] ==> lines == []
    ensures Concat(lines + [current + [c]]) == Concat(lines + [current]) + [c]
    ensures AllFit(lines + [current + [c]], max) <==> AllFit(lines + [current], max) && c.cells <= max
    ensures Greedy(lines + [current], max) ==> Greedy(lines + [current + [c]], max)
  {
    ConcatSnoc(lines, current);
    ConcatSnoc(lines, current + [c]);
    AllFitSnoc(lines, current, max);
    AllFitSnoc(lines, current + [c], max);
    CellsSnoc(current, c);
    var all, more := lines + [current], lines + [current + [c]];
    if Greedy(all, max) {
      forall k | 0 < k < |more| ensures more[k] != [] && Cells(more[k - 1] + [more[k][0]]) > max {
        assert more[k - 1] == all[k - 1];
        assert more[k][0] == all[k][0];
      }
    }
  }

  // ----- wrapping by words -----

  /** The spaces and tabs a text starts with. */
  function LeadingIndent(text: seq<Cluster>): seq<Cluster> {
    if text != [] && text[0].glyph in [" ", "\t"] then [text[0]] + LeadingIndent(text[1..]) else []
  }

  /** The indentation continuation lines keep: the leading one, unless it fills the pane. */
  function EffectiveIndent(text: seq<Cluster>, max: nat): seq<Cluster> {
    var indent := LeadingIndent(text);
    if Cells(indent) >= max then [] else indent
  }

  /** The spaces and tabs a text starts with, unless they leave no room in the pane; then no indentation. */
  ghost predicate IsIndent(text: seq<Cluster>, indent: Line, max: nat) {
    exists k: nat ::
      && k <= |text|
      && (forall i :: 0 <= i < k ==> text[i].glyph == " " || text[i].glyph == "\t")
      && (k < |text| ==> text[k].glyph != " " && text[k].glyph != "\t")
      && indent == if Cells(text[..k]) >= max then [] else text[..k]
  }

  lemma {:induction false} LeadingStops(text: seq<Cluster>)
    ensures var k := |LeadingIndent(text)|;
            && k <= |text| && LeadingIndent(text) == text[..k]
            && (forall i :: 0 <= i < k ==> text[i].glyph == " " || text[i].glyph == "\t")
            && (k < |text| ==> text[k].glyph != " " && text[k].glyph != "\t")
  {
    if text != [] && text[0].glyph in [" ", "\t"] {
      LeadingStops(text[1..]);
      var k := |LeadingIndent(text[1..])|;
      assert text[..k + 1] == [text[0]] + text[1..][..k];
      assert forall i :: 1 <= i < k + 1 ==> text[i] == text[1..][i - 1];
      assert k + 1 < |text| ==> text[1..][k] == text[k + 1];
    }
  }

  lemma {:induction false} EffectiveIndentIs(text: seq<Cluster>, max: nat)
    ensures IsIndent(text, EffectiveIndent(text, max), max)
  {
    LeadingStops(text);
    var k := |LeadingIndent(text)|;
    assert text[..k] == LeadingIndent(text);
  }

  lemma {:induction false} WordsHoldVisible(text: seq<Cluster>)
    ensures Concat(Pieces(text, IsWhite)) == Visible(text)
    ensures text != [] && !text[0].white ==> Pieces(text, IsWhite) != []
  {
    if text != [] {
      WordsHoldVisible(text[1..]);
      var words, rest := Pieces(text, IsWhite), Pieces(text[1..], IsWhite);
      if !text[0].white {
        if |text| > 1 && !text[1].white {
          assert text[1..][0] == text[1];
          assert words[1..] == rest[1..];
        } else {
          assert words[1..] == rest;
        }
      }
    }
  }

  lemma {:induction false} LeadingIndentIsWhite(text: seq<Cluster>)
    ensures Visible(LeadingIndent(text)) == []
  {
    if text != [] && text[0].glyph in [" ", "\t"] {
      LeadingIndentIsWhite(text[1..]);
      assert LeadingIndent(text)[1..] == LeadingIndent(text[1..]);
    }
  }

  predicate AllVisible(word: seq<Cluster>) {
    forall i :: 0 <= i < |word| ==> !word[i].white
  }

  lemma {:induction false} VisibleIsAllVisible(text: seq<Cluster>)
    ensures AllVisible(Visible(text))
  {
    if text != [] {
      VisibleIsAllVisible(text[1..]);
    }
  }

  lemma {:induction false} WordsAreVisible(text: seq<Cluster>)
    ensures forall i :: 0 <= i < |Pieces(text, IsWhite)| ==> AllVisible(Pieces(text, IsWhite)[i])
  {
    if text != [] {
      WordsAreVisible(text[1..]);
    }
  }

  /** The lines laid so far: what they show, their indent, and whether they overflow. */
  ghost predicate Laid(lines: seq<Line>, shown: seq<Cluster>, indent: Line, max: nat) {
    && Visible(Concat(lines)) == shown
    && (forall i :: 0 <= i < |lines| ==> indent <= lines[i])
    && (AllFit(lines, max) <==> NoneWider(shown, max - Cells(indent)))
  }

  lemma {:induction false} NoneWiderAppend(a: seq<Cluster>, b: seq<Cluster>, room: int)
    ensures NoneWider(a + b, room) <==> NoneWider(a, room) && NoneWider(b, room)
  {
    assert forall i :: 0 <= i < |a| ==> (a + b)[i] == a[i];
    assert forall i :: 0 <= i < |b| ==> (a + b)[|a| + i] == b[i];
  }

  lemma {:induction false} VisibleOfLines(lines: seq<Line>, last: Line)
    ensures Visible(Concat(lines + [last])) == Visible(Concat(lines)) + Visible(last)
  {
    ConcatSnoc(lines, last);
    FilterAppend(Concat(lines), last, IsVisible);
  }

  /** A fresh line holds the indent alone and shows nothing. */
  lemma {:induction false} FreshLine(lines: seq<Line>, shown: seq<Cluster>, indent: Line, max: nat)
    requires Visible(indent) == [] && Cells(indent) <= max
    requires lines == [] ==> shown == []
    requires lines != [] ==> Laid(lines, shown, indent, max)
    ensures Laid(lines + [indent], shown, indent, max)
  {
    VisibleOfLines(lines, indent);
    AllFitSnoc(lines, indent, max);
  }

  /** The last line takes a stretch of visible clusters, after a space or not, that fits or stands alone. */
  lemma {:induction false} ExtendLine(lines: seq<Line>, current: Line, gap: Line, piece: Line,
                                      shown: seq<Cluster>, indent: Line, max: nat)
    requires Laid(lines + [current], shown, indent, max) && Cells(indent) <= max && indent <= current
    requires AllVisible(piece) && (gap == [] || gap == [SPACE])
    requires Cells(current + gap + piece) <= max
             || (gap == [] && Cells(current) == Cells(indent) && |piece| == 1)
    ensures Laid(lines + [current + gap + piece], shown + piece, indent, max)
  {
    var longer := current + gap + piece;
    VisibleExtends(lines, current, gap, piece);
    FitExtends(lines, current, gap, piece, indent, max);
    NoneWiderAppend(shown, piece, max - Cells(indent));
    assert (lines + [current])[|lines|] == current;
    assert forall i :: 0 <= i < |lines| ==> (lines + [current])[i] == lines[i];
    assert indent <= current <= longer;
  }

  lemma {:induction false} VisibleExtends(lines: seq<Line>, current: Line, gap: Line, piece: Line)
    requires AllVisible(piece) && (gap == [] || gap == [SPACE])
    ensures Visible(Concat(lines + [current + gap + piece])) == Visible(Concat(lines + [current])) + piece
  {
    VisibleOfLines(lines, current);
    VisibleOfLines(lines, current + gap + piece);
    VisibleOfExtended(current, gap, piece);
  }

  lemma {:induction false} VisibleOfExtended(current: Line, gap: Line, piece: Line)
    requires AllVisible(piece) && (gap == [] || gap == [SPACE])
    ensures Visible(current + gap + piece) == Visible(current) + piece
  {
    FilterAppend(current + gap, piece, IsVisible);
    FilterAppend(current, gap, IsVisible);
    FilterKeepsAll(piece, IsVisible);
    GapIsBlank(gap);
    assert Visible(current) + [] == Visible(current);
  }

  lemma {:induction false} GapIsBlank(gap: Line)
    requires gap == [] || gap == [SPACE]
    ensures Visible(gap) == []
  {
    FilterKeepsNone(gap, IsVisible);
  }

  lemma {:induction false} FitExtends(lines: seq<Line>, current: Line, gap: Line, piece: Line, indent: Line, max: nat)
    requires indent <= current
    requires Cells(current + gap + piece) <= max
             || (gap == [] && Cells(current) == Cells(indent) && |piece| == 1)
    requires Cells(indent) <= max
    ensures AllFit(lines + [current + gap + piece], max)
            <==> AllFit(lines + [current], max) && NoneWider(piece, max - Cells(indent))
  {
    AllFitSnoc(lines, current, max);
    AllFitSnoc(lines, current + gap + piece, max);
    if Cells(current + gap + piece) <= max {
      PieceWithinLine(current, gap, piece, indent, max);
    } else {
      assert piece == [piece[0]];
      CellsSnoc(current, piece[0]);
      assert current + gap + piece == current + [piece[0]];
    }
  }

  lemma {:induction false} PieceWithinLine(current: Line, gap: Line, piece: Line, indent: Line, max: nat)
    requires indent <= current && Cells(current + gap + piece) <= max
    ensures NoneWider(piece, max - Cells(indent))
    ensures Cells(current) <= max
  {
    CellsAppend(current + gap, piece);
    CellsAppend(current, gap);
    CellsOfPart(current, 0, |indent|);
    assert current[0..|indent|] == indent;
    forall i | 0 <= i < |piece| ensures piece[i].cells <= max - Cells(indent) {
      CellsOfPart(piece, i, i + 1);
      assert piece[i..i + 1] == [] + [piece[i]];
      CellsSnoc([], piece[i]);
    }
  }

  /** Extending the last line without a space. */
  lemma {:induction false} ExtendBare(lines: seq<Line>, current: Line, piece: Line,
                                      shown: seq<Cluster>, indent: Line, max: nat)
    requires Laid(lines + [current], shown, indent, max) && Cells(indent) <= max && indent <= current
    requires AllVisible(piece)
    requires Cells(current) + Cells(piece) <= max || (Cells(current) == Cells(indent) && |piece| == 1)
    ensures Laid(lines + [current + piece], shown + piece, indent, max)
    ensures Cells(current + piece) == Cells(current) + Cells(piece) && indent <= current + piece
  {
    CellsAppend(current, piece);
    assert current + [] + piece == current + piece;
    ExtendLine(lines, current, [], piece, shown, indent, max);
  }

  /** The last line takes the next cluster of a word. */
  lemma {:induction false} ClusterLaid(lines: seq<Line>, current: Line, word: Line, j: nat, shown: seq<Cluster>,
                                       indent: Line, max: nat)
    requires j < |word| && AllVisible(word) && Cells(indent) <= max && indent <= current
    requires Laid(lines + [current], shown + word[..j], indent, max)
    requires Cells(current) + word[j].cells <= max || Cells(current) == Cells(indent)
    ensures Laid(lines + [current + [word[j]]], shown + word[..j + 1], indent, max)
    ensures Cells(current + [word[j]]) == Cells(current) + word[j].cells && indent <= current + [word[j]]
  {
    CellsSnoc([], word[j]);
    assert [] + [word[j]] == [word[j]];
    assert shown + word[..j + 1] == shown + word[..j] + [word[j]];
    ExtendBare(lines, current, [word[j]], shown + word[..j], indent, max);
  }

  /**
    Lays a word too wide for any line, cluster by cluster, on a line that shows nothing yet: it goes on
    to a new line only where the next cluster has no room.
   */
  method BreakWord(word: Line, linesSoFar: seq<Line>, lineSoFar: Line, widthSoFar: nat,
                   ghost shown: seq<Cluster>, ghost piecesSoFar: seq<seq<Piece>>, indent: Line, max: nat)
    returns (lines: seq<Line>, current: Line, currentWidth: nat,
             ghost pieces: seq<seq<Piece>>, ghost parts: seq<Piece>)
    requires AllVisible(word) && word != [] && Cells(indent) <= max && Visible(indent) == []
    requires Laid(linesSoFar + [lineSoFar], shown, indent, max)
    requires IsTypeset(linesSoFar + [lineSoFar], piecesSoFar, indent, max) && Solid(piecesSoFar, |piecesSoFar| - 1)
    requires widthSoFar == Cells(lineSoFar) && MayBegin(linesSoFar, lineSoFar, piecesSoFar, indent, max)
    requires indent <= lineSoFar
    ensures Laid(lines + [current], shown + word, indent, max)
    ensures IsTypeset(lines + [current], pieces, indent, max) && Solid(pieces, |pieces|)
    ensures Concat(pieces) == Concat(piecesSoFar) + parts
    ensures parts != [] && Texts(parts) == word && AreParts(parts)
    ensures currentWidth == Cells(current) >= Cells(indent) && indent <= current
  {
    var hanging := Cells(indent);
    lines, current, currentWidth := linesSoFar, lineSoFar, widthSoFar;
    pieces, parts := piecesSoFar, [];
    ghost var before := Concat(pieces);
    assert before + [] == before;
    assert shown + word[..0] == shown;
    for j := 0 to |word|
      invariant Laid(lines + [current], shown + word[..j], indent, max)
      invariant Breaking(lines, current, pieces, before, parts, word[..j], indent, max)
      invariant if j == 0 then parts == [] && MayBegin(lines, current, pieces, indent, max)
                else EndsLine(pieces, parts)
      invariant currentWidth == Cells(current) >= hanging && indent <= current
    {
      var cluster := word[j];
      pieces, parts := NextCluster(lines, current, pieces, before, parts, word, j,
                                   currentWidth + cluster.cells > max && currentWidth > hanging, indent, max);
      if currentWidth + cluster.cells > max && currentWidth > hanging {
        FreshLine(lines + [current], shown + word[..j], indent, max);
        lines := lines + [current];
        current := indent;
        currentWidth := hanging;
      }
      ClusterLaid(lines, current, word, j, shown, indent, max);
      current := current + [cluster];
      currentWidth := currentWidth + cluster.cells;
    }
    assert word[..|word|] == word;
  }

  /** Lays one word: on the line after a space, on a fresh line, or broken up. */
  method LayWord(word: Line, linesSoFar: seq<Line>, lineSoFar: Line, widthSoFar: nat,
                 ghost shown: seq<Cluster>, ghost piecesSoFar: seq<seq<Piece>>, indent: Line, max: nat)
    returns (lines: seq<Line>, current: Line, currentWidth: nat,
             ghost pieces: seq<seq<Piece>>, ghost group: seq<Piece>)
    requires AllVisible(word) && word != [] && Cells(indent) <= max && Visible(indent) == []
    requires Laid(linesSoFar + [lineSoFar], shown, indent, max)
    requires IsTypeset(linesSoFar + [lineSoFar], piecesSoFar, indent, max) && Solid(piecesSoFar, |piecesSoFar|)
    requires widthSoFar == Cells(lineSoFar) >= Cells(indent) && indent <= lineSoFar
    ensures Laid(lines + [current], shown + word, indent, max)
    ensures IsTypeset(lines + [current], pieces, indent, max) && Solid(pieces, |pieces|)
    ensures Concat(pieces) == Concat(piecesSoFar) + group && IsWord(group, word, max - Cells(indent))
    ensures currentWidth == Cells(current) >= Cells(indent) && indent <= current
  {
    var hanging := Cells(indent);
    lines, current, currentWidth := linesSoFar, lineSoFar, widthSoFar;
    pieces := piecesSoFar;
    var wordWidth := Cells(word);
    var space := if currentWidth > hanging then 1 else 0;
    var gap: Line := if space == 1 then [SPACE] else [];
    GapCells(current, gap, word);
    if currentWidth + space + wordWidth <= max {
      ExtendLine(lines, current, gap, word, shown, indent, max);
      pieces, group := WordStays(lines, current, pieces, word, gap, indent, max);
      return lines, current + gap + word, currentWidth + space + wordWidth, pieces, group;
    }
    if currentWidth > hanging {
      FreshLine(lines + [current], shown, indent, max);
      OneMoreLine(lines + [current], pieces, indent, max);
      pieces := pieces + [[]];
      lines := lines + [current];
      current := indent;
      currentWidth := hanging;
    }
    if wordWidth <= max - hanging {
      ExtendBare(lines, current, word, shown, indent, max);
      assert current + [] + word == current + word;
      pieces, group := WordStays(lines, current, pieces, word, [], indent, max);
      return lines, current + word, hanging + wordWidth, pieces, group;
    }
    lines, current, currentWidth, pieces, group :=
      BreakWord(word, lines, current, currentWidth, shown, pieces, indent, max);
  }

  /**
    Wraps `text` to `max` cells. Every line keeps the effective indent, the lines show exactly the
    visible clusters in order, and they fit exactly when no visible cluster is wider than the room.
    A word that fits the room stays whole, and lines end only where the next word or cluster has no room.
   */
  method WrapText(text: seq<Cluster>, max: nat) returns (lines: seq<Line>)
    ensures max == 0 ==> lines == [[]]
    ensures max > 0 ==> Visible(Concat(lines)) == Visible(text) && lines != []
    ensures max > 0 ==> forall i :: 0 <= i < |lines| ==> EffectiveIndent(text, max) <= lines[i]
    ensures max > 0 ==>
              (AllFit(lines, max) <==> NoneWider(Visible(text), max - Cells(EffectiveIndent(text, max))))
    ensures max > 0 ==> IsIndent(text, EffectiveIndent(text, max), max)
    ensures max > 0 ==> HoldsItsWords(lines, text, EffectiveIndent(text, max), max)
  {
    if max == 0 {
      return [[]];
    }
    var indent := EffectiveIndent(text, max);
    LeadingIndentIsWhite(text);
    WordsAreVisible(text);
    EffectiveIndentIs(text, max);
    lines := LayWords(Pieces(text, IsWhite), indent, max);
    WordsHoldVisible(text);
    LaidIsWrapped(lines, text, indent, max);
    PiecesAreTheRuns(text, IsWhite);
  }

  /** The lines of these words, each laid after the one before. */
  method LayWords(words: seq<Line>, indent: Line, max: nat) returns (lines: seq<Line>)
    requires forall i :: 0 <= i < |words| ==> words[i] != [] && AllVisible(words[i])
    requires Cells(indent) <= max && Visible(indent) == []
    ensures lines != [] && Laid(lines, Concat(words), indent, max)
    ensures HoldsWords(lines, words, indent, max)
  {
    var hanging := Cells(indent);
    lines := [];
    var current := indent;
    var currentWidth := hanging;
    FreshLine([], [], indent, max);
    ghost var pieces: seq<seq<Piece>>, groups: seq<seq<Piece>>, group: seq<Piece> := [[]], [], [];
    BlankLine(indent, max);
    for i := 0 to |words|
      invariant Laid(lines + [current], Concat(words[..i]), indent, max)
      invariant IsTypeset(lines + [current], pieces, indent, max) && Solid(pieces, |pieces|)
      invariant AreWords(groups, words[..i], max - hanging) && Concat(pieces) == Concat(groups)
      invariant currentWidth == Cells(current) && currentWidth >= hanging && indent <= current
    {
      ConcatTake(words, i);
      lines, current, currentWidth, pieces, group :=
        LayWord(words[i], lines, current, currentWidth, Concat(words[..i]), pieces, indent, max);
      OneMoreWord(groups, words, i, group, max - hanging);
      groups := groups + [group];
    }
    lines := lines + [current];
    assert words[..|words|] == words;
  }

  /** The lines hold the maximal runs of visible clusters of the text, as its words. */
  ghost predicate HoldsItsWords(lines: seq<Line>, text: seq<Cluster>, indent: Line, max: nat) {
    exists words :: AreTheRuns(text, IsWhite, words) && HoldsWords(lines, words, indent, max)
  }

  lemma {:induction false} ConcatTake(words: seq<Line>, i: nat)
    requires i < |words|
    ensures Concat(words[..i + 1]) == Concat(words[..i]) + words[i]
  {
    assert words[..i + 1] == words[..i] + [words[i]];
    ConcatSnoc(words[..i], words[i]);
  }

  lemma {:induction false} LaidIsWrapped(lines: seq<Line>, text: seq<Cluster>, indent: Line, max: nat)
    requires Laid(lines, Visible(text), indent, max)
    ensures Visible(Concat(lines)) == Visible(text)
    ensures forall i :: 0 <= i < |lines| ==> indent <= lines[i]
    ensures AllFit(lines, max) <==> NoneWider(Visible(text), max - Cells(indent))
  {
  }

  lemma {:induction false} GapCells(current: Line, gap: Line, piece: Line)
    requires gap == [] || gap == [SPACE]
    ensures Cells(current + gap + piece) == Cells(current) + |gap| + Cells(piece)
    ensures |piece| == 1 ==> Cells(piece) == piece[0].cells
  {
    CellsAppend(current + gap, piece);
    CellsAppend(current, gap);
    CellsSnoc([], SPACE);
    assert [] + [SPACE] == [SPACE];
  }
}
