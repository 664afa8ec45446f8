// What lines of words look like: indent, words kept whole or broken up, spaces between
// (pkgs/clients/tui/src/wrap.rs).
module Typeset {
  import opened Clusters
  import opened Sequences

  /** A word kept whole, or the first or a later part of a word that was broken up. */
  datatype Kind = Whole | Head | Rest

  datatype Piece = Piece(text: Line, kind: Kind)

  /** One space, once anything is shown on the line. */
  function Gap(before: Line): Line {
    if Cells(before) > 0 then [SPACE] else []
  }

  function Spaced(pieces: seq<Piece>): Line {
    if pieces == [] then []
    else
      var before := Spaced(pieces[..|pieces| - 1]);
      before + Gap(before) + pieces[|pieces| - 1].text
  }

  /**
    The line `before` shows something, and had no room for a space and the whole word, or for the next cluster
    of a broken one.
   */
  ghost predicate HadNoRoom(before: Line, p: Piece, indent: Line, max: nat) {
    && Cells(before) > Cells(indent)
    && match p.kind
       case Whole => Cells(before) + 1 + Cells(p.text) > max
       case Head => true
       case Rest => p.text != [] && Cells(before) + p.text[0].cells > max
  }

  /** A whole word fits where it is, a broken one begins where nothing is shown yet and goes on at a line's start. */
  ghost predicate SitsAt(line: seq<Piece>, j: nat, indent: Line, max: nat) {
    j < |line| ==>
      match line[j].kind
      case Whole => Cells(indent) + Cells(Spaced(line[..j + 1])) <= max
      case Head => Cells(Spaced(line[..j])) == 0
      case Rest => j == 0
  }

  ghost predicate SitsWell(line: seq<Piece>, indent: Line, max: nat) {
    forall j: nat :: SitsAt(line, j, indent, max)
  }

  ghost predicate IsTypesetAt(lines: seq<Line>, pieces: seq<seq<Piece>>, i: nat, indent: Line, max: nat)
    requires |pieces| == |lines|
  {
    && (i < |lines| ==> lines[i] == indent + Spaced(pieces[i]) && SitsWell(pieces[i], indent, max))
    && (0 < i < |lines| && pieces[i] != [] ==> HadNoRoom(lines[i - 1], pieces[i][0], indent, max))
  }

  ghost predicate IsTypeset(lines: seq<Line>, pieces: seq<seq<Piece>>, indent: Line, max: nat) {
    |pieces| == |lines| && forall i: nat :: IsTypesetAt(lines, pieces, i, indent, max)
  }

  /** No line but the first is blank. */
  ghost predicate Solid(pieces: seq<seq<Piece>>, to: int) {
    forall i :: 0 < i < to && i < |pieces| ==> pieces[i] != []
  }

  function Texts(pieces: seq<Piece>): Line {
    if pieces == [] then [] else Texts(pieces[..|pieces| - 1]) + pieces[|pieces| - 1].text
  }

  ghost predicate AreParts(parts: seq<Piece>) {
    forall i :: 0 <= i < |parts| ==> parts[i].kind == if i == 0 then Head else Rest
  }

  /** A word that fits the room stays whole; a wider one is broken up. */
  ghost predicate IsWord(group: seq<Piece>, word: Line, room: int) {
    if Cells(word) <= room then group == [Piece(word, Whole)]
    else group != [] && Texts(group) == word && AreParts(group)
  }

  ghost predicate AreWords(groups: seq<seq<Piece>>, words: seq<Line>, room: int) {
    |groups| == |words| && forall i :: 0 <= i < |words| ==> IsWord(groups[i], words[i], room)
  }

  /**
    The lines hold the words in order, each line after the indent, the words of a line a space apart. A word
    that fits the room stays whole and moves to a new line only if it must; a wider one begins where nothing
    is shown yet and is broken only where a line is full.
   */
  ghost predicate HoldsWords(lines: seq<Line>, words: seq<Line>, indent: Line, max: nat) {
    exists pieces: seq<seq<Piece>>, groups: seq<seq<Piece>> ::
      && IsTypeset(lines, pieces, indent, max) && Solid(pieces, |pieces|)
      && AreWords(groups, words, max - Cells(indent)) && Concat(pieces) == Concat(groups)
  }

  // ----- one more line, one more piece -----

  lemma {:induction false} BlankLine(indent: Line, max: nat)
    ensures IsTypeset([] + [indent], [[]], indent, max)
    ensures Concat<Piece>([[]]) == Concat<Piece>([])
  {
    forall i: nat ensures IsTypesetAt([] + [indent], [[]], i, indent, max) {
      assert indent + Spaced([]) == indent;
    }
    var none: seq<seq<Piece>> := [];
    ConcatSnoc(none, []);
    assert none + [[]] == [[]];
  }

  lemma {:induction false} OneMoreWord(groups: seq<seq<Piece>>, words: seq<Line>, i: nat, group: seq<Piece>, room: int)
    requires i < |words| && AreWords(groups, words[..i], room) && IsWord(group, words[i], room)
    ensures AreWords(groups + [group], words[..i + 1], room)
    ensures Concat(groups + [group]) == Concat(groups) + group
  {
    ConcatSnoc(groups, group);
    var all, first := groups + [group], words[..i + 1];
    forall k | 0 <= k < |all| ensures IsWord(all[k], first[k], room) {
      if k < i {
        assert all[k] == groups[k] && first[k] == words[..i][k];
      }
    }
  }

  lemma {:induction false} OneMoreLine(lines: seq<Line>, pieces: seq<seq<Piece>>, indent: Line, max: nat)
    requires IsTypeset(lines, pieces, indent, max)
    ensures IsTypeset(lines + [indent], pieces + [[]], indent, max)
    ensures Concat(pieces + [[]]) == Concat(pieces)
  {
    var more, all := lines + [indent], pieces + [[]];
    forall i: nat ensures IsTypesetAt(more, all, i, indent, max) {
      if i < |lines| {
        assert IsTypesetAt(lines, pieces, i, indent, max);
      } else if i == |lines| {
        assert more[i] == indent + Spaced(all[i]);
      }
    }
    ConcatSnoc(pieces, []);
  }

  /** Replacing the last line and its pieces. */
  lemma {:induction false} LastLineChanges(lines: seq<Line>, current: Line, next: Line, pieces: seq<seq<Piece>>,
                                           last: seq<Piece>, indent: Line, max: nat)
    requires |pieces| == |lines| + 1 && IsTypeset(lines + [current], pieces, indent, max)
    requires next == indent + Spaced(last) && SitsWell(last, indent, max)
    requires lines != [] && last != [] ==> HadNoRoom(lines[|lines| - 1], last[0], indent, max)
    ensures IsTypeset(lines + [next], pieces[..|lines|] + [last], indent, max)
  {
    var was, now, all := lines + [current], lines + [next], pieces[..|lines|] + [last];
    forall i: nat ensures IsTypesetAt(now, all, i, indent, max) {
      if i < |lines| {
        assert IsTypesetAt(was, pieces, i, indent, max);
      }
    }
  }

  lemma {:induction false} LastLine(lines: seq<Line>, current: Line, pieces: seq<seq<Piece>>, indent: Line, max: nat)
    requires IsTypeset(lines + [current], pieces, indent, max)
    ensures |pieces| == |lines| + 1
    ensures current == indent + Spaced(pieces[|lines|]) && SitsWell(pieces[|lines|], indent, max)
    ensures lines != [] && pieces[|lines|] != [] ==> HadNoRoom(lines[|lines| - 1], pieces[|lines|][0], indent, max)
  {
    var all := lines + [current];
    assert IsTypesetAt(all, pieces, |lines|, indent, max);
    assert all[|lines|] == current && (lines != [] ==> all[|lines| - 1] == lines[|lines| - 1]);
  }

  /** Pieces that all show something are a space apart. */
  lemma {:induction false} SpacedIsJoined(pieces: seq<Piece>)
    requires forall i :: 0 <= i < |pieces| ==> Cells(pieces[i].text) > 0
    ensures Spaced(pieces) == Join(seq(|pieces|, i requires 0 <= i < |pieces| => pieces[i].text), SPACE)
    ensures pieces != [] ==> Cells(Spaced(pieces)) > 0
  {
    if pieces != [] {
      var n := |pieces| - 1;
      var front, last := pieces[..n], pieces[n].text;
      SpacedIsJoined(front);
      var before := seq(n, i requires 0 <= i < n => front[i].text);
      assert seq(|pieces|, i requires 0 <= i < |pieces| => pieces[i].text) == before + [last];
      CellsAppend(Spaced(front) + Gap(Spaced(front)), last);
      if n > 0 {
        JoinSnoc(before, last, SPACE);
      }
    }
  }

  /** `p` may come next on the last line. */
  ghost predicate MayFollow(lines: seq<Line>, pieces: seq<seq<Piece>>, p: Piece, indent: Line, max: nat) {
    pieces != [] ==>
      if pieces[|pieces| - 1] != [] then p.kind != Rest
      else lines != [] ==> HadNoRoom(lines[|lines| - 1], p, indent, max)
  }

  /** `p` may come next after `current` and the gap, if that is not at the start of the line or `p` goes no further. */
  ghost predicate FitsOn(current: Line, gap: Line, p: Piece, indent: Line, max: nat) {
    match p.kind
    case Whole => Cells(current + gap + p.text) <= max
    case Head => Cells(current) == Cells(indent)
    case Rest => true
  }

  function WithPiece(pieces: seq<seq<Piece>>, p: Piece): seq<seq<Piece>>
    requires pieces != []
  {
    pieces[..|pieces| - 1] + [pieces[|pieces| - 1] + [p]]
  }

  lemma {:induction false} OneMorePiece(lines: seq<Line>, current: Line, pieces: seq<seq<Piece>>, p: Piece,
                                        gap: Line, indent: Line, max: nat)
    requires IsTypeset(lines + [current], pieces, indent, max) && MayFollow(lines, pieces, p, indent, max)
    requires FitsOn(current, gap, p, indent, max)
    requires gap == if Cells(current) > Cells(indent) then [SPACE] else []
    ensures IsTypeset(lines + [current + gap + p.text], WithPiece(pieces, p), indent, max)
    ensures Concat(WithPiece(pieces, p)) == Concat(pieces) + [p]
  {
    var n := |lines|;
    var last := pieces[n];
    LastLine(lines, current, pieces, indent, max);
    SpacedSnoc(last, p, indent, current, gap);
    OneMoreSits(last, p, indent, current, gap, max);
    assert (last + [p])[0] == if last == [] then p else last[0];
    LastLineChanges(lines, current, current + gap + p.text, pieces, last + [p], indent, max);
    ConcatGrows(pieces[..n], last, p);
    assert pieces == pieces[..n] + [last];
  }

  lemma {:induction false} ConcatGrows(front: seq<seq<Piece>>, last: seq<Piece>, p: Piece)
    ensures Concat(front + [last + [p]]) == Concat(front + [last]) + [p]
  {
    ConcatSnoc(front, last);
    ConcatSnoc(front, last + [p]);
    assert Concat(front) + (last + [p]) == Concat(front) + last + [p];
  }

  lemma {:induction false} OneMoreSits(last: seq<Piece>, p: Piece, indent: Line, current: Line, gap: Line, max: nat)
    requires SitsWell(last, indent, max) && current == indent + Spaced(last)
    requires current + gap + p.text == indent + Spaced(last + [p])
    requires FitsOn(current, gap, p, indent, max) && (p.kind == Rest ==> last == [])
    ensures SitsWell(last + [p], indent, max)
  {
    LastSits(last, p, indent, current, gap, max);
    forall j: nat ensures SitsAt(last + [p], j, indent, max) {
      if j < |last| {
        assert SitsAt(last, j, indent, max);
        SamePrefix(last, p, j);
      }
    }
  }

  lemma {:induction false} LastSits(last: seq<Piece>, p: Piece, indent: Line, current: Line, gap: Line, max: nat)
    requires current == indent + Spaced(last) && current + gap + p.text == indent + Spaced(last + [p])
    requires FitsOn(current, gap, p, indent, max) && (p.kind == Rest ==> last == [])
    ensures SitsAt(last + [p], |last|, indent, max)
  {
    var more := last + [p];
    CellsAppend(indent, Spaced(last));
    CellsAppend(indent, Spaced(more));
    assert more[..|last|] == last && more[..|last| + 1] == more;
  }

  lemma {:induction false} SamePrefix(last: seq<Piece>, p: Piece, j: nat)
    requires j < |last|
    ensures (last + [p])[..j] == last[..j] && (last + [p])[..j + 1] == last[..j + 1] && (last + [p])[j] == last[j]
  {
  }

  lemma {:induction false} SpacedSnoc(last: seq<Piece>, p: Piece, indent: Line, current: Line, gap: Line)
    requires current == indent + Spaced(last)
    requires gap == if Cells(current) > Cells(indent) then [SPACE] else []
    ensures current + gap + p.text == indent + Spaced(last + [p])
  {
    CellsAppend(indent, Spaced(last));
    assert (last + [p])[..|last|] == last;
    var before := Spaced(last);
    assert Spaced(last + [p]) == before + gap + p.text;
    Regroup(indent, before, gap, p.text);
  }

  lemma {:induction false} Regroup(a: Line, b: Line, c: Line, d: Line)
    ensures a + (b + c + d) == a + b + c + d
  {
  }

  /** A word goes whole on the last line. */
  lemma {:induction false} WordStays(lines: seq<Line>, current: Line, pieces: seq<seq<Piece>>, word: Line,
                                     gap: Line, indent: Line, max: nat)
      returns (all: seq<seq<Piece>>, group: seq<Piece>)
    requires IsTypeset(lines + [current], pieces, indent, max) && Solid(pieces, |pieces| - 1)
    requires MayFollow(lines, pieces, Piece(word, Whole), indent, max) && Cells(word) <= max - Cells(indent)
    requires Cells(current + gap + word) <= max
    requires gap == if Cells(current) > Cells(indent) then [SPACE] else []
    ensures IsTypeset(lines + [current + gap + word], all, indent, max) && Solid(all, |all|)
    ensures Concat(all) == Concat(pieces) + group && IsWord(group, word, max - Cells(indent))
  {
    var p := Piece(word, Whole);
    OneMorePiece(lines, current, pieces, p, gap, indent, max);
    all, group := WithPiece(pieces, p), [p];
  }

  // ----- breaking a word up -----

  /** Half-way through a word: what came before it, and its parts so far, the last of which ends the last line. */
  ghost predicate Breaking(lines: seq<Line>, current: Line, pieces: seq<seq<Piece>>, before: seq<Piece>,
                           parts: seq<Piece>, done: Line, indent: Line, max: nat)
  {
    && IsTypeset(lines + [current], pieces, indent, max) && Solid(pieces, |pieces| - 1)
    && Concat(pieces) == before + parts
    && Texts(parts) == done && AreParts(parts)
  }

  /** The last line ends with the last part. */
  ghost predicate EndsLine(pieces: seq<seq<Piece>>, parts: seq<Piece>) {
    && pieces != [] && parts != [] && pieces[|pieces| - 1] != []
    && var last := pieces[|pieces| - 1];
       last[|last| - 1] == parts[|parts| - 1]
  }

  lemma {:induction false} PartBegins(lines: seq<Line>, current: Line, pieces: seq<seq<Piece>>, before: seq<Piece>,
                                      parts: seq<Piece>, done: Line, c: Cluster, indent: Line, max: nat)
      returns (all: seq<seq<Piece>>, more: seq<Piece>)
    requires Breaking(lines, current, pieces, before, parts, done, indent, max) && Cells(current) == Cells(indent)
    requires MayFollow(lines, pieces, Piece([c], if parts == [] then Head else Rest), indent, max)
    ensures Breaking(lines, current + [c], all, before, more, done + [c], indent, max) && EndsLine(all, more)
  {
    var p := Piece([c], if parts == [] then Head else Rest);
    all, more := WithPiece(pieces, p), parts + [p];
    OneMorePiece(lines, current, pieces, p, [], indent, max);
    assert current + [] + [c] == current + [c];
    assert (parts + [p])[..|parts|] == parts;
    assert before + (parts + [p]) == before + parts + [p];
  }

  /** The last piece of the last line is replaced. */
  function Swapped(pieces: seq<seq<Piece>>, p: Piece): seq<seq<Piece>>
    requires pieces != [] && pieces[|pieces| - 1] != []
  {
    var n := |pieces| - 1;
    pieces[..n] + [pieces[n][..|pieces[n]| - 1] + [p]]
  }

  /** The next cluster of a word goes on a new line, because the last one is full. */
  lemma {:induction false} PartMovesOn(lines: seq<Line>, current: Line, pieces: seq<seq<Piece>>, before: seq<Piece>,
                                       parts: seq<Piece>, done: Line, c: Cluster, indent: Line, max: nat)
      returns (all: seq<seq<Piece>>, more: seq<Piece>)
    requires Breaking(lines, current, pieces, before, parts, done, indent, max) && EndsLine(pieces, parts)
    requires Cells(current) + c.cells > max && Cells(current) > Cells(indent)
    ensures Breaking(lines + [current], indent + [c], all, before, more, done + [c], indent, max)
    ensures EndsLine(all, more)
  {
    OneMoreLine(lines + [current], pieces, indent, max);
    all, more := PartBegins(lines + [current], indent, pieces + [[]], before, parts, done, c, indent, max);
  }

  function Longer(part: Piece, c: Cluster): Piece {
    Piece(part.text + [c], part.kind)
  }

  /** A longer last part neither moves nor loses its place at the start of the line. */
  lemma {:induction false} StartGrows(rest: seq<Piece>, part: Piece, c: Cluster, indent: Line, max: nat)
    requires SitsWell(rest + [part], indent, max) && part.kind != Whole
    ensures SitsWell(rest + [Longer(part, c)], indent, max)
    ensures forall before :: HadNoRoom(before, (rest + [part])[0], indent, max) ==>
                               HadNoRoom(before, (rest + [Longer(part, c)])[0], indent, max)
  {
    var was, now := rest + [part], rest + [Longer(part, c)];
    forall j: nat ensures SitsAt(now, j, indent, max) {
      assert SitsAt(was, j, indent, max);
      if j < |rest| {
        SamePrefix(rest, part, j);
        SamePrefix(rest, Longer(part, c), j);
      } else {
        assert was[..|rest|] == rest == now[..|rest|];
      }
    }
    if rest != [] {
      assert now[0] == was[0];
    } else {
      assert now[0] == Longer(part, c) && was[0] == part;
    }
  }

  lemma {:induction false} LineGrows(lines: seq<Line>, current: Line, pieces: seq<seq<Piece>>, rest: seq<Piece>,
                                     part: Piece, c: Cluster, indent: Line, max: nat)
    requires IsTypeset(lines + [current], pieces, indent, max)
    requires pieces[|lines|] == rest + [part] && part.kind != Whole
    ensures IsTypeset(lines + [current + [c]], pieces[..|lines|] + [rest + [Longer(part, c)]], indent, max)
  {
    var n, was, now := |lines|, rest + [part], rest + [Longer(part, c)];
    LastLine(lines, current, pieces, indent, max);
    SpacedGrows(rest, part, c, indent, current);
    StartGrows(rest, part, c, indent, max);
    LastLineChanges(lines, current, current + [c], pieces, now, indent, max);
  }

  lemma {:induction false} SwapLast(front: seq<seq<Piece>>, rest: seq<Piece>, p: Piece, q: Piece,
                                    before: seq<Piece>, most: seq<Piece>)
    requires Concat(front + [rest + [p]]) == before + (most + [p])
    ensures Concat(front + [rest + [q]]) == before + (most + [q])
  {
    ConcatSnoc(front, rest + [p]);
    ConcatSnoc(front, rest + [q]);
    var a, b := Concat(front) + rest, before + most;
    assert a + [p] == Concat(front) + (rest + [p]) && a + [q] == Concat(front) + (rest + [q]);
    assert b + [p] == before + (most + [p]) && b + [q] == before + (most + [q]);
    LastSwapped(a, b, p, q);
  }

  lemma {:induction false} SwappedConcat(pieces: seq<seq<Piece>>, before: seq<Piece>, parts: seq<Piece>, q: Piece)
    requires EndsLine(pieces, parts) && Concat(pieces) == before + parts
    ensures Concat(Swapped(pieces, q)) == before + (parts[..|parts| - 1] + [q])
  {
    var n, k := |pieces| - 1, |parts| - 1;
    var front, rest, p, most := pieces[..n], pieces[n][..|pieces[n]| - 1], parts[k], parts[..k];
    assert pieces[n] == rest + [p];
    assert pieces == front + [rest + [p]] && parts == most + [p];
    SwapLast(front, rest, p, q, before, most);
  }

  lemma {:induction false} TextsGrow(parts: seq<Piece>, c: Cluster)
    requires parts != []
    ensures var k := |parts| - 1;
            Texts(parts[..k] + [Longer(parts[k], c)]) == Texts(parts) + [c]
  {
    var k := |parts| - 1;
    var longer := parts[..k] + [Longer(parts[k], c)];
    assert longer[..k] == parts[..k];
    assert Texts(parts[..k]) + (parts[k].text + [c]) == Texts(parts[..k]) + parts[k].text + [c];
  }

  lemma {:induction false} PartGrows(lines: seq<Line>, current: Line, pieces: seq<seq<Piece>>, before: seq<Piece>,
                                     parts: seq<Piece>, done: Line, c: Cluster, indent: Line, max: nat)
      returns (all: seq<seq<Piece>>, longer: seq<Piece>)
    requires Breaking(lines, current, pieces, before, parts, done, indent, max) && EndsLine(pieces, parts)
    ensures Breaking(lines, current + [c], all, before, longer, done + [c], indent, max) && EndsLine(all, longer)
  {
    var k := |parts| - 1;
    var grown := Longer(parts[k], c);
    all, longer := Swapped(pieces, grown), parts[..k] + [grown];
    var last := pieces[|lines|];
    assert last == last[..|last| - 1] + [parts[k]];
    LineGrows(lines, current, pieces, last[..|last| - 1], parts[k], c, indent, max);
    SwappedConcat(pieces, before, parts, grown);
    TextsGrow(parts, c);
  }

  /** A broken word may begin on the last line. */
  ghost predicate MayBegin(lines: seq<Line>, current: Line, pieces: seq<seq<Piece>>, indent: Line, max: nat) {
    Cells(current) == Cells(indent) && MayFollow(lines, pieces, Piece([], Head), indent, max)
  }

  /** The next cluster of a word: it begins the word, moves on to a new line, or stays on this one. */
  lemma {:induction false} NextCluster(lines: seq<Line>, current: Line, pieces: seq<seq<Piece>>, before: seq<Piece>,
                                       parts: seq<Piece>, word: Line, j: nat, moves: bool, indent: Line, max: nat)
      returns (all: seq<seq<Piece>>, more: seq<Piece>)
    requires j < |word| && Breaking(lines, current, pieces, before, parts, word[..j], indent, max)
    requires if j == 0 then parts == [] && MayBegin(lines, current, pieces, indent, max) else EndsLine(pieces, parts)
    requires moves ==> j > 0 && Cells(current) + word[j].cells > max && Cells(current) > Cells(indent)
    ensures Breaking(if moves then lines + [current] else lines, (if moves then indent else current) + [word[j]],
                     all, before, more, word[..j + 1], indent, max)
    ensures EndsLine(all, more)
  {
    assert word[..j + 1] == word[..j] + [word[j]];
    if j == 0 {
      all, more := PartBegins(lines, current, pieces, before, parts, word[..j], word[j], indent, max);
    } else if moves {
      all, more := PartMovesOn(lines, current, pieces, before, parts, word[..j], word[j], indent, max);
    } else {
      all, more := PartGrows(lines, current, pieces, before, parts, word[..j], word[j], indent, max);
    }
  }

  lemma {:induction false} LastSwapped(a: seq<Piece>, b: seq<Piece>, p: Piece, q: Piece)
    requires a + [p] == b + [p]
    ensures a + [q] == b + [q]
  {
    assert a == (a + [p])[..|a|] == b;
  }

  lemma {:induction false} SpacedGrows(rest: seq<Piece>, part: Piece, c: Cluster, indent: Line, current: Line)
    requires current == indent + Spaced(rest + [part])
    ensures current + [c] == indent + Spaced(rest + [Longer(part, c)])
  {
    var front := Spaced(rest) + Gap(Spaced(rest));
    assert (rest + [part])[..|rest|] == rest;
    assert (rest + [Longer(part, c)])[..|rest|] == rest;
    assert Spaced(rest + [Longer(part, c)]) == front + (part.text + [c]);
    assert indent + (front + part.text) + [c] == indent + (front + (part.text + [c]));
  }
}
