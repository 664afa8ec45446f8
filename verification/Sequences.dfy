// Concatenation and splitting of sequences, used by several components.
module Sequences {

  function Concat<T>(parts: seq<seq<T>>): seq<T> {
    if parts == [] then [] else parts[0] + Concat(parts[1..])
  }

  lemma {:induction false} ConcatAppend<T>(a: seq<seq<T>>, b: seq<seq<T>>)
    ensures Concat(a + b) == Concat(a) + Concat(b)
  {
    if a == [] {
      assert a + b == b;
    } else {
      assert (a + b)[1..] == a[1..] + b;
      ConcatAppend(a[1..], b);
    }
  }

  lemma {:induction false} ConcatSnoc<T>(a: seq<seq<T>>, x: seq<T>)
    ensures Concat(a + [x]) == Concat(a) + x
  {
    ConcatAppend(a, [x]);
    assert Concat([x]) == x + Concat([]);
  }

  /** The pieces of `s` between occurrences of `sep`, as Rust's `split` gives them. */
  function Split<T(==)>(s: seq<T>, sep: T): (parts: seq<seq<T>>)
    ensures |parts| >= 1
  {
    if s == [] then [[]]
    else if s[0] == sep then [[]] + Split(s[1..], sep)
    else
      var rest := Split(s[1..], sep);
      [[s[0]] + rest[0]] + rest[1..]
  }

  /** From `from` to `to` no separator, and one, or an end, on either side. */
  ghost predicate IsPart<T>(s: seq<T>, sep: T, from: nat, to: nat) {
    && from <= to <= |s|
    && sep !in s[from..to]
    && (from == 0 || s[from - 1] == sep)
    && (to == |s| || s[to] == sep)
  }

  ghost predicate PartAt<T>(s: seq<T>, sep: T, part: seq<T>, from: nat, to: nat) {
    IsPart(s, sep, from, to) && s[from..to] == part
  }

  lemma {:induction false} FirstSeparator<T>(s: seq<T>, sep: T) returns (i: nat)
    requires sep in s
    ensures i < |s| && s[i] == sep && sep !in s[..i]
    ensures Split(s, sep) == [s[..i]] + Split(s[i + 1..], sep)
  {
    i := 0;
    while s[i] != sep
      invariant i < |s| && sep !in s[..i]
      decreases |s| - i
    {
      assert s == s[..i] + [s[i]] + s[i + 1..];
      i := i + 1;
    }
    assert s == s[..i] + [sep] + s[i + 1..];
    SplitAfterPiece(s[..i], s[i + 1..], sep);
  }

  lemma {:induction false} PartOfRest<T>(s: seq<T>, sep: T, part: seq<T>, i: nat, from: nat, to: nat)
    requires i < |s| && s[i] == sep && from > i
    ensures PartAt(s, sep, part, from, to) <==> to >= from && PartAt(s[i + 1..], sep, part, from - i - 1, to - i - 1)
  {
    if from <= to <= |s| {
      assert s[from..to] == s[i + 1..][from - i - 1..to - i - 1];
    }
  }

  /** Every part stands somewhere between separators, the first one in front and the last one at the end. */
  lemma {:induction false} PartStands<T>(s: seq<T>, sep: T, k: nat) returns (from: nat, to: nat)
    requires k < |Split(s, sep)|
    ensures PartAt(s, sep, Split(s, sep)[k], from, to)
    ensures k == 0 ==> from == 0
    ensures k == |Split(s, sep)| - 1 ==> to == |s|
    decreases |s|
  {
    if sep in s {
      var i := FirstSeparator(s, sep);
      if k == 0 {
        from, to := 0, i;
      } else {
        from, to := PartStands(s[i + 1..], sep, k - 1);
        from, to := from + i + 1, to + i + 1;
        PartOfRest(s, sep, Split(s, sep)[k], i, from, to);
      }
    } else {
      SplitOnePiece(s, sep);
      from, to := 0, |s|;
      assert s[0..|s|] == s;
    }
  }

  lemma {:induction false} FirstPartEnds<T>(s: seq<T>, sep: T, i: nat, from: nat, to: nat)
    requires i < |s| && s[i] == sep && sep !in s[..i]
    requires IsPart(s, sep, from, to) && from <= i
    ensures from == 0 && to == i
  {
    assert forall k :: 0 <= k < i ==> s[..i][k] == s[k];
    assert forall k :: from <= k < to ==> s[from..to][k - from] == s[k];
  }

  lemma {:induction false} StandingIsPart<T>(s: seq<T>, sep: T, part: seq<T>, from: nat, to: nat)
    requires PartAt(s, sep, part, from, to)
    ensures part in Split(s, sep)
    decreases |s|
  {
    if sep in s {
      var i := FirstSeparator(s, sep);
      if from <= i {
        FirstPartEnds(s, sep, i, from, to);
        assert part == s[..i] == Split(s, sep)[0];
      } else {
        PartOfRest(s, sep, part, i, from, to);
        StandingIsPart(s[i + 1..], sep, part, from - i - 1, to - i - 1);
      }
    } else {
      SplitOnePiece(s, sep);
      assert from == 0 && to == |s|;
      assert s[0..|s|] == s;
      assert part == Split(s, sep)[0];
    }
  }

  /** The parts are exactly the stretches from separator to separator. */
  lemma {:induction false} SplitGivesParts<T>(s: seq<T>, sep: T, part: seq<T>)
    ensures part in Split(s, sep) <==> exists from: nat, to: nat :: PartAt(s, sep, part, from, to)
  {
    if part in Split(s, sep) {
      var k: nat :| k < |Split(s, sep)| && Split(s, sep)[k] == part;
      var from, to := PartStands(s, sep, k);
    }
    if from: nat, to: nat :| PartAt(s, sep, part, from, to) {
      StandingIsPart(s, sep, part, from, to);
    }
  }

  /** `parts` with `sep` between neighbours, as Rust's `join` gives it. */
  function Join<T>(parts: seq<seq<T>>, sep: T): seq<T> {
    if parts == [] then []
    else if |parts| == 1 then parts[0]
    else parts[0] + [sep] + Join(parts[1..], sep)
  }

  lemma {:induction false} JoinInvertsSplit<T>(s: seq<T>, sep: T)
    ensures Join(Split(s, sep), sep) == s
  {
    if s != [] {
      JoinInvertsSplit(s[1..], sep);
      var rest := Split(s[1..], sep);
      if s[0] == sep {
        assert Split(s, sep)[1..] == rest;
      } else {
        assert Split(s, sep)[1..] == rest[1..];
      }
    }
  }

  lemma {:induction false} SplitPiecesHaveNoSeparator<T>(s: seq<T>, sep: T)
    ensures forall i :: 0 <= i < |Split(s, sep)| ==> sep !in Split(s, sep)[i]
  {
    if s != [] {
      SplitPiecesHaveNoSeparator(s[1..], sep);
    }
  }

  lemma {:induction false} SplitAfterPiece<T>(piece: seq<T>, rest: seq<T>, sep: T)
    requires sep !in piece
    ensures Split(piece + [sep] + rest, sep) == [piece] + Split(rest, sep)
  {
    var whole := piece + [sep] + rest;
    if piece == [] {
      assert whole[1..] == rest;
    } else {
      assert whole[1..] == piece[1..] + [sep] + rest;
      SplitAfterPiece(piece[1..], rest, sep);
      assert piece == [piece[0]] + piece[1..];
    }
  }

  lemma {:induction false} SplitOnePiece<T>(piece: seq<T>, sep: T)
    requires sep !in piece
    ensures Split(piece, sep) == [piece]
  {
    if piece != [] {
      SplitOnePiece(piece[1..], sep);
      assert piece == [piece[0]] + piece[1..];
    }
  }

  lemma {:induction false} SplitInvertsJoin<T>(parts: seq<seq<T>>, sep: T)
    requires |parts| >= 1
    requires forall i :: 0 <= i < |parts| ==> sep !in parts[i]
    ensures Split(Join(parts, sep), sep) == parts
  {
    if |parts| == 1 {
      SplitOnePiece(parts[0], sep);
    } else {
      SplitInvertsJoin(parts[1..], sep);
      SplitAfterPiece(parts[0], Join(parts[1..], sep), sep);
      assert parts == [parts[0]] + parts[1..];
    }
  }

  lemma {:induction false} JoinSnoc<T>(parts: seq<seq<T>>, last: seq<T>, sep: T)
    requires |parts| >= 1
    ensures Join(parts + [last], sep) == Join(parts, sep) + [sep] + last
  {
    assert (parts + [last])[1..] == parts[1..] + [last];
    if |parts| == 1 {
      assert Join(parts + [last], sep) == parts[0] + [sep] + Join([last], sep);
    } else {
      JoinSnoc(parts[1..], last, sep);
    }
  }

  function Filter<T>(s: seq<T>, keep: T -> bool): seq<T> {
    if s == [] then []
    else if keep(s[0]) then [s[0]] + Filter(s[1..], keep)
    else Filter(s[1..], keep)
  }

  lemma {:induction false} FilterAppend<T>(a: seq<T>, b: seq<T>, keep: T -> bool)
    ensures Filter(a + b, keep) == Filter(a, keep) + Filter(b, keep)
  {
    if a == [] {
      assert a + b == b;
    } else {
      assert (a + b)[1..] == a[1..] + b;
      FilterAppend(a[1..], b, keep);
    }
  }

  lemma {:induction false} FilterKeepsAll<T>(s: seq<T>, keep: T -> bool)
    requires forall i :: 0 <= i < |s| ==> keep(s[i])
    ensures Filter(s, keep) == s
  {
    if s != [] {
      FilterKeepsAll(s[1..], keep);
    }
  }

  lemma {:induction false} FilterKeepsNone<T>(s: seq<T>, keep: T -> bool)
    requires forall i :: 0 <= i < |s| ==> !keep(s[i])
    ensures Filter(s, keep) == []
  {
    if s != [] {
      FilterKeepsNone(s[1..], keep);
    }
  }

  // ----- runs between gaps -----

  /** The pieces of `s` between gaps, as Rust's `split_whitespace` gives them. */
  function Pieces<T>(s: seq<T>, gap: T -> bool): (pieces: seq<seq<T>>)
    ensures forall i :: 0 <= i < |pieces| ==> pieces[i] != []
  {
    if s == [] then []
    else if gap(s[0]) then Pieces(s[1..], gap)
    else
      var rest := Pieces(s[1..], gap);
      if |s| == 1 || gap(s[1]) || rest == [] then [[s[0]]] + rest
      else [[s[0]] + rest[0]] + rest[1..]
  }

  /** From `from` to `to` there is no gap, and there is one, or an end, on either side. */
  ghost predicate IsRun<T>(s: seq<T>, gap: T -> bool, from: nat, to: nat) {
    && from < to <= |s|
    && (forall k :: from <= k < to ==> !gap(s[k]))
    && (from == 0 || gap(s[from - 1]))
    && (to == |s| || gap(s[to]))
  }

  ghost predicate RunAt<T>(s: seq<T>, gap: T -> bool, piece: seq<T>, run: (nat, nat)) {
    IsRun(s, gap, run.0, run.1) && piece == s[run.0..run.1]
  }

  ghost predicate Holds(runs: seq<(nat, nat)>, k: nat) {
    exists i :: 0 <= i < |runs| && runs[i].0 <= k < runs[i].1
  }

  ghost predicate Ordered(runs: seq<(nat, nat)>) {
    forall i, j :: 0 <= i < j < |runs| ==> runs[i].1 <= runs[j].0
  }

  /** The pieces stand at these positions of `s`: maximal runs, in order, and nothing but gaps outside them. */
  ghost predicate RunsAt<T>(s: seq<T>, gap: T -> bool, pieces: seq<seq<T>>, runs: seq<(nat, nat)>) {
    && |runs| == |pieces|
    && (forall i :: 0 <= i < |runs| ==> RunAt(s, gap, pieces[i], runs[i]))
    && Ordered(runs)
    && (forall k :: 0 <= k < |s| && !gap(s[k]) ==> Holds(runs, k))
  }

  /** The pieces are the maximal runs without a gap, in order. */
  ghost predicate AreTheRuns<T>(s: seq<T>, gap: T -> bool, pieces: seq<seq<T>>) {
    exists runs: seq<(nat, nat)> :: RunsAt(s, gap, pieces, runs)
  }

  function Moved(run: (nat, nat)): (nat, nat) {
    (run.0 + 1, run.1 + 1)
  }

  function Shifted(runs: seq<(nat, nat)>): (moved: seq<(nat, nat)>)
    ensures |moved| == |runs|
    ensures forall i :: 0 <= i < |runs| ==> moved[i] == Moved(runs[i])
  {
    seq(|runs|, i requires 0 <= i < |runs| => Moved(runs[i]))
  }

  lemma {:induction false} HeldAfterShift(runs: seq<(nat, nat)>, k: nat)
    requires Holds(runs, k)
    ensures Holds(Shifted(runs), k + 1)
  {
    var i :| 0 <= i < |runs| && runs[i].0 <= k < runs[i].1;
    assert Shifted(runs)[i].0 <= k + 1 < Shifted(runs)[i].1;
  }

  lemma {:induction false} RunMoves<T>(s: seq<T>, gap: T -> bool, piece: seq<T>, run: (nat, nat))
    requires s != [] && RunAt(s[1..], gap, piece, run) && (run.0 > 0 || gap(s[0]))
    ensures RunAt(s, gap, piece, Moved(run))
  {
    forall k | run.0 + 1 <= k < run.1 + 1 ensures !gap(s[k]) {
      assert s[k] == s[1..][k - 1];
    }
  }

  /** A gap in front moves every run by one. */
  lemma {:induction false} GapInFront<T>(s: seq<T>, gap: T -> bool, pieces: seq<seq<T>>, runs: seq<(nat, nat)>)
    requires s != [] && gap(s[0]) && RunsAt(s[1..], gap, pieces, runs)
    ensures RunsAt(s, gap, pieces, Shifted(runs))
  {
    var moved := Shifted(runs);
    forall i | 0 <= i < |moved| ensures RunAt(s, gap, pieces[i], moved[i]) {
      RunMoves(s, gap, pieces[i], runs[i]);
    }
    forall k | 0 <= k < |s| && !gap(s[k]) ensures Holds(moved, k) {
      assert s[1..][k - 1] == s[k];
      HeldAfterShift(runs, k - 1);
    }
  }

  /** The runs after the first, moved by one, behind a first run that ends where it may. */
  lemma {:induction false} RunInFront(first: (nat, nat), runs: seq<(nat, nat)>)
    requires Ordered(runs) && forall i :: 0 <= i < |runs| ==> first.1 <= runs[i].0 + 1
    ensures Ordered([first] + Shifted(runs))
    ensures forall k: nat :: Holds(runs, k) ==> Holds([first] + Shifted(runs), k + 1)
    ensures forall k: nat :: first.0 <= k < first.1 ==> Holds([first] + Shifted(runs), k)
  {
    var all := [first] + Shifted(runs);
    forall i, j | 0 <= i < j < |all| ensures all[i].1 <= all[j].0 {
      assert all[j] == Moved(runs[j - 1]);
      assert i > 0 ==> all[i] == Moved(runs[i - 1]);
    }
    forall k: nat | Holds(runs, k) ensures Holds(all, k + 1) {
      var i :| 0 <= i < |runs| && runs[i].0 <= k < runs[i].1;
      assert all[i + 1].0 <= k + 1 < all[i + 1].1;
    }
    assert all[0] == first;
  }

  lemma {:induction false} FirstStartsFirst(runs: seq<(nat, nat)>, h: nat)
    requires Ordered(runs) && h < |runs| && runs[0].0 < runs[0].1
    ensures runs[0].0 <= runs[h].0
  {
  }

  /** The runs either start past the first element, which is a gap, or with it. */
  lemma {:induction false} WhereRunsStart<T>(s: seq<T>, gap: T -> bool, pieces: seq<seq<T>>, runs: seq<(nat, nat)>)
    requires RunsAt(s, gap, pieces, runs)
    ensures s == [] || gap(s[0]) ==> forall i :: 0 <= i < |runs| ==> runs[i].0 > 0
    ensures s != [] && !gap(s[0]) ==> runs != [] && runs[0].0 == 0
  {
    assert forall i :: 0 <= i < |runs| ==> RunAt(s, gap, pieces[i], runs[i]);
    if s != [] && !gap(s[0]) {
      assert Holds(runs, 0);
      var h :| 0 <= h < |runs| && runs[h].0 <= 0 < runs[h].1;
      assert RunAt(s, gap, pieces[0], runs[0]);
      FirstStartsFirst(runs, h);
    }
  }

  /** A run at the front, and runs of the rest that stay apart from it. */
  lemma {:induction false} Prepended<T>(s: seq<T>, gap: T -> bool, piece: seq<T>, first: (nat, nat),
                                        pieces: seq<seq<T>>, runs: seq<(nat, nat)>)
    requires s != [] && first.0 == 0 && RunAt(s, gap, piece, first)
    requires |runs| == |pieces| && Ordered(runs)
    requires forall i :: 0 <= i < |runs| ==> RunAt(s[1..], gap, pieces[i], runs[i])
    requires forall i :: 0 <= i < |runs| ==> runs[i].0 > 0 && first.1 <= runs[i].0 + 1
    requires forall k :: 0 <= k < |s[1..]| && !gap(s[1..][k]) ==> Holds(runs, k) || k + 1 < first.1
    ensures RunsAt(s, gap, [piece] + pieces, [first] + Shifted(runs))
  {
    RunInFront(first, runs);
    FrontCovers(s, gap, first, runs);
    var all, places := [piece] + pieces, [first] + Shifted(runs);
    forall i | 0 <= i < |places| ensures RunAt(s, gap, all[i], places[i]) {
      if i > 0 {
        RunMoves(s, gap, pieces[i - 1], runs[i - 1]);
      }
    }
  }

  /** An element in front of a gap, or at the end, is a run of its own. */
  lemma {:induction false} AloneInFront<T>(s: seq<T>, gap: T -> bool, pieces: seq<seq<T>>, runs: seq<(nat, nat)>)
    requires s != [] && !gap(s[0]) && (|s| == 1 || gap(s[1])) && RunsAt(s[1..], gap, pieces, runs)
    ensures RunsAt(s, gap, [[s[0]]] + pieces, [(0, 1)] + Shifted(runs))
  {
    WhereRunsStart(s[1..], gap, pieces, runs);
    assert s[0..1] == [s[0]];
    Prepended(s, gap, [s[0]], (0, 1), pieces, runs);
  }

  lemma {:induction false} FrontCovers<T>(s: seq<T>, gap: T -> bool, first: (nat, nat), runs: seq<(nat, nat)>)
    requires s != [] && first.0 == 0 < first.1
    requires forall k :: 0 <= k < |s[1..]| && !gap(s[1..][k]) ==> Holds(runs, k) || k + 1 < first.1
    requires forall k: nat :: Holds(runs, k) ==> Holds([first] + Shifted(runs), k + 1)
    requires forall k: nat :: first.0 <= k < first.1 ==> Holds([first] + Shifted(runs), k)
    ensures forall k :: 0 <= k < |s| && !gap(s[k]) ==> Holds([first] + Shifted(runs), k)
  {
    forall k | 0 <= k < |s| && !gap(s[k]) ensures Holds([first] + Shifted(runs), k) {
      if k > 0 {
        assert s[1..][k - 1] == s[k];
      }
    }
  }

  lemma {:induction false} RunGrows<T>(s: seq<T>, gap: T -> bool, piece: seq<T>, to: nat)
    requires s != [] && !gap(s[0]) && RunAt(s[1..], gap, piece, (0, to))
    ensures RunAt(s, gap, [s[0]] + piece, (0, to + 1))
  {
    forall k | 0 <= k < to + 1 ensures !gap(s[k]) {
      assert k > 0 ==> s[k] == s[1..][k - 1];
    }
    assert s[0..to + 1] == [s[0]] + s[1..][0..to];
  }

  /** Whatever a run holds is in the first one or in one of the others. */
  lemma {:induction false} FirstOrLater(runs: seq<(nat, nat)>, k: nat)
    requires Holds(runs, k)
    ensures runs != [] && (Holds(runs[1..], k) || k < runs[0].1)
  {
    var i :| 0 <= i < |runs| && runs[i].0 <= k < runs[i].1;
    assert i > 0 ==> runs[1..][i - 1] == runs[i];
  }

  /** An element in front of a run joins it. */
  lemma {:induction false} JoinsInFront<T>(s: seq<T>, gap: T -> bool, pieces: seq<seq<T>>, runs: seq<(nat, nat)>)
    requires |s| > 1 && !gap(s[0]) && !gap(s[1]) && RunsAt(s[1..], gap, pieces, runs)
    ensures pieces != []
    ensures RunsAt(s, gap, [[s[0]] + pieces[0]] + pieces[1..], [(0, runs[0].1 + 1)] + Shifted(runs[1..]))
  {
    WhereRunsStart(s[1..], gap, pieces, runs);
    var to, later, others := runs[0].1, runs[1..], pieces[1..];
    assert RunAt(s[1..], gap, pieces[0], (0, to));
    RunGrows(s, gap, pieces[0], to);
    forall i | 0 <= i < |later|
      ensures RunAt(s[1..], gap, others[i], later[i]) && later[i].0 > 0 && to + 1 <= later[i].0 + 1
    {
      assert later[i] == runs[i + 1] && others[i] == pieces[i + 1];
    }
    forall k | 0 <= k < |s[1..]| && !gap(s[1..][k]) ensures Holds(later, k) || k + 1 < to + 1 {
      FirstOrLater(runs, k);
    }
    Prepended(s, gap, [s[0]] + pieces[0], (0, to + 1), others, later);
  }

  lemma {:induction false} PiecesStand<T>(s: seq<T>, gap: T -> bool) returns (runs: seq<(nat, nat)>)
    ensures RunsAt(s, gap, Pieces(s, gap), runs)
  {
    if s == [] {
      runs := [];
    } else {
      var rest := PiecesStand(s[1..], gap);
      if gap(s[0]) {
        runs := Shifted(rest);
        GapInFront(s, gap, Pieces(s[1..], gap), rest);
      } else if |s| == 1 || gap(s[1]) {
        runs := [(0, 1)] + Shifted(rest);
        AloneInFront(s, gap, Pieces(s[1..], gap), rest);
      } else {
        JoinsInFront(s, gap, Pieces(s[1..], gap), rest);
        runs := [(0, rest[0].1 + 1)] + Shifted(rest[1..]);
      }
    }
  }

  /** The pieces are the maximal runs without a gap, each where it stands. */
  lemma {:induction false} PiecesAreTheRuns<T>(s: seq<T>, gap: T -> bool)
    ensures AreTheRuns(s, gap, Pieces(s, gap))
  {
    var runs := PiecesStand(s, gap);
  }
}
