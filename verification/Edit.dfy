// Anchored line edits (pkgs/extensions/tool-edit/src/lib.rs).
module Edit {
  import opened Anchors
  import opened Sequences
  import opened Wrappers

  const NEWLINE: Byte := 10

  type Line = seq<Byte>

  datatype EditError =
    | NoSuchAnchor
    | AmbiguousAnchor(hits: nat)
    | EndBeforeStart
    | NothingToInsert

  predicate EndsWithNewline(content: seq<Byte>) {
    content != [] && content[|content| - 1] == NEWLINE
  }

  /** The lines of a file, and whether it ends with a newline. */
  function LinesOf(content: seq<Byte>): (r: (seq<Line>, bool))
    ensures |r.0| >= 1
  {
    if EndsWithNewline(content) then (Split(content[..|content| - 1], NEWLINE), true)
    else (Split(content, NEWLINE), false)
  }

  function JoinLines(lines: seq<Line>, trailingNewline: bool): seq<Byte> {
    Join(lines, NEWLINE) + if trailingNewline then [NEWLINE] else []
  }

  /** The lines of an edit's text; empty text is no lines. */
  function ContentsLines(contents: seq<Byte>): seq<Line> {
    if contents == [] then []
    else if EndsWithNewline(contents) then Split(contents[..|contents| - 1], NEWLINE)
    else Split(contents, NEWLINE)
  }

  /** The positions from `from` on whose line has this anchor. */
  function Hits(lines: seq<Line>, target: string, from: nat): (hits: seq<nat>)
    requires from <= |lines|
    ensures forall j :: 0 <= j < |hits| ==> hits[j] < |lines|
    decreases |lines| - from
  {
    if from == |lines| then []
    else
      var rest := Hits(lines, target, from + 1);
      if Anchor(from + 1, lines[from]) == target then [from] + rest else rest
  }

  predicate IsHit(lines: seq<Line>, target: string, i: nat) {
    i < |lines| && Anchor(i + 1, lines[i]) == target
  }

  lemma {:induction false} HitsAre(lines: seq<Line>, target: string, from: nat)
    requires from <= |lines|
    ensures forall i: nat :: i in Hits(lines, target, from) <==> from <= i && IsHit(lines, target, i)
    decreases |lines| - from
  {
    if from < |lines| {
      HitsAre(lines, target, from + 1);
      var hits, rest := Hits(lines, target, from), Hits(lines, target, from + 1);
      assert hits == if IsHit(lines, target, from) then [from] + rest else rest;
      forall i: nat ensures i in hits <==> from <= i && IsHit(lines, target, i) {
        assert i in hits <==> (i == from && IsHit(lines, target, from)) || i in rest;
      }
    }
  }

  predicate Ascending(hits: seq<nat>) {
    forall j, k :: 0 <= j < k < |hits| ==> hits[j] < hits[k]
  }

  lemma {:induction false} AscendingCons(hit: nat, rest: seq<nat>)
    requires Ascending(rest) && forall i :: i in rest ==> hit < i
    ensures Ascending([hit] + rest)
  {
    var hits := [hit] + rest;
    forall j, k | 0 <= j < k < |hits| ensures hits[j] < hits[k] {
      assert hits[k] == rest[k - 1] && rest[k - 1] in rest;
    }
  }

  lemma {:induction false} HitsAscend(lines: seq<Line>, target: string, from: nat)
    requires from <= |lines|
    ensures Ascending(Hits(lines, target, from))
    decreases |lines| - from
  {
    if from < |lines| {
      HitsAscend(lines, target, from + 1);
      HitsAre(lines, target, from + 1);
      var rest := Hits(lines, target, from + 1);
      AscendingCons(from, rest);
    }
  }

  ghost predicate OnlyAt(lines: seq<Line>, target: string, k: nat) {
    IsHit(lines, target, k) && forall i: nat :: IsHit(lines, target, i) ==> i == k
  }

  /** The one line with this anchor; none or several is an error. */
  function FindAnchor(lines: seq<Line>, target: string): (r: Result<nat, EditError>)
    ensures r.Ok? ==> r.value < |lines|
  {
    var hits := Hits(lines, target, 0);
    if |hits| == 1 then Ok(hits[0])
    else if hits == [] then Err(NoSuchAnchor)
    else Err(AmbiguousAnchor(|hits|))
  }

  /** An anchor is found exactly where it names one line only, and missing exactly when it names none. */
  lemma {:induction false} FindAnchorMeans(lines: seq<Line>, target: string)
    ensures forall k: nat :: FindAnchor(lines, target) == Ok(k) <==> OnlyAt(lines, target, k)
    ensures FindAnchor(lines, target) == Err(NoSuchAnchor) <==> forall i: nat :: !IsHit(lines, target, i)
  {
    HitsAre(lines, target, 0);
    var hits := Hits(lines, target, 0);
    if hits != [] {
      assert hits[0] in hits;
    }
    forall k: nat ensures FindAnchor(lines, target) == Ok(k) <==> OnlyAt(lines, target, k) {
      OneHit(lines, target, hits, k);
    }
  }

  lemma {:induction false} OneHit(lines: seq<Line>, target: string, hits: seq<nat>, k: nat)
    requires hits == Hits(lines, target, 0)
    ensures hits == [k] <==> OnlyAt(lines, target, k)
  {
    HitsAre(lines, target, 0);
    HitsAscend(lines, target, 0);
    if hits == [k] {
      forall i: nat ensures IsHit(lines, target, i) <==> i == k {
        assert i in hits <==> IsHit(lines, target, i);
      }
    }
    if OnlyAt(lines, target, k) {
      assert IsHit(lines, target, k) && k in hits;
      assert hits[0] in hits && hits[|hits| - 1] in hits;
      assert hits[0] == k && hits[|hits| - 1] == k;
      assert |hits| == 1;
    }
  }

  function Splice<T>(s: seq<T>, from: nat, to: nat, block: seq<T>): seq<T>
    requires from <= to <= |s|
  {
    s[..from] + block + s[to..]
  }

  /** The lines a replacement covers, from one anchor to another. */
  function Span(lines: seq<Line>, start: string, end: Option<string>): (r: Result<(nat, nat), EditError>)
    ensures r.Ok? ==> r.value.0 <= r.value.1 < |lines|
  {
    var first := FindAnchor(lines, start);
    if first.Err? then Err(first.error)
    else
      var last := if end.Some? then FindAnchor(lines, end.value) else first;
      if last.Err? then Err(last.error)
      else if last.value < first.value then Err(EndBeforeStart)
      else Ok((first.value, last.value))
  }

  /** A span runs from the one line with the first anchor to the one with the last; out of order it is refused. */
  lemma {:induction false} SpanMeans(lines: seq<Line>, start: string, endAnchor: string, k: nat, j: nat)
    requires OnlyAt(lines, start, k) && OnlyAt(lines, endAnchor, j)
    ensures Span(lines, start, Some(endAnchor)) == if j < k then Err(EndBeforeStart) else Ok((k, j))
    ensures start == endAnchor ==> Span(lines, start, None) == Ok((k, k))
  {
    FindAnchorMeans(lines, start);
    FindAnchorMeans(lines, endAnchor);
  }

  /** The two ends of a replacement name one line each; without an end anchor, both are the first line. */
  ghost predicate Names(lines: seq<Line>, start: string, end: Option<string>, first: nat, last: nat) {
    OnlyAt(lines, start, first) && OnlyAt(lines, if end.Some? then end.value else start, last)
  }

  ghost predicate NamesSpan(lines: seq<Line>, start: string, end: Option<string>) {
    exists first: nat, last: nat :: Names(lines, start, end, first, last) && first <= last
  }

  lemma {:induction false} FoundAt(lines: seq<Line>, target: string, k: nat)
    ensures FindAnchor(lines, target) == Ok(k) <==> OnlyAt(lines, target, k)
  {
    OneHit(lines, target, Hits(lines, target, 0), k);
  }

  lemma {:induction false} SpanAt(lines: seq<Line>, start: string, end: Option<string>, first: nat, last: nat)
    ensures Span(lines, start, end) == Ok((first, last)) <==> Names(lines, start, end, first, last) && first <= last
  {
    FoundAt(lines, start, first);
    FoundAt(lines, if end.Some? then end.value else start, last);
  }

  lemma {:induction false} SpanIsNamed(lines: seq<Line>, start: string, end: Option<string>)
    ensures Span(lines, start, end).Ok? <==> NamesSpan(lines, start, end)
  {
    if NamesSpan(lines, start, end) {
      var first: nat, last: nat :| Names(lines, start, end, first, last) && first <= last;
      SpanAt(lines, start, end, first, last);
    }
    if Span(lines, start, end).Ok? {
      var (first, last) := Span(lines, start, end).value;
      SpanAt(lines, start, end, first, last);
    }
  }

  /** What a replacement gives: the new text and how many lines went. */
  function Replaced(content: seq<Byte>, start: string, end: Option<string>, contents: seq<Byte>)
    : Result<(seq<Byte>, nat), EditError>
  {
    ReplacedIn(LinesOf(content).0, LinesOf(content).1, start, end, contents)
  }

  function ReplacedIn(lines: seq<Line>, trailing: bool, start: string, end: Option<string>, contents: seq<Byte>)
    : Result<(seq<Byte>, nat), EditError>
  {
    var span := Span(lines, start, end);
    if span.Err? then Err(span.error)
    else
      var (first, last) := span.value;
      Ok((JoinLines(Splice(lines, first, last + 1, ContentsLines(contents)), trailing), last - first + 1))
  }

  /** What an insertion before or after an anchor gives: the new text and how many lines came. */
  function Inserted(content: seq<Byte>, target: string, before: bool, contents: seq<Byte>)
    : Result<(seq<Byte>, nat), EditError>
  {
    var (lines, trailing) := LinesOf(content);
    var index := FindAnchor(lines, target);
    if index.Err? then Err(index.error)
    else
      var block := ContentsLines(contents);
      if block == [] then Err(NothingToInsert)
      else
        var at := if before then index.value else index.value + 1;
        Ok((JoinLines(Splice(lines, at, at, block), trailing), |block|))
  }

  /**
    Replaces the lines from one anchor to another. It succeeds exactly when each anchor names one line, in
    order, and then every line outside that span stays.
   */
  method Replace(content: seq<Byte>, start: string, end: Option<string>, contents: seq<Byte>)
    returns (result: Result<(seq<Byte>, nat), EditError>)
    ensures result == Replaced(content, start, end, contents)
    ensures result.Ok? <==> NamesSpan(LinesOf(content).0, start, end)
    ensures result.Ok? ==> ReplacesSpan(content, start, end, contents, result.value.0, result.value.1)
  {
    var (lines, trailingNewline) := LinesOf(content);
    var span := Span(lines, start, end);
    if span.Err? {
      ReplaceKeepsTheRest(content, start, end, contents);
      return Err(span.error);
    }
    var (first, last) := span.value;
    var replaced := last - first + 1;
    var block := ContentsLines(contents);
    lines := Splice(lines, first, last + 1, block);
    var out := JoinLines(lines, trailingNewline);
    result := Ok((out, replaced));
    assert result == Replaced(content, start, end, contents);
    ReplaceKeepsTheRest(content, start, end, contents);
  }

  /**
    Inserts lines before or after an anchor. It succeeds exactly when the anchor names one line and there is
    something to insert, and then every line of the file stays.
   */
  method Insert(content: seq<Byte>, target: string, before: bool, contents: seq<Byte>)
    returns (result: Result<(seq<Byte>, nat), EditError>)
    ensures result == Inserted(content, target, before, contents)
    ensures result.Ok? <==> contents != [] && NamesLine(LinesOf(content).0, target)
    ensures result.Ok? ==> InsertsBlock(content, target, before, contents, result.value.0, result.value.1)
  {
    InsertKeepsTheRest(content, target, before, contents);
    var (lines, trailingNewline) := LinesOf(content);
    var index := FindAnchor(lines, target);
    if index.Err? {
      return Err(index.error);
    }
    var block := ContentsLines(contents);
    if block == [] {
      return Err(NothingToInsert);
    }
    var at := if before then index.value else index.value + 1;
    var inserted := |block|;
    lines := Splice(lines, at, at, block);
    result := Ok((JoinLines(lines, trailingNewline), inserted));
  }

  // ----- lines and text -----

  /** Joining the lines of a file gives the file back. */
  lemma {:induction false} JoinInvertsLines(content: seq<Byte>)
    ensures JoinLines(LinesOf(content).0, LinesOf(content).1) == content
  {
    if EndsWithNewline(content) {
      var body := content[..|content| - 1];
      JoinInvertsSplit(body, NEWLINE);
      assert content == body + [NEWLINE];
    } else {
      JoinInvertsSplit(content, NEWLINE);
    }
  }

  ghost predicate NewlineFree(lines: seq<Line>) {
    forall i :: 0 <= i < |lines| ==> NEWLINE !in lines[i]
  }

  /** Lines a file can have: a file without a final newline cannot end in an empty line, except the empty file. */
  predicate Readable(lines: seq<Line>, trailing: bool)
    requires lines != []
  {
    trailing || lines == [[]] || lines[|lines| - 1] != []
  }

  lemma {:induction false} JoinLast(lines: seq<Line>)
    requires |lines| >= 2
    ensures Join(lines, NEWLINE) == Join(lines[..|lines| - 1], NEWLINE) + [NEWLINE] + lines[|lines| - 1]
  {
    var last := |lines| - 1;
    JoinSnoc(lines[..last], lines[last], NEWLINE);
    assert lines == lines[..last] + [lines[last]];
  }

  lemma {:induction false} JoinEndsWithNewline(lines: seq<Line>)
    requires lines != [] && NewlineFree(lines)
    ensures EndsWithNewline(Join(lines, NEWLINE)) <==> |lines| >= 2 && lines[|lines| - 1] == []
  {
    if |lines| >= 2 {
      JoinLast(lines);
      var last := lines[|lines| - 1];
      assert last != [] ==> last[|last| - 1] in last;
    } else {
      assert lines[0] != [] ==> lines[0][|lines[0]| - 1] in lines[0];
    }
  }

  /** Reading joined lines gives the same lines back exactly when a file can have them. */
  lemma {:induction false} LinesInvertJoin(lines: seq<Line>, trailing: bool)
    requires lines != [] && NewlineFree(lines)
    ensures LinesOf(JoinLines(lines, trailing)) == (lines, trailing) <==> Readable(lines, trailing)
    ensures !Readable(lines, trailing) ==> LinesOf(JoinLines(lines, trailing)).1
  {
    var content := JoinLines(lines, trailing);
    SplitInvertsJoin(lines, NEWLINE);
    JoinEndsWithNewline(lines);
    if trailing {
      assert content[..|content| - 1] == Join(lines, NEWLINE);
    } else {
      assert content == Join(lines, NEWLINE);
    }
  }

  lemma {:induction false} LinesOfAreNewlineFree(content: seq<Byte>)
    ensures NewlineFree(LinesOf(content).0) && NewlineFree(ContentsLines(content))
  {
    SplitPiecesHaveNoSeparator(content, NEWLINE);
    if EndsWithNewline(content) {
      SplitPiecesHaveNoSeparator(content[..|content| - 1], NEWLINE);
    }
  }

  /** The lines of an edit's text spell it, with a final newline exactly where it has one; empty text has none. */
  lemma {:induction false} ContentsLinesSpell(contents: seq<Byte>)
    ensures ContentsLines(contents) == [] <==> contents == []
    ensures contents != [] ==> JoinLines(ContentsLines(contents), EndsWithNewline(contents)) == contents
    ensures NewlineFree(ContentsLines(contents))
  {
    LinesOfAreNewlineFree(contents);
    if contents != [] {
      JoinInvertsLines(contents);
    }
  }

  // ----- why an edit is refused -----

  ghost function NatsBetween(from: nat, to: nat, p: nat -> bool): set<nat> {
    set i: nat | from <= i < to && p(i)
  }

  lemma {:induction false} NatsFromNext(from: nat, to: nat, p: nat -> bool)
    ensures from >= to ==> NatsBetween(from, to, p) == {}
    ensures from < to ==>
              |NatsBetween(from, to, p)| == |NatsBetween(from + 1, to, p)| + if p(from) then 1 else 0
  {
    assert from < to ==> NatsBetween(from, to, p)
                         == NatsBetween(from + 1, to, p) + if p(from) then {from} else {};
  }

  /** How many lines have this anchor. */
  ghost function HitCount(lines: seq<Line>, target: string): nat {
    |NatsBetween(0, |lines|, (i: nat) => IsHit(lines, target, i))|
  }

  lemma {:induction false} HitsAreCounted(lines: seq<Line>, target: string, from: nat)
    requires from <= |lines|
    ensures |Hits(lines, target, from)| == |NatsBetween(from, |lines|, (i: nat) => IsHit(lines, target, i))|
    decreases |lines| - from
  {
    NatsFromNext(from, |lines|, (i: nat) => IsHit(lines, target, i));
    if from < |lines| {
      HitsAreCounted(lines, target, from + 1);
    }
  }

  /** An anchor is found if one line has it; else the error says that none has, or how many. */
  lemma {:induction false} AnchorErrors(lines: seq<Line>, target: string)
    ensures var count := HitCount(lines, target);
            && (FindAnchor(lines, target).Ok? <==> count == 1)
            && (count == 0 ==> FindAnchor(lines, target) == Err(NoSuchAnchor))
            && (count > 1 ==> FindAnchor(lines, target) == Err(AmbiguousAnchor(count)))
  {
    HitsAreCounted(lines, target, 0);
  }

  function AnchorError(count: nat): EditError {
    if count == 0 then NoSuchAnchor else AmbiguousAnchor(count)
  }

  /**
    A refused edit names its first fault: the first anchor's before the last one's, those before their order, and
    an insertion's anchor before its empty text.
   */
  lemma {:induction false} EditErrors(content: seq<Byte>, start: string, end: Option<string>, contents: seq<Byte>,
                                      before: bool)
    ensures var lines := LinesOf(content).0;
            var first, last := HitCount(lines, start), HitCount(lines, if end.Some? then end.value else start);
            && (Replaced(content, start, end, contents).Err? ==>
                  Replaced(content, start, end, contents).error ==
                  if first != 1 then AnchorError(first)
                  else if last != 1 then AnchorError(last)
                  else EndBeforeStart)
            && (Inserted(content, start, before, contents).Err? ==>
                  Inserted(content, start, before, contents).error ==
                  if first != 1 then AnchorError(first) else NothingToInsert)
  {
    AnchorErrors(LinesOf(content).0, start);
    AnchorErrors(LinesOf(content).0, if end.Some? then end.value else start);
  }

  // ----- edits keep what they do not name -----

  /**
    `out` spells the lines outside the span unchanged with the block between them, and reads back as them
    if it can.
   */
  ghost predicate KeepsTheRest(lines: seq<Line>, trailing: bool, from: nat, to: nat, block: seq<Line>, out: seq<Byte>)
    requires from <= to <= |lines|
  {
    var after := lines[..from] + block + lines[to..];
    && out == JoinLines(after, trailing)
    && (after != [] && Readable(after, trailing) ==> LinesOf(out) == (after, trailing))
  }

  /** `out` is the file with the named span replaced by the block and everything else kept; `count` is the span. */
  ghost predicate ReplacesSpan(content: seq<Byte>, start: string, end: Option<string>, contents: seq<Byte>,
                               out: seq<Byte>, count: nat)
  {
    var (lines, trailing) := LinesOf(content);
    exists first: nat, last: nat ::
      && Names(lines, start, end, first, last) && first <= last < |lines| && count == last - first + 1
      && KeepsTheRest(lines, trailing, first, last + 1, ContentsLines(contents), out)
  }

  /** A replacement succeeds exactly on a named span, and keeps every line before and after it, in order. */
  lemma {:induction false} ReplaceKeepsTheRest(content: seq<Byte>, start: string, end: Option<string>,
                                               contents: seq<Byte>)
    ensures var result := Replaced(content, start, end, contents);
            && (result.Ok? <==> NamesSpan(LinesOf(content).0, start, end))
            && (result.Ok? ==> ReplacesSpan(content, start, end, contents, result.value.0, result.value.1))
  {
    var (lines, trailing) := LinesOf(content);
    SpanIsNamed(lines, start, end);
    var span := Span(lines, start, end);
    if span.Ok? {
      var (first, last) := span.value;
      SpanAt(lines, start, end, first, last);
      SpliceKeepsTheRest(content, contents, first, last + 1);
    }
  }

  ghost predicate NamesLine(lines: seq<Line>, target: string) {
    exists k: nat :: OnlyAt(lines, target, k)
  }

  /** `out` is the file with the block next to the named line and every line kept; `count` is the block. */
  ghost predicate InsertsBlock(content: seq<Byte>, target: string, before: bool, contents: seq<Byte>,
                               out: seq<Byte>, count: nat)
  {
    var (lines, trailing) := LinesOf(content);
    var block := ContentsLines(contents);
    count == |block| && exists k: nat ::
      && OnlyAt(lines, target, k)
      && var at := if before then k else k + 1;
         KeepsTheRest(lines, trailing, at, at, block, out)
  }

  /** An insertion succeeds exactly next to a named line, and keeps every line, in order. */
  lemma {:induction false} InsertKeepsTheRest(content: seq<Byte>, target: string, before: bool, contents: seq<Byte>)
    ensures var result := Inserted(content, target, before, contents);
            && (result.Ok? <==> contents != [] && NamesLine(LinesOf(content).0, target))
            && (result.Ok? ==> InsertsBlock(content, target, before, contents, result.value.0, result.value.1))
  {
    var (lines, trailing) := LinesOf(content);
    FindAnchorMeans(lines, target);
    var index := FindAnchor(lines, target);
    if index.Ok? {
      var at := if before then index.value else index.value + 1;
      SpliceKeepsTheRest(content, contents, at, at);
      assert OnlyAt(lines, target, index.value);
    }
  }

  lemma {:induction false} SpliceKeepsTheRest(content: seq<Byte>, contents: seq<Byte>, from: nat, to: nat)
    requires from <= to <= |LinesOf(content).0|
    ensures var (lines, trailing) := LinesOf(content);
            var block := ContentsLines(contents);
            KeepsTheRest(lines, trailing, from, to, block, JoinLines(Splice(lines, from, to, block), trailing))
  {
    EditedLinesRead(content, contents, from, to);
  }

  lemma {:induction false} EditedLinesRead(content: seq<Byte>, contents: seq<Byte>, from: nat, to: nat)
    requires from <= to <= |LinesOf(content).0|
    ensures var (lines, trailing) := LinesOf(content);
            var after := Splice(lines, from, to, ContentsLines(contents));
            && NewlineFree(after)
            && (after != [] ==>
                  && (LinesOf(JoinLines(after, trailing)) == (after, trailing) <==> Readable(after, trailing))
                  && (!Readable(after, trailing) ==> LinesOf(JoinLines(after, trailing)).1))
  {
    var (lines, trailing) := LinesOf(content);
    LinesOfAreNewlineFree(content);
    LinesOfAreNewlineFree(contents);
    var after := Splice(lines, from, to, ContentsLines(contents));
    if after != [] {
      LinesInvertJoin(after, trailing);
    }
  }

  /**
    Inserting and then replacing exactly the inserted lines with nothing restores the file, byte for byte,
    exactly when the file ends with a newline or the lines after the insertion do not end in an empty one.
    `first` and `last` are the anchors of the first and last inserted line, each naming one line only.
   */
  lemma {:induction false} InsertThenDelete(content: seq<Byte>, target: string, before: bool, contents: seq<Byte>,
                                           at: nat, after: seq<Line>, first: string, last: string)
    requires Inserted(content, target, before, contents).Ok?
    requires at == FindAnchor(LinesOf(content).0, target).value + (if before then 0 else 1)
    requires after == Splice(LinesOf(content).0, at, at, ContentsLines(contents))
    requires OnlyAt(after, first, at) && OnlyAt(after, last, at + |ContentsLines(contents)| - 1)
    ensures Replaced(Inserted(content, target, before, contents).value.0, first, Some(last), [])
              == Ok((content, |ContentsLines(contents)|))
            <==> EndsWithNewline(content) || after[|after| - 1] != []
  {
    var inserted := JoinLines(after, LinesOf(content).1);
    assert Inserted(content, target, before, contents).value.0 == inserted;
    DeleteInserted(content, contents, at, after, first, last, inserted);
  }

  lemma {:induction false} BlankLines()
    ensures JoinLines([[], []], false) == [NEWLINE]
  {
    var one, two: seq<Line> := [[]], [[], []];
    assert two[1..] == one && one[1..] == [];
  }

  /**
    A blank line inserted into an empty file cannot be taken out again by its anchor, although that anchor
    named it alone: the file that was written has one line, and it is another.
   */
  lemma {:induction false} BlankLineIsNotUndone()
    ensures var target, blank := Anchor(1, []), Anchor(2, []);
            && Inserted([], target, false, [NEWLINE]) == Ok(([NEWLINE], 1))
            && OnlyAt([[], []], blank, 1)
            && Replaced([NEWLINE], blank, Some(blank), []) == Err(NoSuchAnchor)
  {
    var none: seq<Byte> := [];
    var target, blank := Anchor(1, none), Anchor(2, none);
    NeighboursApart(none);
    var one, two: seq<Line> := [none], [none, none];
    assert [NEWLINE][..0] == none;
    assert LinesOf(none) == (one, false) && LinesOf([NEWLINE]) == (one, true) && ContentsLines([NEWLINE]) == one;
    assert OnlyAt(one, target, 0);
    FoundAt(one, target, 0);
    assert Splice(one, 1, 1, one) == two;
    BlankLines();
    assert IsHit(two, blank, 1) && !IsHit(two, blank, 0) && !IsHit(one, blank, 0);
    FindAnchorMeans(one, blank);
  }

  lemma {:induction false} DeleteInserted(content: seq<Byte>, contents: seq<Byte>, at: nat, after: seq<Line>,
                                          first: string, last: string, inserted: seq<Byte>)
    requires ContentsLines(contents) != [] && at <= |LinesOf(content).0|
    requires after == Splice(LinesOf(content).0, at, at, ContentsLines(contents))
    requires inserted == JoinLines(after, LinesOf(content).1)
    requires OnlyAt(after, first, at) && OnlyAt(after, last, at + |ContentsLines(contents)| - 1)
    ensures after != []
    ensures Replaced(inserted, first, Some(last), []) == Ok((content, |ContentsLines(contents)|))
            <==> EndsWithNewline(content) || after[|after| - 1] != []
  {
    var (lines, trailing) := LinesOf(content);
    var block := ContentsLines(contents);
    EditedLinesRead(content, contents, at, at);
    assert |after| >= 2 && (trailing <==> EndsWithNewline(content));
    if Readable(after, trailing) {
      JoinInvertsLines(content);
      DeleteReadable(lines, trailing, block, at, first, last, inserted);
    } else {
      DeleteUnreadable(inserted, first, last, content, |block|);
    }
  }

  lemma {:induction false} DeleteReadable(lines: seq<Line>, trailing: bool, block: seq<Line>, at: nat,
                                          first: string, last: string, inserted: seq<Byte>)
    requires block != [] && at <= |lines|
    requires LinesOf(inserted) == (Splice(lines, at, at, block), trailing)
    requires OnlyAt(LinesOf(inserted).0, first, at) && OnlyAt(LinesOf(inserted).0, last, at + |block| - 1)
    ensures Replaced(inserted, first, Some(last), []) == Ok((JoinLines(lines, trailing), |block|))
  {
    SpliceUndone(lines, at, block);
    DeletedSpan(inserted, Splice(lines, at, at, block), trailing, first, last, at, at + |block|, lines, |block|);
  }

  lemma {:induction false} DeleteUnreadable(inserted: seq<Byte>, first: string, last: string, content: seq<Byte>,
                                            n: nat)
    requires EndsWithNewline(inserted) && !EndsWithNewline(content)
    ensures Replaced(inserted, first, Some(last), []) != Ok((content, n))
  {
    var undone := Replaced(inserted, first, Some(last), []);
    if undone.Ok? {
      ReplacementKeepsNewline(inserted, first, Some(last), []);
    }
  }

  lemma {:induction false} SpliceUndone<T>(s: seq<T>, at: nat, block: seq<T>)
    requires at <= |s|
    ensures Splice(Splice(s, at, at, block), at, at + |block|, []) == s
  {
    var long := Splice(s, at, at, block);
    assert long[..at] == s[..at];
    assert long[at + |block|..] == s[at..];
  }

  lemma {:induction false} DeletedSpan(content: seq<Byte>, lines: seq<Line>, trailing: bool, start: string, end: string,
                                       from: nat, to: nat, kept: seq<Line>, count: nat)
    requires LinesOf(content) == (lines, trailing)
    requires from < to <= |lines| && OnlyAt(lines, start, from) && OnlyAt(lines, end, to - 1)
    requires kept == Splice(lines, from, to, []) && count == to - from
    ensures Replaced(content, start, Some(end), []) == Ok((JoinLines(kept, trailing), count))
  {
    DeletedIn(lines, trailing, start, end, from, to, kept, count);
  }

  lemma {:induction false} DeletedIn(lines: seq<Line>, trailing: bool, start: string, end: string,
                                     from: nat, to: nat, kept: seq<Line>, count: nat)
    requires from < to <= |lines| && OnlyAt(lines, start, from) && OnlyAt(lines, end, to - 1)
    requires kept == Splice(lines, from, to, []) && count == to - from
    ensures ReplacedIn(lines, trailing, start, Some(end), []) == Ok((JoinLines(kept, trailing), count))
  {
    SpanAt(lines, start, Some(end), from, to - 1);
    assert ContentsLines([]) == [];
  }

  lemma {:induction false} ReplacementKeepsNewline(content: seq<Byte>, start: string, end: Option<string>,
                                                   contents: seq<Byte>)
    requires EndsWithNewline(content) && Replaced(content, start, end, contents).Ok?
    ensures EndsWithNewline(Replaced(content, start, end, contents).value.0)
  {
  }

  /** An anchor taken from a line stops naming that line once exactly one byte of it changes. */
  lemma {:induction false} StaleAnchorMissesChangedLine(lines: seq<Line>, k: nat, i: nat, byte: Byte)
    requires k < |lines| && i < |lines[k]| && byte != lines[k][i]
    ensures var line: Line := lines[k][..i] + [byte] + lines[k][i + 1..];
            FindAnchor(lines[k := line], Anchor(k + 1, lines[k])) != Ok(k)
  {
    var line: Line := lines[k][..i] + [byte] + lines[k][i + 1..];
    OneByteChangesTheAnchor(k + 1, lines[k], line, i);
    FindAnchorMeans(lines[k := line], Anchor(k + 1, lines[k]));
  }
}
