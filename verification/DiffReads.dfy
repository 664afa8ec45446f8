// What the unified-diff parser gives for any text, said of its lines by position (pkgs/clients/tui/src/diff.rs).
module DiffReads {
  import opened Decimal
  import opened Diff
  import opened Runs
  import opened Text
  import opened Wrappers

  // ----- lines -----

  /** `end` closes `line` in a text; only a last line may do without. */
  predicate Closes(line: string, end: string, isLast: bool) {
    && '\n' !in line
    && match end
       case "\r\n" => true
       case "\n" => line == "" || line[|line| - 1] != '\r'
       case _ => end == "" && isLast && line != ""
  }

  function Spelled(lines: seq<string>, ends: seq<string>): string
    requires |ends| == |lines|
  {
    if lines == [] then "" else lines[0] + ends[0] + Spelled(lines[1..], ends[1..])
  }

  ghost predicate AreLines(lines: seq<string>, ends: seq<string>) {
    && |ends| == |lines|
    && forall i :: 0 <= i < |lines| ==> Closes(lines[i], ends[i], i == |lines| - 1)
  }

  lemma {:induction false} AreLinesCons(line: string, end: string, lines: seq<string>, ends: seq<string>)
    requires AreLines(lines, ends) && Closes(line, end, lines == [])
    ensures AreLines([line] + lines, [end] + ends)
    ensures Spelled([line] + lines, [end] + ends) == line + end + Spelled(lines, ends)
  {
    assert ([line] + lines)[1..] == lines && ([end] + ends)[1..] == ends;
  }

  /** The lines of a text with their ends spell it, a carriage return going only together with its newline. */
  lemma {:induction false} LinesSpell(s: string) returns (ends: seq<string>)
    ensures AreLines(Lines(s), ends) && Spelled(Lines(s), ends) == s
    decreases |s|
  {
    ends := [];
    if s != "" {
      var at := Find(s, "\n", 0);
      if at.None? {
        LastLineSpells(s);
        ends := [""];
      } else {
        NewlineStands(s, at.value);
        ends := LinesSpell(s[at.value + 1..]);
        ends := NextLineSpells(s, at.value, ends);
      }
    }
  }

  lemma {:induction false} NewlineStands(s: string, at: nat)
    requires Find(s, "\n", 0) == Some(at)
    ensures at < |s|
  {
  }

  lemma {:induction false} LastLineSpells(s: string)
    requires s != "" && Find(s, "\n", 0).None?
    ensures Lines(s) == [s] && AreLines([s], [""]) && Spelled([s], [""]) == s
  {
    NoNewlineIn(s);
    AreLinesCons(s, "", [], []);
    assert [s] + [] == [s] && [""] + [] == [""] && s + "" + "" == s;
  }

  lemma {:induction false} NextLineSpells(s: string, at: nat, more: seq<string>) returns (ends: seq<string>)
    requires Find(s, "\n", 0) == Some(at)
    requires AreLines(Lines(s[at + 1..]), more) && Spelled(Lines(s[at + 1..]), more) == s[at + 1..]
    ensures AreLines(Lines(s), ends) && Spelled(Lines(s), ends) == s
  {
    var line, rest := s[..at], s[at + 1..];
    NewlineNotBefore(s, at);
    var end := ReturnGoesAlong(line);
    AreLinesCons(StripReturn(line), end, Lines(rest), more);
    assert line + "\n" + rest == s;
    ends := [end] + more;
  }

  lemma {:induction false} ReturnGoesAlong(line: string) returns (end: string)
    requires '\n' !in line
    ensures StripReturn(line) + end == line + "\n"
    ensures forall isLast :: Closes(StripReturn(line), end, isLast)
  {
    end := if StripReturn(line) == line then "\n" else "\r\n";
    assert StripReturn(line) != line ==> line == StripReturn(line) + "\r";
  }

  lemma {:induction false} NoNewlineIn(s: string)
    requires forall i: nat :: i <= |s| ==> !OccursAt(s, "\n", i)
    ensures '\n' !in s
  {
    forall i: nat | i < |s| ensures s[i] != '\n' {
      assert !OccursAt(s, "\n", i);
      assert s[i..i + 1] == [s[i]];
    }
  }

  lemma {:induction false} NewlineNotBefore(s: string, at: nat)
    requires at < |s| && OccursAt(s, "\n", at)
    requires forall i: nat :: i < at ==> !OccursAt(s, "\n", i)
    ensures '\n' !in s[..at] && s[at] == '\n'
  {
    assert s[at..at + 1] == [s[at]];
    forall i: nat | i < at ensures s[i] != '\n' {
      assert !OccursAt(s, "\n", i);
      assert s[i..i + 1] == [s[i]];
    }
  }

  // ----- hunk headers -----

  lemma {:induction false} SplitOnceMeans(s: string, pattern: string, a: string, b: string)
    ensures SplitOnce(s, pattern) == Some((a, b))
            <==> s == a + pattern + b && forall j: nat :: j < |a| ==> !OccursAt(s, pattern, j)
  {
    var at := Find(s, pattern, 0);
    if SplitOnce(s, pattern) == Some((a, b)) {
      assert s[at.value..at.value + |pattern|] == pattern;
      assert s == s[..at.value] + s[at.value..at.value + |pattern|] + s[at.value + |pattern|..];
    }
    if s == a + pattern + b && forall j: nat :: j < |a| ==> !OccursAt(s, pattern, j) {
      assert s[|a|..|a| + |pattern|] == pattern;
      assert OccursAt(s, pattern, |a|);
      assert at == Some(|a|);
      assert s[..|a|] == a && s[|a| + |pattern|..] == b;
    }
  }

  /** One side of a hunk header: its mark and its start, and nothing or a comma and anything. */
  ghost predicate IsRange(side: string, mark: char, start: nat) {
    exists digits: string, rest: string ::
      && side == [mark] + (digits + rest)
      && ',' !in digits && (rest == "" || rest[0] == ',')
      && Spells(digits, start) && start < 0x1_0000_0000_0000_0000
  }

  lemma {:induction false} CommaFirst(s: string, a: string)
    requires a <= s
    ensures (forall j: nat :: j < |a| ==> !OccursAt(s, ",", j)) <==> ',' !in a
  {
    forall j: nat | j < |a| ensures OccursAt(s, ",", j) <==> a[j] == ',' {
      assert s[j..j + 1] == [a[j]];
    }
    if ',' in a {
      var j :| 0 <= j < |a| && a[j] == ',';
      assert OccursAt(s, ",", j);
    }
  }

  lemma {:induction false} RangeDigits(digits: string, rest: string)
    requires ',' !in digits && (rest == "" || rest[0] == ',')
    ensures SplitOnce(digits + rest, ",") == if rest == "" then None else Some((digits, rest[1..]))
  {
    var s := digits + rest;
    CommaFirst(s, digits);
    if rest == "" {
      assert s == digits;
    } else {
      assert s == digits + "," + rest[1..];
      SplitOnceMeans(s, ",", digits, rest[1..]);
    }
  }

  lemma {:induction false} RangeParts(s: string)
    ensures var parts := SplitOnce(s, ",");
            var digits := if parts.Some? then parts.value.0 else s;
            digits <= s && ',' !in digits && (s[|digits|..] == "" || s[|digits|..][0] == ',')
  {
    var parts := SplitOnce(s, ",");
    if parts.Some? {
      SplitOnceMeans(s, ",", parts.value.0, parts.value.1);
      CommaFirst(s, parts.value.0);
    } else {
      CommaFirst(s, s);
    }
  }

  lemma {:induction false} RangeStartReads(mark: char, digits: string, rest: string)
    requires ',' !in digits && (rest == "" || rest[0] == ',')
    ensures RangeStart([mark] + (digits + rest), mark) == ParseUsize(digits)
  {
    assert ([mark] + (digits + rest))[1..] == digits + rest;
    RangeDigits(digits, rest);
    assert rest == "" ==> digits + rest == digits;
  }

  lemma {:induction false} RangeOfStart(side: string, mark: char) returns (digits: string, rest: string)
    requires RangeStart(side, mark).Some?
    ensures side == [mark] + (digits + rest) && ',' !in digits && (rest == "" || rest[0] == ',')
  {
    var parts := SplitOnce(side[1..], ",");
    digits := if parts.Some? then parts.value.0 else side[1..];
    RangeParts(side[1..]);
    rest := side[1..][|digits|..];
  }

  lemma {:induction false} RangeStartMeans(side: string, mark: char, start: nat)
    ensures RangeStart(side, mark) == Some(start) <==> IsRange(side, mark, start)
  {
    if IsRange(side, mark, start) {
      var digits: string, rest: string :|
        && side == [mark] + (digits + rest)
        && ',' !in digits && (rest == "" || rest[0] == ',')
        && Spells(digits, start) && start < 0x1_0000_0000_0000_0000;
      RangeStartReads(mark, digits, rest);
      ParseUsizeMeans(digits, start);
    } else if RangeStart(side, mark) == Some(start) {
      var digits, rest := RangeOfStart(side, mark);
      RangeStartReads(mark, digits, rest);
      ParseUsizeMeans(digits, start);
    }
  }

  /** `@@ -o +n @@` and anything: the sides parted by the first space, before the first ` @@`. */
  ghost predicate IsHunkHeader(line: string, start: Counters) {
    exists before: string, after: string, heading: string ::
      && line == "@@ " + ((before + " " + after) + " @@" + heading)
      && ' ' !in before
      && (forall j: nat :: j < |before + " " + after| ==> !OccursAt(line[3..], " @@", j))
      && IsRange(before, '-', start.oldNo) && IsRange(after, '+', start.newNo)
  }

  lemma {:induction false} SpaceFirst(before: string, after: string)
    ensures SplitOnce(before + " " + after, " ") == Some((before, after)) <==> ' ' !in before
  {
    var s := before + " " + after;
    forall j: nat | j < |before| ensures OccursAt(s, " ", j) <==> before[j] == ' ' {
      assert s[j..j + 1] == [before[j]];
    }
    if ' ' in before {
      var j :| 0 <= j < |before| && before[j] == ' ';
      assert OccursAt(s, " ", j);
    }
    SplitOnceMeans(s, " ", before, after);
  }

  /** Exactly such lines are hunk headers. */
  lemma {:induction false} HunkStartMeans(line: string, start: Counters)
    ensures HunkStart(line) == Some(start) <==> IsHunkHeader(line, start)
  {
    if IsHunkHeader(line, start) {
      var before: string, after: string, heading: string :|
        && line == "@@ " + ((before + " " + after) + " @@" + heading)
        && ' ' !in before
        && (forall j: nat :: j < |before + " " + after| ==> !OccursAt(line[3..], " @@", j))
        && IsRange(before, '-', start.oldNo) && IsRange(after, '+', start.newNo);
      assert line[3..] == (before + " " + after) + " @@" + heading;
      SplitOnceMeans(line[3..], " @@", before + " " + after, heading);
      SpaceFirst(before, after);
      RangeStartMeans(before, '-', start.oldNo);
      RangeStartMeans(after, '+', start.newNo);
    } else if HunkStart(line) == Some(start) {
      HunkHeaderParts(line, start);
    }
  }

  lemma {:induction false} HunkHeaderOf(line: string, before: string, after: string, heading: string, start: Counters)
    requires StartsWith(line, "@@ ") && line[3..] == (before + " " + after) + " @@" + heading
    requires ' ' !in before
    requires forall j: nat :: j < |before + " " + after| ==> !OccursAt(line[3..], " @@", j)
    requires IsRange(before, '-', start.oldNo) && IsRange(after, '+', start.newNo)
    ensures IsHunkHeader(line, start)
  {
    assert line == "@@ " + line[3..];
  }

  lemma {:induction false} HunkHeaderParts(line: string, start: Counters)
    requires HunkStart(line) == Some(start)
    ensures IsHunkHeader(line, start)
  {
    var outer := SplitOnce(line[3..], " @@").value;
    var sides := SplitOnce(outer.0, " ").value;
    SplitOnceMeans(line[3..], " @@", outer.0, outer.1);
    SplitOnceMeans(outer.0, " ", sides.0, sides.1);
    SpaceFirst(sides.0, sides.1);
    RangeStartMeans(sides.0, '-', start.oldNo);
    RangeStartMeans(sides.1, '+', start.newNo);
    HunkHeaderOf(line, sides.0, sides.1, outer.1, start);
  }

  // ----- what a line is read as -----

  /** The line names files or says something of them, and so no hunk is open after it. */
  predicate NamesFiles(line: string) {
    || "diff --git " <= line || "index " <= line || "--- " <= line || "+++ " <= line
    || "old mode " <= line || "new mode " <= line || "deleted file mode " <= line || "new file mode " <= line
    || "similarity index " <= line || "rename from " <= line || "rename to " <= line || "Binary files " <= line
  }

  lemma {:induction false} BeginsWithOneOf(line: string, headers: seq<string>)
    requires |headers| == 12
    ensures (exists i :: 0 <= i < |headers| && StartsWith(line, headers[i])) <==>
            || headers[0] <= line || headers[1] <= line || headers[2] <= line || headers[3] <= line
            || headers[4] <= line || headers[5] <= line || headers[6] <= line || headers[7] <= line
            || headers[8] <= line || headers[9] <= line || headers[10] <= line || headers[11] <= line
  {
  }

  lemma {:induction false} FileHeaderNamesFiles(line: string)
    ensures IsFileHeader(line) <==> NamesFiles(line)
  {
    BeginsWithOneOf(line, HEADERS);
    assert "--- " <= "--- /dev/null" && "+++ " <= "+++ /dev/null";
  }

  /** What a line is, whatever stands before it. */
  datatype Kind = Opening(start: Counters) | Naming | Truncated | Shared | Removed | Added | Remark | Stray

  function KindOf(line: string): Kind {
    var start := HunkStart(line);
    if start.Some? then Opening(start.value)
    else if NamesFiles(line) then Naming
    else if "\U{2026}[truncated:" <= line then Truncated
    else if line == "" || line[0] == ' ' then Shared
    else if line[0] == '-' then Removed
    else if line[0] == '+' then Added
    else if line[0] == '\\' then Remark
    else Stray
  }

  function Kinds(lines: seq<string>): seq<Kind> {
    seq(|lines|, i requires 0 <= i < |lines| => KindOf(lines[i]))
  }

  /** The hunk opened at `h` is still open before line `i`. */
  ghost predicate InHunk(kinds: seq<Kind>, h: nat, i: nat) {
    && h < i <= |kinds| && kinds[h].Opening?
    && forall j :: h < j < i ==> !kinds[j].Opening? && !kinds[j].Naming?
  }

  ghost predicate IsOpen(kinds: seq<Kind>, i: nat) {
    exists h: nat :: InHunk(kinds, h, i)
  }

  ghost function Between(kinds: seq<Kind>, h: nat, i: nat, p: Kind -> bool): nat
    requires i <= |kinds|
  {
    |set j: nat | h < j < i && p(kinds[j])|
  }

  /** The number of the next line on the old side: the hunk's start and the lines of that side since. */
  ghost function OldAt(kinds: seq<Kind>, h: nat, i: nat): nat
    requires InHunk(kinds, h, i)
  {
    (kinds[h].start.oldNo + Between(kinds, h, i, (k: Kind) => k.Shared? || k.Removed?)) % 0x1_0000_0000_0000_0000
  }

  ghost function NewAt(kinds: seq<Kind>, h: nat, i: nat): nat
    requires InHunk(kinds, h, i)
  {
    (kinds[h].start.newNo + Between(kinds, h, i, (k: Kind) => k.Shared? || k.Added?)) % 0x1_0000_0000_0000_0000
  }

  /** `row` is line `i` as a body line of the hunk opened at `h`, with its numbers on the sides it is on. */
  ghost predicate IsBodyOf(lines: seq<string>, kinds: seq<Kind>, h: nat, i: nat, row: Row)
    requires i < |lines| == |kinds| && InHunk(kinds, h, i)
  {
    var text := if lines[i] == "" then "" else lines[i][1..];
    match kinds[i]
    case Shared => row == Body(' ', Some(OldAt(kinds, h, i)), Some(NewAt(kinds, h, i)), text)
    case Removed => row == Body('-', Some(OldAt(kinds, h, i)), None, text)
    case Added => row == Body('+', None, Some(NewAt(kinds, h, i)), text)
    case _ => false
  }

  /** What line `i` is read as; one outside every hunk that only a hunk can hold, and a stray one, as nothing. */
  ghost predicate ReadsAs(lines: seq<string>, kinds: seq<Kind>, i: nat, row: Row)
    requires i < |lines| == |kinds|
  {
    match kinds[i]
    case Opening(_) => row == Hunk(lines[i])
    case Naming => row == File(lines[i])
    case Truncated => row == Note(lines[i])
    case Remark => row == Note(lines[i]) && IsOpen(kinds, i)
    case Stray => false
    case _ => exists h: nat :: InHunk(kinds, h, i) && IsBodyOf(lines, kinds, h, i, row)
  }

  ghost predicate AllReadAs(lines: seq<string>, kinds: seq<Kind>, rows: seq<Row>)
    requires |kinds| == |lines|
  {
    |rows| <= |lines| && forall i :: 0 <= i < |rows| ==> ReadsAs(lines, kinds, i, rows[i])
  }

  // ----- the parser, by kinds -----

  function StepOf(kind: Kind, line: string, counters: Option<Counters>): Option<(Row, Option<Counters>)> {
    match kind
    case Opening(start) => Some((Hunk(line), Some(start)))
    case Naming => Some((File(line), None))
    case Truncated => Some((Note(line), counters))
    case Stray => None
    case _ =>
      if counters.None? then None
      else
        var c, text := counters.value, if line == "" then "" else line[1..];
        match kind
        case Remark => Some((Note(line), counters))
        case Removed => Some((Body('-', Some(c.oldNo), None, text), Some(Counters(Bump(c.oldNo), c.newNo))))
        case Added => Some((Body('+', None, Some(c.newNo), text), Some(Counters(c.oldNo, Bump(c.newNo)))))
        case _ =>
          Some((Body(' ', Some(c.oldNo), Some(c.newNo), text), Some(Counters(Bump(c.oldNo), Bump(c.newNo)))))
  }

  lemma {:induction false} LineSteps(line: string, counters: Option<Counters>)
    ensures ParseLine(line, counters) == StepOf(KindOf(line), line, counters)
  {
    FileHeaderNamesFiles(line);
  }

  // ----- the counters -----

  ghost predicate CountedTo(kinds: seq<Kind>, h: nat, i: nat, c: Counters) {
    InHunk(kinds, h, i) && c == Counters(OldAt(kinds, h, i), NewAt(kinds, h, i))
  }

  /** The counters in force before line `i`. */
  ghost predicate InForce(kinds: seq<Kind>, i: nat, counters: Option<Counters>) {
    match counters
    case None => !IsOpen(kinds, i)
    case Some(c) => exists h: nat :: CountedTo(kinds, h, i, c)
  }

  lemma {:induction false} OneHunk(kinds: seq<Kind>, h: nat, k: nat, i: nat)
    requires InHunk(kinds, h, i) && InHunk(kinds, k, i)
    ensures h == k
  {
  }

  lemma {:induction false} BetweenOneMore(kinds: seq<Kind>, h: nat, i: nat, p: Kind -> bool)
    requires h < i < |kinds|
    ensures Between(kinds, h, i + 1, p) == Between(kinds, h, i, p) + if p(kinds[i]) then 1 else 0
  {
    assert (set j: nat | h < j < i + 1 && p(kinds[j]))
        == (set j: nat | h < j < i && p(kinds[j])) + if p(kinds[i]) then {i} else {};
  }

  lemma {:induction false} NoneBetween(kinds: seq<Kind>, h: nat, p: Kind -> bool)
    requires h < |kinds|
    ensures Between(kinds, h, h + 1, p) == 0
  {
  }

  lemma {:induction false} HunkOpens(kinds: seq<Kind>, i: nat)
    requires i < |kinds| && kinds[i].Opening?
    requires kinds[i].start.oldNo < USIZE_LIMIT && kinds[i].start.newNo < USIZE_LIMIT
    ensures InForce(kinds, i + 1, Some(kinds[i].start))
  {
    NoneBetween(kinds, i, (k: Kind) => k.Shared? || k.Removed?);
    NoneBetween(kinds, i, (k: Kind) => k.Shared? || k.Added?);
    assert CountedTo(kinds, i, i + 1, kinds[i].start);
  }

  /** A line that neither opens nor closes a hunk moves the counters of the sides it is on. */
  lemma {:induction false} HunkGoesOn(kinds: seq<Kind>, h: nat, i: nat, c: Counters)
    requires i < |kinds| && CountedTo(kinds, h, i, c) && !kinds[i].Opening? && !kinds[i].Naming?
    ensures CountedTo(kinds, h, i + 1,
                      Counters(if kinds[i].Shared? || kinds[i].Removed? then Bump(c.oldNo) else c.oldNo,
                               if kinds[i].Shared? || kinds[i].Added? then Bump(c.newNo) else c.newNo))
  {
    var onOld, onNew := (k: Kind) => k.Shared? || k.Removed?, (k: Kind) => k.Shared? || k.Added?;
    BetweenOneMore(kinds, h, i, onOld);
    BetweenOneMore(kinds, h, i, onNew);
    BumpCount(kinds[h].start.oldNo + Between(kinds, h, i, onOld));
    BumpCount(kinds[h].start.newNo + Between(kinds, h, i, onNew));
  }

  lemma {:induction false} NoneGoesOn(kinds: seq<Kind>, i: nat)
    requires i < |kinds| && (kinds[i].Naming? || (!kinds[i].Opening? && !IsOpen(kinds, i)))
    ensures !IsOpen(kinds, i + 1)
  {
    var next := i + 1;
    if h: nat :| InHunk(kinds, h, next) {
      assert h < i ==> InHunk(kinds, h, i);
    }
  }

  /** One line under the counters in force: it is read as the row it makes and as no other, or as none at all. */
  lemma {:induction false} LineReads(lines: seq<string>, kinds: seq<Kind>, i: nat, counters: Option<Counters>)
    requires i < |lines| == |kinds| && InForce(kinds, i, counters)
    requires kinds[i].Opening? ==> kinds[i].start.oldNo < USIZE_LIMIT && kinds[i].start.newNo < USIZE_LIMIT
    ensures var step := StepOf(kinds[i], lines[i], counters);
            if step.None? then forall row: Row :: !ReadsAs(lines, kinds, i, row)
            else
              && (forall row: Row :: ReadsAs(lines, kinds, i, row) <==> row == step.value.0)
              && InForce(kinds, i + 1, step.value.1)
  {
    if kinds[i].Opening? {
      HunkOpens(kinds, i);
    } else if kinds[i].Naming? || counters.None? {
      if kinds[i].Naming? || kinds[i].Truncated? {
        NoneGoesOn(kinds, i);
      }
    } else {
      var h: nat :| CountedTo(kinds, h, i, counters.value);
      HunkGoesOn(kinds, h, i, counters.value);
      forall k: nat | InHunk(kinds, k, i) ensures k == h {
        OneHunk(kinds, h, k, i);
      }
    }
  }

  lemma {:induction false} StartsFit(lines: seq<string>, i: nat)
    requires i < |lines| && Kinds(lines)[i].Opening?
    ensures Kinds(lines)[i].start.oldNo < USIZE_LIMIT && Kinds(lines)[i].start.newNo < USIZE_LIMIT
  {
  }

  /** As long as the parser runs, its rows are what the lines are read as, and its counters are those in force. */
  lemma {:induction false} RunReads(lines: seq<string>, i: nat)
    requires i <= |lines|
    ensures var run := RunSteps(ParseLine, lines[..i], None);
            if run.None? then exists k: nat :: Unread(lines, k)
            else
              && |run.value.0| == i
              && AllReadAs(lines, Kinds(lines), run.value.0)
              && InForce(Kinds(lines), i, run.value.1)
  {
    if i > 0 {
      RunReads(lines, i - 1);
      assert lines[..i] == lines[..i - 1] + [lines[i - 1]];
      RunStepsSnoc(ParseLine, lines[..i - 1], lines[i - 1], None);
      var run := RunSteps(ParseLine, lines[..i - 1], None);
      if run.Some? {
        NextLineReads(lines, i - 1, run.value.1);
      }
    }
  }

  lemma {:induction false} NextLineReads(lines: seq<string>, i: nat, counters: Option<Counters>)
    requires i < |lines| && InForce(Kinds(lines), i, counters)
    ensures var step := ParseLine(lines[i], counters);
            if step.None? then Unread(lines, i)
            else ReadsAs(lines, Kinds(lines), i, step.value.0) && InForce(Kinds(lines), i + 1, step.value.1)
  {
    LineSteps(lines[i], counters);
    if Kinds(lines)[i].Opening? {
      StartsFit(lines, i);
    }
    LineReads(lines, Kinds(lines), i, counters);
  }

  /** Line `k` is read as nothing. */
  ghost predicate Unread(lines: seq<string>, k: nat) {
    k < |lines| && forall row: Row :: !ReadsAs(lines, Kinds(lines), k, row)
  }

  /** The rows of a text are determined by what its lines are read as. */
  lemma {:induction false} RowsAreUnique(lines: seq<string>, rows: seq<Row>, k: nat, row: Row)
    requires AllReadAs(lines, Kinds(lines), rows) && k < |rows| && ReadsAs(lines, Kinds(lines), k, row)
    ensures rows[k] == row
  {
    if IsOpen(Kinds(lines), k) {
      forall h: nat, g: nat | InHunk(Kinds(lines), h, k) && InHunk(Kinds(lines), g, k) ensures h == g {
        OneHunk(Kinds(lines), h, g, k);
      }
    }
  }

  /** Read as nothing are the stray lines, and outside every hunk those that only a hunk can hold. */
  lemma {:induction false} UnreadMeans(lines: seq<string>, k: nat)
    requires k < |lines|
    ensures Unread(lines, k) <==> IsRefused(Kinds(lines), k)
  {
    var kinds := Kinds(lines);
    var counters: Option<Counters> := None;
    if IsOpen(kinds, k) {
      var h: nat :| InHunk(kinds, h, k);
      counters := Some(Counters(OldAt(kinds, h, k), NewAt(kinds, h, k)));
      assert CountedTo(kinds, h, k, counters.value);
    }
    if kinds[k].Opening? {
      StartsFit(lines, k);
    }
    LineReads(lines, kinds, k, counters);
    var step := StepOf(kinds[k], lines[k], counters);
    assert step.Some? ==> ReadsAs(lines, kinds, k, step.value.0);
  }

  lemma {:induction false} ReadIsNotRefused(lines: seq<string>, rows: seq<Row>, k: nat)
    requires |rows| == |lines| && AllReadAs(lines, Kinds(lines), rows)
    ensures !IsRefused(Kinds(lines), k)
  {
    if k < |lines| {
      UnreadMeans(lines, k);
      assert ReadsAs(lines, Kinds(lines), k, rows[k]);
    }
  }

  ghost predicate IsRefused(kinds: seq<Kind>, k: nat) {
    && k < |kinds|
    && match kinds[k]
       case Opening(_) => false
       case Naming => false
       case Truncated => false
       case Stray => true
       case _ => !IsOpen(kinds, k)
  }

  ghost predicate HasOpening(kinds: seq<Kind>) {
    exists i :: 0 <= i < |kinds| && kinds[i].Opening?
  }

  /**
    For every text: it is no diff exactly if it opens no hunk or one of its lines is refused, and otherwise each of
    its lines is read as one row, numbered by the lines of its side since the hunk opened.
   */
  lemma {:induction false} ParsedReadsEveryLine(text: string)
    ensures var lines := Lines(text);
            var kinds, parsed := Kinds(lines), Parsed(text);
            && (parsed.None? <==> !HasOpening(kinds) || exists k: nat :: IsRefused(kinds, k))
            && (parsed.Some? ==> |parsed.value| == |lines| && AllReadAs(lines, kinds, parsed.value))
  {
    var lines := Lines(text);
    var kinds, run := Kinds(lines), ParseLines(lines, None);
    RunReads(lines, |lines|);
    assert lines[..|lines|] == lines;
    if run.None? {
      var k: nat :| Unread(lines, k);
      UnreadMeans(lines, k);
    } else {
      forall k: nat ensures !IsRefused(kinds, k) {
        ReadIsNotRefused(lines, run.value.0, k);
      }
      HunksAreOpenings(lines, run.value.0);
    }
  }

  lemma {:induction false} HunksAreOpenings(lines: seq<string>, rows: seq<Row>)
    requires |rows| == |lines| && AllReadAs(lines, Kinds(lines), rows)
    ensures HasHunk(rows) <==> HasOpening(Kinds(lines))
  {
    var kinds := Kinds(lines);
    assert forall i :: 0 <= i < |rows| ==> (rows[i].Hunk? <==> kinds[i].Opening?);
  }

  /** The rows of a sign are counted one by one. */
  lemma {:induction false} CountSignIs(rows: seq<Row>, sign: char)
    ensures CountSign(rows, sign) == |set i: nat | i < |rows| && rows[i].Body? && rows[i].sign == sign|
  {
    if rows != [] {
      var front, last := rows[..|rows| - 1], rows[|rows| - 1];
      CountSignIs(front, sign);
      assert rows == front + [last];
      CountSignAppend(front, [last], sign);
      assert (set i: nat | i < |rows| && rows[i].Body? && rows[i].sign == sign)
          == (set i: nat | i < |front| && front[i].Body? && front[i].sign == sign)
             + if last.Body? && last.sign == sign then {|front|} else {};
    }
  }
}
