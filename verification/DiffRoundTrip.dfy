// Printing hunks as a unified diff and parsing them back
// (pkgs/clients/tui/src/diff.rs; the format is POSIX.1-2017, utility `diff`, "Diff -u or -U Output Format").
module DiffRoundTrip {
  import opened Decimal
  import opened Diff
  import opened Runs
  import opened Text
  import opened Wrappers

  datatype Kind = Added | Removed | Same

  function Mark(kind: Kind): char {
    match kind
    case Added => '+'
    case Removed => '-'
    case Same => ' '
  }

  datatype BodyLine = BodyLine(kind: Kind, text: string)

  datatype HunkText = HunkText(oldStart: nat, newStart: nat, heading: string, body: seq<BodyLine>)

  // ----- the printer -----

  /** How many of the first `k` body lines are on the old side. */
  function OldBefore(body: seq<BodyLine>, k: nat): nat
    requires k <= |body|
  {
    if k == 0 then 0 else OldBefore(body, k - 1) + (if body[k - 1].kind.Added? then 0 else 1)
  }

  function NewBefore(body: seq<BodyLine>, k: nat): nat
    requires k <= |body|
  {
    if k == 0 then 0 else NewBefore(body, k - 1) + (if body[k - 1].kind.Removed? then 0 else 1)
  }

  /** A range of one line is printed as its line number alone. */
  function Range(start: nat, count: nat): string {
    if count == 1 then Digits(start) else Digits(start) + "," + Digits(count)
  }

  function Ranges(h: HunkText): string {
    "-" + Range(h.oldStart, OldBefore(h.body, |h.body|)) + " " + ("+" + Range(h.newStart, NewBefore(h.body, |h.body|)))
  }

  function Header(h: HunkText): string {
    "@@ " + (Ranges(h) + " @@" + h.heading)
  }

  function PrintedLine(b: BodyLine): string {
    [Mark(b.kind)] + b.text
  }

  function BodyLines(body: seq<BodyLine>): seq<string> {
    seq(|body|, i requires 0 <= i < |body| => PrintedLine(body[i]))
  }

  function HunkLines(h: HunkText): seq<string> {
    [Header(h)] + BodyLines(h.body)
  }

  function DiffLines(hunks: seq<HunkText>): seq<string> {
    if hunks == [] then [] else HunkLines(hunks[0]) + DiffLines(hunks[1..])
  }

  /** Every line with its newline. */
  function Terminated(lines: seq<string>): string {
    if lines == [] then "" else lines[0] + "\n" + Terminated(lines[1..])
  }

  function Print(hunks: seq<HunkText>): string {
    Terminated(DiffLines(hunks))
  }

  // ----- what the parser should give -----

  /** The line numbers before body line `k`: the hunk's start plus the earlier lines on each side. */
  function CountersAt(h: HunkText, k: nat): Counters
    requires k <= |h.body|
  {
    Counters((h.oldStart + OldBefore(h.body, k)) % USIZE_LIMIT, (h.newStart + NewBefore(h.body, k)) % USIZE_LIMIT)
  }

  function BodyRow(h: HunkText, k: nat): Row
    requires k < |h.body|
  {
    Numbered(Mark(h.body[k].kind), CountersAt(h, k), h.body[k].text)
  }

  function BodyRows(h: HunkText): seq<Row> {
    seq(|h.body|, k requires 0 <= k < |h.body| => BodyRow(h, k))
  }

  function HunkRows(h: HunkText): seq<Row> {
    [Row.Hunk(Header(h))] + BodyRows(h)
  }

  function ExpectedRows(hunks: seq<HunkText>): seq<Row> {
    if hunks == [] then [] else HunkRows(hunks[0]) + ExpectedRows(hunks[1..])
  }

  // ----- which hunks the format can carry -----

  predicate OneLine(s: string) {
    '\n' !in s && (s == "" || s[|s| - 1] != '\r')
  }

  /** A removed line may not spell `--- ` with its sign, nor an added one `+++ `. */
  predicate SpellsFileHeader(b: BodyLine) {
    || (b.kind.Removed? && StartsWith(b.text, "-- "))
    || (b.kind.Added? && StartsWith(b.text, "++ "))
  }

  predicate Printable(h: HunkText) {
    && h.oldStart < USIZE_LIMIT && h.newStart < USIZE_LIMIT
    && OneLine(h.heading)
    && forall i :: 0 <= i < |h.body| ==> OneLine(h.body[i].text) && !SpellsFileHeader(h.body[i])
  }

  // ----- the hunk header -----

  lemma {:induction false} FindIs(s: string, pattern: string, i: nat)
    requires i <= |s| && OccursAt(s, pattern, i)
    requires forall j: nat :: j < i ==> !OccursAt(s, pattern, j)
    ensures Find(s, pattern, 0) == Some(i)
  {
  }

  lemma {:induction false} SplitOnceChar(a: string, sep: char, b: string)
    requires sep !in a
    ensures SplitOnce(a + [sep] + b, [sep]) == Some((a, b))
  {
    var s := a + [sep] + b;
    forall j: nat | j < |a| ensures !OccursAt(s, [sep], j) {
      assert s[j] == a[j];
      assert s[j..j + 1] == [s[j]];
    }
    assert s[|a|..|a| + 1] == [sep];
    FindIs(s, [sep], |a|);
    assert s[..|a|] == a && s[|a| + 1..] == b;
  }

  lemma {:induction false} SplitOnceAbsent(a: string, sep: char)
    requires sep !in a
    ensures SplitOnce(a, [sep]).None?
  {
    forall j: nat ensures !OccursAt(a, [sep], j) {
      if j < |a| {
        assert a[j] in a;
        assert a[j..j + 1] == [a[j]];
      }
    }
  }

  lemma {:induction false} RangeChars(start: nat, count: nat)
    ensures ' ' !in Range(start, count) && '@' !in Range(start, count)
  {
  }

  lemma {:induction false} RangeStartOfRange(mark: char, start: nat, count: nat)
    ensures RangeStart([mark] + Range(start, count), mark) == if start < USIZE_LIMIT then Some(start) else None
  {
    var side := [mark] + Range(start, count);
    assert side[1..] == Range(start, count);
    ParseInvertsDigits(start);
    if count == 1 {
      SplitOnceAbsent(Digits(start), ',');
    } else {
      SplitOnceChar(Digits(start), ',', Digits(count));
    }
  }

  lemma {:induction false} SplitAtMarker(ranges: string, heading: string)
    requires '@' !in ranges
    ensures SplitOnce(ranges + " @@" + heading, " @@") == Some((ranges, heading))
  {
    var s := ranges + " @@" + heading;
    forall j: nat | j < |ranges| ensures !OccursAt(s, " @@", j) {
      assert s[j + 1] == if j + 1 < |ranges| then ranges[j + 1] else ' ';
      assert j + 1 < |ranges| ==> ranges[j + 1] in ranges;
      assert s[j..j + 3][1] == s[j + 1];
    }
    assert s[|ranges|..|ranges| + 3] == " @@";
    FindIs(s, " @@", |ranges|);
    assert s[..|ranges|] == ranges && s[|ranges| + 3..] == heading;
  }

  lemma {:induction false} HeaderStart(h: HunkText)
    ensures HunkStart(Header(h))
            == if h.oldStart < USIZE_LIMIT && h.newStart < USIZE_LIMIT then Some(Counters(h.oldStart, h.newStart))
               else None
  {
    var oldCount, newCount := OldBefore(h.body, |h.body|), NewBefore(h.body, |h.body|);
    var oldSide, newSide := "-" + Range(h.oldStart, oldCount), "+" + Range(h.newStart, newCount);
    RangeChars(h.oldStart, oldCount);
    RangeChars(h.newStart, newCount);
    assert Header(h)[3..] == Ranges(h) + " @@" + h.heading;
    SplitAtMarker(Ranges(h), h.heading);
    assert Ranges(h) == oldSide + [' '] + newSide;
    SplitOnceChar(oldSide, ' ', newSide);
    RangeStartOfRange('-', h.oldStart, oldCount);
    RangeStartOfRange('+', h.newStart, newCount);
  }

  // ----- the lines of a printed diff -----

  function Newlines(s: string): nat {
    if s == "" then 0 else (if s[0] == '\n' then 1 else 0) + Newlines(s[1..])
  }

  lemma {:induction false} NoNewlines(s: string)
    ensures Newlines(s) == 0 <==> '\n' !in s
  {
    if s != "" {
      NoNewlines(s[1..]);
    }
  }

  lemma {:induction false} LinesAtNewline(a: string, rest: string)
    requires '\n' !in a
    ensures Lines(a + "\n" + rest) == [StripReturn(a)] + Lines(rest)
  {
    SplitOnceChar(a, '\n', rest);
  }

  lemma {:induction false} FirstNewline(s: string) returns (a: string, b: string)
    requires '\n' in s
    ensures s == a + "\n" + b && '\n' !in a
    ensures Newlines(s) == 1 + Newlines(b)
  {
    if s[0] == '\n' {
      a, b := "", s[1..];
    } else {
      var a';
      a', b := FirstNewline(s[1..]);
      a := [s[0]] + a';
    }
  }

  lemma {:induction false} LinesOfOneMore(line: string, rest: string)
    ensures |Lines(line + "\n" + rest)| == 1 + Newlines(line) + |Lines(rest)|
    decreases |line|
  {
    NoNewlines(line);
    if '\n' in line {
      var a, b := FirstNewline(line);
      assert line + "\n" + rest == a + "\n" + (b + "\n" + rest);
      LinesAtNewline(a, b + "\n" + rest);
      LinesOfOneMore(b, rest);
    } else {
      LinesAtNewline(line, rest);
    }
  }

  predicate NewlineFree(lines: seq<string>) {
    forall i :: 0 <= i < |lines| ==> '\n' !in lines[i]
  }

  function Stripped(lines: seq<string>): seq<string> {
    seq(|lines|, i requires 0 <= i < |lines| => StripReturn(lines[i]))
  }

  lemma {:induction false} StrippedCons(lines: seq<string>)
    requires lines != []
    ensures Stripped(lines) == [StripReturn(lines[0])] + Stripped(lines[1..])
    ensures NewlineFree(lines) <==> '\n' !in lines[0] && NewlineFree(lines[1..])
  {
    assert lines == [lines[0]] + lines[1..];
  }

  /** Printed lines come back one for one, without a final carriage return, exactly when none holds a newline. */
  lemma {:induction false} LinesOfTerminated(lines: seq<string>)
    ensures |Lines(Terminated(lines))| >= |lines|
    ensures |Lines(Terminated(lines))| == |lines| <==> NewlineFree(lines)
    ensures NewlineFree(lines) ==> Lines(Terminated(lines)) == Stripped(lines)
  {
    if lines != [] {
      LinesOfTerminated(lines[1..]);
      LinesOfOneMore(lines[0], Terminated(lines[1..]));
      NoNewlines(lines[0]);
      StrippedCons(lines);
      if NewlineFree(lines) {
        LinesAtNewline(lines[0], Terminated(lines[1..]));
      }
    }
  }

  // ----- parsing printed lines -----

  /** What a row shows of the line it was read from. */
  function Shown(row: Row): string {
    match row
    case Body(sign, _, _, text) => [sign] + text
    case _ => row.line
  }

  /** A printed line whose row can come back: one line, and of the kind its row says. */
  predicate Faithful(line: string, row: Row) {
    && OneLine(line)
    && (row.Hunk? ==> HunkStart(line).Some?)
    && (row.Body? ==> !IsFileHeader(line))
  }

  ghost predicate AllFaithful(lines: seq<string>, rows: seq<Row>) {
    && |lines| == |rows|
    && forall i :: 0 <= i < |rows| ==> Faithful(lines[i], rows[i])
  }

  lemma {:induction false} BodyLineHeaders(b: BodyLine)
    ensures HunkStart(PrintedLine(b)).None?
    ensures !StartsWith(PrintedLine(b), TRUNCATION)
    ensures IsFileHeader(PrintedLine(b)) <==> SpellsFileHeader(b)
  {
    assert PrintedLine(b)[0] == Mark(b.kind);
    HeaderBySign(PrintedLine(b));
    assert "--- "[1..] == "-- " && "+++ "[1..] == "++ ";
    StartsWithMark(Mark(b.kind), b.text, "--- ");
    StartsWithMark(Mark(b.kind), b.text, "+++ ");
  }

  lemma {:induction false} HeaderBySign(line: string)
    requires line != "" && (line[0] == ' ' || line[0] == '-' || line[0] == '+')
    ensures IsFileHeader(line) <==> StartsWith(line, "--- ") || StartsWith(line, "+++ ")
  {
    assert HEADERS[2] == "--- " && HEADERS[3] == "+++ ";
    forall i | 0 <= i < |HEADERS| && StartsWith(line, HEADERS[i]) ensures i == 2 || i == 3 {
      assert HEADERS[i] != "" && HEADERS[i][0] == line[0];
    }
  }

  lemma {:induction false} StartsWithMark(mark: char, text: string, header: string)
    requires header != ""
    ensures StartsWith([mark] + text, header) <==> mark == header[0] && StartsWith(text, header[1..])
  {
    var line := [mark] + text;
    assert line[1..] == text;
    if mark == header[0] && StartsWith(text, header[1..]) {
      assert header == [mark] + header[1..];
    }
  }

  lemma {:induction false} OldBeforeGrows(h: HunkText, k: nat)
    requires k < |h.body|
    ensures Advance(CountersAt(h, k), Mark(h.body[k].kind)) == CountersAt(h, k + 1)
  {
    BumpCount(h.oldStart + OldBefore(h.body, k));
    BumpCount(h.newStart + NewBefore(h.body, k));
  }

  lemma {:induction false} ParseBodyLine(h: HunkText, k: nat)
    requires k < |h.body| && !SpellsFileHeader(h.body[k])
    ensures ParseLine(PrintedLine(h.body[k]), Some(CountersAt(h, k)))
            == Some((BodyRow(h, k), Some(CountersAt(h, k + 1))))
  {
    var line := PrintedLine(h.body[k]);
    BodyLineHeaders(h.body[k]);
    OldBeforeGrows(h, k);
    assert line[0] == Mark(h.body[k].kind) && line[1..] == h.body[k].text;
  }

  lemma {:induction false} ParseBody(h: HunkText, k: nat)
    requires k <= |h.body|
    requires forall i :: 0 <= i < |h.body| ==> !SpellsFileHeader(h.body[i])
    ensures RunSteps(ParseLine, BodyLines(h.body)[k..], Some(CountersAt(h, k)))
            == Some((BodyRows(h)[k..], Some(CountersAt(h, |h.body|))))
    decreases |h.body| - k
  {
    var lines := BodyLines(h.body)[k..];
    if k < |h.body| {
      ParseBodyLine(h, k);
      ParseBody(h, k + 1);
      assert lines[0] == PrintedLine(h.body[k]);
      assert lines[1..] == BodyLines(h.body)[k + 1..];
      assert BodyRows(h)[k..] == [BodyRow(h, k)] + BodyRows(h)[k + 1..];
    } else {
      assert lines == [] && BodyRows(h)[k..] == [];
    }
  }

  lemma {:induction false} ParseFromHeader(h: HunkText, line: string, counters: Option<Counters>)
    requires HunkStart(line) == Some(CountersAt(h, 0))
    requires forall i :: 0 <= i < |h.body| ==> !SpellsFileHeader(h.body[i])
    ensures RunSteps(ParseLine, [line] + BodyLines(h.body), counters)
            == Some(([Row.Hunk(line)] + BodyRows(h), Some(CountersAt(h, |h.body|))))
  {
    ParseBody(h, 0);
    assert BodyLines(h.body)[0..] == BodyLines(h.body) && BodyRows(h)[0..] == BodyRows(h);
    RunStepsCons(ParseLine, line, BodyLines(h.body), counters,
                 Row.Hunk(line), Some(CountersAt(h, 0)), BodyRows(h), Some(CountersAt(h, |h.body|)));
  }

  lemma {:induction false} ParseHunk(h: HunkText, counters: Option<Counters>)
    requires Printable(h)
    ensures RunSteps(ParseLine, HunkLines(h), counters) == Some((HunkRows(h), Some(CountersAt(h, |h.body|))))
  {
    HeaderStart(h);
    CountersAtHeader(h);
    ParseFromHeader(h, Header(h), counters);
  }

  lemma {:induction false} CountersAtHeader(h: HunkText)
    requires h.oldStart < USIZE_LIMIT && h.newStart < USIZE_LIMIT
    ensures CountersAt(h, 0) == Counters(h.oldStart, h.newStart)
  {
    assert OldBefore(h.body, 0) == 0 && NewBefore(h.body, 0) == 0;
  }

  lemma {:induction false} ParseHunks(hunks: seq<HunkText>, counters: Option<Counters>)
    requires forall i :: 0 <= i < |hunks| ==> Printable(hunks[i])
    ensures RunSteps(ParseLine, DiffLines(hunks), counters).Some?
    ensures RunSteps(ParseLine, DiffLines(hunks), counters).value.0 == ExpectedRows(hunks)
    decreases |hunks|
  {
    if hunks != [] {
      ParseHunk(hunks[0], counters);
      ParseHunks(hunks[1..], Some(CountersAt(hunks[0], |hunks[0].body|)));
      RunStepsAppend(ParseLine, HunkLines(hunks[0]), DiffLines(hunks[1..]), counters);
    }
  }

  // ----- from rows back to lines -----

  predicate ReadFrom(row: Row, line: string) {
    && (Shown(row) == line || line == "")
    && (row.Hunk? ==> HunkStart(line).Some?)
    && (row.Body? ==> !IsFileHeader(line))
  }

  lemma {:induction false} RowReadsItsLine(line: string, counters: Option<Counters>)
    requires ParseLine(line, counters).Some?
    ensures ReadFrom(ParseLine(line, counters).value.0, line)
  {
    if line != "" {
      assert [line[0]] + line[1..] == line;
    }
  }

  lemma {:induction false} RowsReadTheirLines(lines: seq<string>, rows: seq<Row>)
    requires RunSteps(ParseLine, lines, None).Some? && rows == RunSteps(ParseLine, lines, None).value.0
    ensures |rows| == |lines|
    ensures forall i :: 0 <= i < |lines| ==> ReadFrom(rows[i], lines[i])
  {
    RunStepsLength(ParseLine, lines, None);
    forall i | 0 <= i < |lines| ensures ReadFrom(rows[i], lines[i]) {
      var counters := RunStepsAt(ParseLine, lines, None, i);
      RowReadsItsLine(lines[i], counters);
    }
  }

  lemma {:induction false} HunkLineAt(h: HunkText, k: nat)
    requires k < |h.body|
    ensures HunkLines(h)[k + 1] == PrintedLine(h.body[k]) && HunkRows(h)[k + 1] == BodyRow(h, k)
  {
    assert HunkLines(h)[1..] == BodyLines(h.body);
    assert HunkRows(h)[1..] == BodyRows(h);
    assert HunkLines(h)[1..][k] == PrintedLine(h.body[k]) && HunkRows(h)[1..][k] == BodyRow(h, k);
  }

  lemma {:induction false} ExpectedShowsPrinted(hunks: seq<HunkText>)
    ensures |ExpectedRows(hunks)| == |DiffLines(hunks)|
    ensures forall i :: 0 <= i < |DiffLines(hunks)| ==>
              DiffLines(hunks)[i] != "" && Shown(ExpectedRows(hunks)[i]) == DiffLines(hunks)[i]
  {
    if hunks != [] {
      ExpectedShowsPrinted(hunks[1..]);
      var lines, rows := HunkLines(hunks[0]), HunkRows(hunks[0]);
      forall i | 0 <= i < |lines| ensures lines[i] != "" && Shown(rows[i]) == lines[i] {
        if i > 0 {
          HunkLineAt(hunks[0], i - 1);
        }
      }
    }
  }

  lemma {:induction false} FaithfulHeader(h: HunkText)
    ensures Faithful(HunkLines(h)[0], HunkRows(h)[0])
            <==> h.oldStart < USIZE_LIMIT && h.newStart < USIZE_LIMIT && OneLine(h.heading)
  {
    HeaderStart(h);
    HeaderOneLine(h);
  }

  lemma {:induction false} FaithfulBodyLine(h: HunkText, k: nat)
    requires k < |h.body|
    ensures Faithful(HunkLines(h)[k + 1], HunkRows(h)[k + 1])
            <==> OneLine(h.body[k].text) && !SpellsFileHeader(h.body[k])
  {
    BodyLineHeaders(h.body[k]);
    BodyOneLine(h.body[k]);
    HunkLineAt(h, k);
  }

  lemma {:induction false} FaithfulIsPrintable(h: HunkText)
    requires AllFaithful(HunkLines(h), HunkRows(h))
    ensures Printable(h)
  {
    FaithfulHeader(h);
    forall k | 0 <= k < |h.body| ensures OneLine(h.body[k].text) && !SpellsFileHeader(h.body[k]) {
      FaithfulBodyLine(h, k);
    }
  }

  lemma {:induction false} PrintableLine(h: HunkText, i: nat)
    requires i < |HunkRows(h)| && Printable(h)
    ensures Faithful(HunkLines(h)[i], HunkRows(h)[i])
  {
    if i == 0 {
      FaithfulHeader(h);
    } else {
      var k := i - 1;
      assert OneLine(h.body[k].text);
      FaithfulBodyLine(h, k);
    }
  }

  lemma {:induction false} PrintableIsFaithful(h: HunkText)
    requires Printable(h)
    ensures AllFaithful(HunkLines(h), HunkRows(h))
  {
    var lines, rows := HunkLines(h), HunkRows(h);
    forall i | 0 <= i < |rows| ensures Faithful(lines[i], rows[i]) {
      PrintableLine(h, i);
    }
  }

  lemma {:induction false} FaithfulHunk(h: HunkText)
    ensures AllFaithful(HunkLines(h), HunkRows(h)) <==> Printable(h)
  {
    if Printable(h) {
      PrintableIsFaithful(h);
    }
    if AllFaithful(HunkLines(h), HunkRows(h)) {
      FaithfulIsPrintable(h);
    }
  }

  lemma {:induction false} BodyOneLine(b: BodyLine)
    ensures OneLine(PrintedLine(b)) <==> OneLine(b.text)
  {
    var line := PrintedLine(b);
    assert line[|line| - 1] == if b.text == "" then Mark(b.kind) else b.text[|b.text| - 1];
    assert '\n' in line <==> '\n' in b.text;
  }

  lemma {:induction false} HeaderOneLine(h: HunkText)
    ensures OneLine(Header(h)) <==> OneLine(h.heading)
  {
    var front := "@@ " + (Ranges(h) + " @@");
    assert Header(h) == front + h.heading;
    assert front[|front| - 1] == '@';
    RangesOneLine(h);
    OneLineAfter(front, h.heading);
  }

  lemma {:induction false} OneLineAfter(front: string, rest: string)
    requires front != "" && '\n' !in front && front[|front| - 1] != '\r'
    ensures OneLine(front + rest) <==> OneLine(rest)
  {
    var line := front + rest;
    assert line[|line| - 1] == if rest == "" then front[|front| - 1] else rest[|rest| - 1];
  }

  lemma {:induction false} BothOneLine(a: string, b: string)
    requires '\n' !in a && '\n' !in b
    ensures '\n' !in a + b
  {
  }

  lemma {:induction false} DigitsOneLine(n: nat)
    ensures '\n' !in Digits(n)
  {
    assert AllDigits(Digits(n));
  }

  lemma {:induction false} RangesOneLine(h: HunkText)
    ensures '\n' !in Ranges(h)
  {
    var before, after := OldBefore(h.body, |h.body|), NewBefore(h.body, |h.body|);
    RangeOneLine(h.oldStart, before);
    RangeOneLine(h.newStart, after);
    BothOneLine("-", Range(h.oldStart, before));
    BothOneLine("-" + Range(h.oldStart, before), " ");
    BothOneLine("+", Range(h.newStart, after));
    BothOneLine("-" + Range(h.oldStart, before) + " ", "+" + Range(h.newStart, after));
  }

  lemma {:induction false} RangeOneLine(start: nat, count: nat)
    ensures '\n' !in Range(start, count)
  {
    DigitsOneLine(start);
    DigitsOneLine(count);
    BothOneLine(Digits(start), ",");
    BothOneLine(Digits(start) + ",", Digits(count));
  }

  lemma {:induction false} FrontIsFaithful(a: seq<string>, b: seq<string>, ra: seq<Row>, rb: seq<Row>)
    requires |a| == |ra| && AllFaithful(a + b, ra + rb)
    ensures AllFaithful(a, ra)
  {
    forall i | 0 <= i < |ra| ensures Faithful(a[i], ra[i]) {
      assert Faithful((a + b)[i], (ra + rb)[i]);
    }
  }

  lemma {:induction false} BackIsFaithful(a: seq<string>, b: seq<string>, ra: seq<Row>, rb: seq<Row>)
    requires |a| == |ra| && AllFaithful(a + b, ra + rb)
    ensures AllFaithful(b, rb)
  {
    forall i | 0 <= i < |rb| ensures Faithful(b[i], rb[i]) {
      var k := |a| + i;
      assert Faithful((a + b)[k], (ra + rb)[k]);
    }
  }

  lemma {:induction false} BothAreFaithful(a: seq<string>, b: seq<string>, ra: seq<Row>, rb: seq<Row>)
    requires AllFaithful(a, ra) && AllFaithful(b, rb)
    ensures AllFaithful(a + b, ra + rb)
  {
    var lines, rows := a + b, ra + rb;
    forall i | 0 <= i < |rows| ensures Faithful(lines[i], rows[i]) {
      if i < |ra| {
        assert lines[i] == a[i] && rows[i] == ra[i];
      } else {
        var k := i - |ra|;
        assert lines[i] == b[k] && rows[i] == rb[k];
      }
    }
  }

  lemma {:induction false} AllFaithfulAppend(a: seq<string>, b: seq<string>, ra: seq<Row>, rb: seq<Row>)
    requires |a| == |ra|
    ensures AllFaithful(a + b, ra + rb) <==> AllFaithful(a, ra) && AllFaithful(b, rb)
  {
    if AllFaithful(a + b, ra + rb) {
      FrontIsFaithful(a, b, ra, rb);
      BackIsFaithful(a, b, ra, rb);
    } else if AllFaithful(a, ra) && AllFaithful(b, rb) {
      BothAreFaithful(a, b, ra, rb);
    }
  }

  lemma {:induction false} FaithfulHunks(hunks: seq<HunkText>)
    ensures AllFaithful(DiffLines(hunks), ExpectedRows(hunks)) <==> forall i :: 0 <= i < |hunks| ==> Printable(hunks[i])
  {
    if hunks != [] {
      FaithfulHunks(hunks[1..]);
      FaithfulHunk(hunks[0]);
      AllFaithfulAppend(HunkLines(hunks[0]), DiffLines(hunks[1..]), HunkRows(hunks[0]), ExpectedRows(hunks[1..]));
      AllPrintableCons(hunks);
    }
  }

  lemma {:induction false} AllPrintableCons(hunks: seq<HunkText>)
    requires hunks != []
    ensures (forall i :: 0 <= i < |hunks| ==> Printable(hunks[i]))
            <==> Printable(hunks[0]) && forall i :: 0 <= i < |hunks[1..]| ==> Printable(hunks[1..][i])
  {
    var rest := hunks[1..];
    if forall i :: 0 <= i < |hunks| ==> Printable(hunks[i]) {
      forall i | 0 <= i < |rest| ensures Printable(rest[i]) {
        assert rest[i] == hunks[i + 1];
      }
    }
    if Printable(hunks[0]) && forall i :: 0 <= i < |rest| ==> Printable(rest[i]) {
      forall i | 0 <= i < |hunks| ensures Printable(hunks[i]) {
        if i > 0 {
          var k := i - 1;
          assert hunks[i] == rest[k];
        }
      }
    }
  }

  lemma {:induction false} FaithfulLinesComeBack(lines: seq<string>, rows: seq<Row>)
    requires AllFaithful(lines, rows)
    ensures Lines(Terminated(lines)) == lines
  {
    forall i | 0 <= i < |lines| ensures '\n' !in lines[i] && StripReturn(lines[i]) == lines[i] {
      assert Faithful(lines[i], rows[i]);
    }
    LinesOfTerminated(lines);
    assert Stripped(lines) == lines;
  }

  lemma {:induction false} ParsedFromRun(text: string, rows: seq<Row>, end: Option<Counters>)
    requires RunSteps(ParseLine, Lines(text), None) == Some((rows, end))
    requires HasHunk(rows)
    ensures Parsed(text) == Some(rows)
  {
  }

  lemma {:induction false} PrintableGivesRows(hunks: seq<HunkText>)
    requires hunks != []
    requires forall i :: 0 <= i < |hunks| ==> Printable(hunks[i])
    ensures Parsed(Print(hunks)) == Some(ExpectedRows(hunks))
  {
    var rows := ExpectedRows(hunks);
    FaithfulHunks(hunks);
    FaithfulLinesComeBack(DiffLines(hunks), rows);
    ParseHunks(hunks, None);
    assert rows[0] == Row.Hunk(Header(hunks[0]));
    assert HasHunk(rows);
    ParsedFromRun(Print(hunks), rows, RunSteps(ParseLine, DiffLines(hunks), None).value.1);
  }

  lemma {:induction false} FaithfulIfReadBack(line: string, row: Row)
    requires line != "" && line[0] != '\r' && '\n' !in line
    requires Shown(row) == line && ReadFrom(row, StripReturn(line))
    ensures Faithful(line, row)
  {
  }

  lemma {:induction false} RowsNeedPrintable(hunks: seq<HunkText>)
    requires Parsed(Print(hunks)) == Some(ExpectedRows(hunks))
    ensures forall i :: 0 <= i < |hunks| ==> Printable(hunks[i])
  {
    var lines, rows := DiffLines(hunks), ExpectedRows(hunks);
    RowsReadTheirLines(Lines(Print(hunks)), rows);
    ReadBackIsFaithful(hunks, lines, rows, Lines(Print(hunks)));
    FaithfulHunks(hunks);
  }

  lemma {:induction false} ReadBackIsFaithful(hunks: seq<HunkText>, lines: seq<string>, rows: seq<Row>,
                                              read: seq<string>)
    requires lines == DiffLines(hunks) && rows == ExpectedRows(hunks) && read == Lines(Terminated(lines))
    requires |rows| == |read| && forall i :: 0 <= i < |read| ==> ReadFrom(rows[i], read[i])
    ensures AllFaithful(lines, rows)
  {
    ExpectedShowsPrinted(hunks);
    LinesOfTerminated(lines);
    forall i | 0 <= i < |rows| ensures Faithful(lines[i], rows[i]) {
      assert read[i] == Stripped(lines)[i] == StripReturn(lines[i]);
      FirstIsNoReturn(hunks, i);
      assert ReadFrom(rows[i], read[i]);
      FaithfulIfReadBack(lines[i], rows[i]);
    }
  }

  lemma {:induction false} FirstIsNoReturn(hunks: seq<HunkText>, i: nat)
    requires i < |DiffLines(hunks)|
    ensures DiffLines(hunks)[i] != "" && DiffLines(hunks)[i][0] != '\r'
  {
    if i < |HunkLines(hunks[0])| {
      if i > 0 {
        assert HunkLines(hunks[0])[i] == PrintedLine(hunks[0].body[i - 1]);
      }
    } else {
      FirstIsNoReturn(hunks[1..], i - |HunkLines(hunks[0])|);
    }
  }

  /**
    Printing and parsing gives every sign, text and line number back exactly when there is a hunk and every
    hunk is printable.
   */
  lemma {:induction false} RoundTripExactlyWhenPrintable(hunks: seq<HunkText>)
    ensures Parsed(Print(hunks)) == Some(ExpectedRows(hunks))
            <==> hunks != [] && forall i :: 0 <= i < |hunks| ==> Printable(hunks[i])
  {
    if hunks != [] && forall i :: 0 <= i < |hunks| ==> Printable(hunks[i]) {
      PrintableGivesRows(hunks);
    }
    if Parsed(Print(hunks)) == Some(ExpectedRows(hunks)) {
      RowsNeedPrintable(hunks);
    }
  }

  // ----- counts -----

  function KindCount(body: seq<BodyLine>, kind: Kind): nat {
    if body == [] then 0 else (if body[0].kind == kind then 1 else 0) + KindCount(body[1..], kind)
  }

  function KindTotal(hunks: seq<HunkText>, kind: Kind): nat {
    if hunks == [] then 0 else KindCount(hunks[0].body, kind) + KindTotal(hunks[1..], kind)
  }

  lemma {:induction false} BodyCount(h: HunkText, k: nat, kind: Kind)
    requires k <= |h.body|
    ensures CountSign(BodyRows(h)[k..], Mark(kind)) == KindCount(h.body[k..], kind)
    decreases |h.body| - k
  {
    if k < |h.body| {
      BodyCount(h, k + 1, kind);
      assert BodyRows(h)[k..][0] == BodyRow(h, k);
      assert BodyRows(h)[k..][1..] == BodyRows(h)[k + 1..];
      assert h.body[k..][1..] == h.body[k + 1..];
    }
  }

  lemma {:induction false} ExpectedCount(hunks: seq<HunkText>, kind: Kind)
    ensures CountSign(ExpectedRows(hunks), Mark(kind)) == KindTotal(hunks, kind)
  {
    if hunks != [] {
      var h := hunks[0];
      BodyCount(h, 0, kind);
      assert BodyRows(h)[0..] == BodyRows(h) && h.body[0..] == h.body;
      assert HunkRows(h)[1..] == BodyRows(h);
      CountSignAppend(HunkRows(h), ExpectedRows(hunks[1..]), Mark(kind));
      ExpectedCount(hunks[1..], kind);
    }
  }

  /** The counts of a printed diff are its added and removed lines. */
  lemma {:induction false} CountsOfPrinted(hunks: seq<HunkText>)
    requires hunks != [] && forall i :: 0 <= i < |hunks| ==> Printable(hunks[i])
    ensures Parsed(Print(hunks)).Some?
    ensures CountSign(Parsed(Print(hunks)).value, '+') == KindTotal(hunks, Added)
    ensures CountSign(Parsed(Print(hunks)).value, '-') == KindTotal(hunks, Removed)
  {
    PrintableGivesRows(hunks);
    ExpectedCount(hunks, Added);
    ExpectedCount(hunks, Removed);
  }
}
