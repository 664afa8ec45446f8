// The unified-diff parser (pkgs/clients/tui/src/diff.rs) and a printer to compare it with.
module Diff {
  import opened Decimal
  import opened Runs
  import opened Text
  import opened Wrappers

  const TRUNCATION := "\U{2026}[truncated:"

  datatype Row =
    | File(line: string)
    | Hunk(line: string)
    | Body(sign: char, oldNo: Option<nat>, newNo: Option<nat>, text: string)
    | Note(line: string)

  /** The line numbers the next body row carries on the old and the new side. */
  datatype Counters = Counters(oldNo: nat, newNo: nat)

  // ----- lines -----

  function StripReturn(s: string): string {
    if s != "" && s[|s| - 1] == '\r' then s[..|s| - 1] else s
  }

  /** Rust's `str::lines`: a carriage return goes only together with the newline after it. */
  function Lines(s: string): seq<string>
    decreases |s|
  {
    if s == "" then []
    else
      var at := Find(s, "\n", 0);
      if at.None? then [s]
      else [StripReturn(s[..at.value])] + Lines(s[at.value + 1..])
  }

  // ----- the parser -----

  function SplitOnce(s: string, pattern: string): Option<(string, string)> {
    var at := Find(s, pattern, 0);
    if at.None? then None else Some((s[..at.value], s[at.value + |pattern|..]))
  }

  function RangeStart(side: string, mark: char): Option<nat> {
    if side == "" || side[0] != mark then None
    else
      var digits := side[1..];
      var parts := SplitOnce(digits, ",");
      ParseUsize(if parts.Some? then parts.value.0 else digits)
  }

  /** The start lines a hunk header `@@ -o,n +o,n @@` gives. */
  function HunkStart(line: string): Option<Counters> {
    if !StartsWith(line, "@@ ") then None
    else
      var outer := SplitOnce(line[3..], " @@");
      if outer.None? then None
      else
        var sides := SplitOnce(outer.value.0, " ");
        if sides.None? then None
        else
          var before := RangeStart(sides.value.0, '-');
          var after := RangeStart(sides.value.1, '+');
          if before.None? || after.None? then None else Some(Counters(before.value, after.value))
  }

  const HEADERS: seq<string> := [
    "diff --git ", "index ", "--- ", "+++ ", "old mode ", "new mode ", "deleted file mode ", "new file mode ",
    "similarity index ", "rename from ", "rename to ", "Binary files "
  ]

  predicate IsFileHeader(line: string) {
    (exists i :: 0 <= i < |HEADERS| && StartsWith(line, HEADERS[i]))
    || line == "--- /dev/null"
    || line == "+++ /dev/null"
  }

  /** A 64-bit counter in a release build. */
  function Bump(n: nat): nat {
    (n + 1) % USIZE_LIMIT
  }

  lemma {:induction false} BumpCount(n: nat)
    ensures Bump(n % USIZE_LIMIT) == (n + 1) % USIZE_LIMIT
  {
  }

  function Advance(c: Counters, sign: char): Counters {
    Counters(if sign != '+' then Bump(c.oldNo) else c.oldNo, if sign != '-' then Bump(c.newNo) else c.newNo)
  }

  function Numbered(sign: char, c: Counters, text: string): Row {
    Body(sign, if sign != '+' then Some(c.oldNo) else None, if sign != '-' then Some(c.newNo) else None, text)
  }

  /** Reads one line under the counters in force: the row it makes and the counters after it. */
  function ParseLine(line: string, counters: Option<Counters>): Option<(Row, Option<Counters>)> {
    var start := HunkStart(line);
    if start.Some? then Some((Hunk(line), start))
    else if IsFileHeader(line) then Some((File(line), None))
    else if StartsWith(line, TRUNCATION) then Some((Note(line), counters))
    else if counters.None? then None
    else
      var c := counters.value;
      if line == "" then Some((Numbered(' ', c, ""), Some(Advance(c, ' '))))
      else if line[0] == '+' || line[0] == '-' || line[0] == ' ' then
        Some((Numbered(line[0], c, line[1..]), Some(Advance(c, line[0]))))
      else if line[0] == '\\' then Some((Note(line), counters))
      else None
  }

  function ParseLines(lines: seq<string>, counters: Option<Counters>): Option<(seq<Row>, Option<Counters>)> {
    RunSteps(ParseLine, lines, counters)
  }

  predicate HasHunk(rows: seq<Row>) {
    exists i :: 0 <= i < |rows| && rows[i].Hunk?
  }

  function Parsed(text: string): Option<seq<Row>> {
    var run := ParseLines(Lines(text), None);
    if run.Some? && HasHunk(run.value.0) then Some(run.value.0) else None
  }

  /** The parser's loop, with its running counters. */
  method Parse(text: string) returns (result: Option<seq<Row>>)
    ensures result == Parsed(text)
  {
    var lines := Lines(text);
    var rows: seq<Row> := [];
    var counters: Option<Counters> := None;
    for i := 0 to |lines|
      invariant RunSteps(ParseLine, lines[..i], None) == Some((rows, counters))
    {
      var step := ParseLine(lines[i], counters);
      RunStepsNext(ParseLine, lines, i, None, rows, counters);
      if step.None? {
        return None;
      }
      rows := rows + [step.value.0];
      counters := step.value.1;
    }
    assert lines[..|lines|] == lines;
    result := if HasHunk(rows) then Some(rows) else None;
  }

  /** How many body rows carry this sign. */
  function CountSign(rows: seq<Row>, sign: char): nat {
    if rows == [] then 0
    else (if rows[0].Body? && rows[0].sign == sign then 1 else 0) + CountSign(rows[1..], sign)
  }

  lemma {:induction false} CountSignAppend(a: seq<Row>, b: seq<Row>, sign: char)
    ensures CountSign(a + b, sign) == CountSign(a, sign) + CountSign(b, sign)
  {
    if a == [] {
      assert a + b == b;
    } else {
      assert (a + b)[1..] == a[1..] + b;
      CountSignAppend(a[1..], b, sign);
    }
  }

  /** The added and removed lines of a diff, or `None` for text that is not one. */
  method Counts(text: string) returns (counts: Option<(nat, nat)>)
    ensures counts == var rows := Parsed(text);
                      if rows.None? then None
                      else Some((CountSign(rows.value, '+'), CountSign(rows.value, '-')))
  {
    var parsed := Parse(text);
    if parsed.None? {
      return None;
    }
    var rows := parsed.value;
    var added: nat, removed: nat := 0, 0;
    for i := 0 to |rows|
      invariant added == CountSign(rows[..i], '+') && removed == CountSign(rows[..i], '-')
    {
      assert rows[..i + 1] == rows[..i] + [rows[i]];
      CountSignAppend(rows[..i], [rows[i]], '+');
      CountSignAppend(rows[..i], [rows[i]], '-');
      if rows[i].Body? {
        if rows[i].sign == '+' {
          added := added + 1;
        } else if rows[i].sign == '-' {
          removed := removed + 1;
        }
      }
    }
    assert rows[..|rows|] == rows;
    counts := Some((added, removed));
  }
}
