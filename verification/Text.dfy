// Small facts about strings: case, prefixes, searching, the order Rust sorts by.
module Text {
  import opened Sequences
  import opened Wrappers

  /** Lower-casing of the ASCII letters; other characters are left alone. */
  function LowerChar(c: char): char {
    if 'A' <= c <= 'Z' then (c as int - 'A' as int + 'a' as int) as char else c
  }

  function Lower(s: string): (r: string)
    ensures |r| == |s|
  {
    seq(|s|, i requires 0 <= i < |s| => LowerChar(s[i]))
  }

  predicate StartsWith<T(==)>(s: seq<T>, prefix: seq<T>) {
    prefix <= s
  }

  predicate EndsWith<T(==)>(s: seq<T>, suffix: seq<T>) {
    |suffix| <= |s| && s[|s| - |suffix|..] == suffix
  }

  /** Whether `pattern` occurs in `s` at `i`. */
  predicate OccursAt(s: string, pattern: string, i: nat) {
    i + |pattern| <= |s| && s[i..i + |pattern|] == pattern
  }

  ghost predicate Occurs(s: string, pattern: string) {
    exists i: nat :: OccursAt(s, pattern, i)
  }

  /** The leftmost occurrence at or after `from`. */
  function Find(s: string, pattern: string, from: nat): (r: Option<nat>)
    requires from <= |s|
    ensures r.Some? ==> from <= r.value && OccursAt(s, pattern, r.value)
    ensures forall i: nat :: from <= i < (if r.Some? then r.value else |s| + 1) ==> !OccursAt(s, pattern, i)
    decreases |s| - from
  {
    if OccursAt(s, pattern, from) then Some(from)
    else if from == |s| then None
    else Find(s, pattern, from + 1)
  }

  predicate IsSpace(c: char) {
    c == ' ' || '\t' <= c <= '\r'
  }

  function Trim(s: string): string
    decreases |s|
  {
    if s == "" then ""
    else if IsSpace(s[0]) then Trim(s[1..])
    else if IsSpace(s[|s| - 1]) then Trim(s[..|s| - 1])
    else s
  }

  /** From `from` to `to` stands `t`, with nothing but whitespace around it. */
  ghost predicate IsTrimmed(s: string, t: string, from: nat, to: nat) {
    && from <= to <= |s| && t == s[from..to]
    && (forall k :: 0 <= k < from ==> IsSpace(s[k]))
    && (forall k :: to <= k < |s| ==> IsSpace(s[k]))
    && (t != "" ==> !IsSpace(t[0]) && !IsSpace(t[|t| - 1]))
  }

  lemma {:induction false} TrimStands(s: string) returns (from: nat, to: nat)
    ensures IsTrimmed(s, Trim(s), from, to)
    decreases |s|
  {
    from, to := 0, |s|;
    if s == "" {
    } else if IsSpace(s[0]) {
      from, to := TrimStands(s[1..]);
      from, to := from + 1, to + 1;
      assert forall k :: 0 < k < |s| ==> s[k] == s[1..][k - 1];
    } else if IsSpace(s[|s| - 1]) {
      from, to := TrimStands(s[..|s| - 1]);
    }
  }

  /** Whatever stands in whitespace with none at its own ends is what trimming leaves. */
  lemma {:induction false} TrimGives(s: string, t: string, from: nat, to: nat)
    requires IsTrimmed(s, t, from, to)
    ensures Trim(s) == t
    decreases |s|
  {
    if s != "" && IsSpace(s[0]) {
      var rest := s[1..];
      assert forall k :: 0 <= k < |rest| ==> rest[k] == s[k + 1];
      TrimGives(rest, t, if from == 0 then 0 else from - 1, if from == 0 then 0 else to - 1);
    } else if s != "" && IsSpace(s[|s| - 1]) {
      assert from == 0;
      assert t != "" ==> t[|t| - 1] == s[to - 1];
      TrimGives(s[..|s| - 1], t, from, to);
    }
  }

  /** The pieces of `s` between whitespace. */
  function Tokens(s: string): seq<string> {
    Pieces(s, IsSpace)
  }

  /** Lexicographic order. */
  predicate LexLeq(a: string, b: string) {
    a == "" || (b != "" && (a[0] < b[0] || (a[0] == b[0] && LexLeq(a[1..], b[1..]))))
  }

  ghost predicate DifferFirstAt(a: string, b: string, i: nat) {
    i < |a| && i < |b| && a[..i] == b[..i] && a[i] != b[i]
  }

  /** A string comes before those it begins, and before those with a larger character where they first differ. */
  lemma {:induction false} LexLeqMeans(a: string, b: string)
    ensures LexLeq(a, b) <==> a <= b || exists i: nat :: DifferFirstAt(a, b, i) && a[i] < b[i]
  {
    if a != "" && b != "" && a[0] == b[0] {
      LexLeqMeans(a[1..], b[1..]);
      assert a == [a[0]] + a[1..] && b == [b[0]] + b[1..];
      if i: nat :| DifferFirstAt(a[1..], b[1..], i) && a[1..][i] < b[1..][i] {
        assert a[..i + 1] == [a[0]] + a[1..][..i] && b[..i + 1] == [b[0]] + b[1..][..i];
        assert DifferFirstAt(a, b, i + 1);
      }
      if i: nat :| DifferFirstAt(a, b, i) && a[i] < b[i] {
        assert a[1..][..i - 1] == a[..i][1..] && b[1..][..i - 1] == b[..i][1..];
        assert DifferFirstAt(a[1..], b[1..], i - 1);
      }
    } else if a != "" && b != "" {
      assert DifferFirstAt(a, b, 0);
    }
  }

  lemma {:induction false} LexTotal(a: string, b: string)
    ensures LexLeq(a, b) || LexLeq(b, a)
  {
    if a != "" && b != "" && a[0] == b[0] {
      LexTotal(a[1..], b[1..]);
    }
  }

  lemma {:induction false} LexTransitive(a: string, b: string, c: string)
    requires LexLeq(a, b) && LexLeq(b, c)
    ensures LexLeq(a, c)
  {
    if a != "" && a[0] == b[0] == c[0] {
      LexTransitive(a[1..], b[1..], c[1..]);
    }
  }

  predicate Sorted(xs: seq<string>) {
    forall i, j :: 0 <= i < j < |xs| ==> LexLeq(xs[i], xs[j])
  }

  function InsertSorted(x: string, xs: seq<string>): (r: seq<string>)
    requires Sorted(xs)
    ensures Sorted(r)
    ensures multiset(r) == multiset(xs) + multiset{x}
  {
    if xs == [] then [x]
    else if LexLeq(x, xs[0]) then
      assert forall j :: 0 <= j < |xs| ==> LexLeq(x, xs[j]) by {
        forall j | 0 < j < |xs| ensures LexLeq(x, xs[j]) { LexTransitive(x, xs[0], xs[j]); }
      }
      [x] + xs
    else
      var rest := InsertSorted(x, xs[1..]);
      assert forall y :: y in rest ==> LexLeq(xs[0], y) by {
        LexTotal(x, xs[0]);
        forall y | y in rest ensures LexLeq(xs[0], y) {
          assert y in multiset(rest);
          assert y == x || y in multiset(xs[1..]);
        }
      }
      assert xs == [xs[0]] + xs[1..];
      [xs[0]] + rest
  }

  /** The sorted arrangement of `xs`. */
  function Sort(xs: seq<string>): (r: seq<string>)
    ensures Sorted(r)
    ensures multiset(r) == multiset(xs)
    ensures |r| == |xs|
  {
    if xs == [] then []
    else
      var r := InsertSorted(xs[0], Sort(xs[1..]));
      assert xs == [xs[0]] + xs[1..];
      assert |multiset(r)| == |multiset(xs)|;
      r
  }
}
