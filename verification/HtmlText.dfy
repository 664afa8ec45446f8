// HTML to text: dropped elements and tags (pkgs/extensions/tool-fetch/src/lib.rs).
module HtmlText {
  import opened Text
  import opened Wrappers

  function OpenTag(name: string): string {
    "<" + name
  }

  function CloseTag(name: string): string {
    "</" + name + ">"
  }

  /** Where the element opened at `start` ends: after its closing tag, or with the text. */
  function ElementEnd(s: string, name: string, start: nat): (end: nat)
    requires start <= |s|
    requires OccursAt(Lower(s), OpenTag(name), start)
    ensures start + |OpenTag(name)| <= end <= |s|
  {
    var close := Find(Lower(s), CloseTag(name), start);
    if close.Some? then
      NoCloseInsideOpen(Lower(s), name, start, close.value);
      close.value + |CloseTag(name)|
    else |s|
  }

  lemma {:induction false} NoCloseInsideOpen(s: string, name: string, start: nat, at: nat)
    requires start <= at
    requires OccursAt(s, OpenTag(name), start) && OccursAt(s, CloseTag(name), at)
    ensures start + |OpenTag(name)| <= at + |CloseTag(name)|
  {
  }

  /** One scan: every element of this name, matched case-blind, becomes one space. */
  ghost function Without(s: string, name: string): string
    decreases |s|
  {
    var open := Find(Lower(s), OpenTag(name), 0);
    if open.None? then s
    else s[..open.value] + " " + Without(s[ElementEnd(s, name, open.value)..], name)
  }

  lemma {:induction false} LowerSlice(s: string, i: nat, j: nat)
    requires i <= j <= |s|
    ensures Lower(s[i..j]) == Lower(s)[i..j]
  {
  }

  lemma {:induction false} LowerConcat(a: string, b: string)
    ensures Lower(a + b) == Lower(a) + Lower(b)
  {
  }

  /** A space separates occurrences of a pattern that has none. */
  lemma {:induction false} OccursAcrossSpace(a: string, b: string, pattern: string, i: nat)
    requires ' ' !in pattern && pattern != ""
    ensures OccursAt(a + " " + b, pattern, i)
            <==> OccursAt(a, pattern, i) || (i > |a| && OccursAt(b, pattern, i - |a| - 1))
  {
    var s := a + " " + b;
    if i + |pattern| <= |a| {
      assert s[i..i + |pattern|] == a[i..i + |pattern|];
    } else if i > |a| {
      if i + |pattern| <= |s| {
        assert s[i..i + |pattern|] == b[i - |a| - 1..i - |a| - 1 + |pattern|];
      }
    } else if i + |pattern| <= |s| {
      assert s[|a|] == ' ';
      assert s[i..i + |pattern|][|a| - i] == ' ';
    }
  }

  predicate TagName(name: string) {
    name != "" && ' ' !in name
  }

  lemma {:induction false} ElementEndShifts(a: string, b: string, name: string, i: nat)
    requires TagName(name) && i <= |b|
    requires OccursAt(Lower(b), OpenTag(name), i)
    ensures OccursAt(Lower(a + " " + b), OpenTag(name), |a| + 1 + i)
    ensures ElementEnd(a + " " + b, name, |a| + 1 + i) == |a| + 1 + ElementEnd(b, name, i)
  {
    var s := a + " " + b;
    LowerConcat(a + " ", b);
    LowerConcat(a, " ");
    assert Lower(s) == Lower(a) + " " + Lower(b);
    OccursAcrossSpace(Lower(a), Lower(b), OpenTag(name), |a| + 1 + i);
    FindShifts(Lower(s), |a| + 1, Lower(b), CloseTag(name), i);
  }

  function Shifted(at: Option<nat>, shift: nat): Option<nat> {
    if at.Some? then Some(shift + at.value) else None
  }

  /** Finding in a suffix and finding in the whole differ by where the suffix starts. */
  lemma {:induction false} FindShifts(s: string, k: nat, b: string, pattern: string, from: nat)
    requires |s| == k + |b| && s[k..] == b && from <= |b|
    ensures Find(s, pattern, k + from) == Shifted(Find(b, pattern, from), k)
    decreases |b| - from
  {
    assert OccursAt(s, pattern, k + from) <==> OccursAt(b, pattern, from) by {
      if from + |pattern| <= |b| {
        assert s[k + from..k + from + |pattern|] == b[from..from + |pattern|];
      }
    }
    if !OccursAt(b, pattern, from) && from < |b| {
      FindShifts(s, k, b, pattern, from + 1);
    }
  }

  lemma {:induction false} FindSkips(s: string, pattern: string, from: nat, to: nat)
    requires from <= to <= |s|
    requires forall j: nat :: from <= j < to ==> !OccursAt(s, pattern, j)
    ensures Find(s, pattern, from) == Find(s, pattern, to)
    decreases |s| - from
  {
    if from < to {
      FindSkips(s, pattern, from + 1, to);
    }
  }

  /** Text before a space that opens no element is scanned through. */
  lemma {:induction false} WithoutAfterSpace(a: string, b: string, name: string)
    requires TagName(name) && !Occurs(Lower(a), OpenTag(name))
    ensures Without(a + " " + b, name) == a + " " + Without(b, name)
  {
    var s := a + " " + b;
    FirstOpenAfterSpace(a, b, s, name);
    var found := Find(Lower(b), OpenTag(name), 0);
    if found.Some? {
      ElementEndShifts(a, b, name, found.value);
      WithoutOpened(a, b, s, name, found.value, ElementEnd(b, name, found.value));
    }
  }

  /** The first opening tag is at `i`, and its element ends at `end`. */
  ghost predicate Opens(s: string, name: string, i: nat, end: nat) {
    Find(Lower(s), OpenTag(name), 0) == Some(i) && i <= |s| && end == ElementEnd(s, name, i)
  }

  lemma {:induction false} WithoutOpened(a: string, b: string, s: string, name: string, i: nat, end: nat)
    requires s == a + " " + b && Opens(b, name, i, end) && Opens(s, name, |a| + 1 + i, |a| + 1 + end)
    ensures Without(s, name) == a + " " + Without(b, name)
  {
    var front, rest := b[..i], b[end..];
    SplicedSlices(a, b, s, i, end);
    WithoutStep(s, name, |a| + 1 + i, |a| + 1 + end, a + " " + front, rest);
    WithoutStep(b, name, i, end, front, rest);
    Regroup(Without(s, name), Without(b, name), a, front, Without(rest, name));
  }

  lemma {:induction false} FirstOpenAfterSpace(a: string, b: string, s: string, name: string)
    requires TagName(name) && !Occurs(Lower(a), OpenTag(name))
    requires s == a + " " + b
    ensures Find(Lower(s), OpenTag(name), 0) == Shifted(Find(Lower(b), OpenTag(name), 0), |a| + 1)
  {
    LowerConcat(a + " ", b);
    LowerConcat(a, " ");
    assert Lower(s) == Lower(a) + " " + Lower(b);
    forall j: nat | j <= |a| ensures !OccursAt(Lower(s), OpenTag(name), j) {
      OccursAcrossSpace(Lower(a), Lower(b), OpenTag(name), j);
    }
    FindSkips(Lower(s), OpenTag(name), 0, |a| + 1);
    FindShifts(Lower(s), |a| + 1, Lower(b), OpenTag(name), 0);
  }

  lemma {:induction false} WithoutStep(s: string, name: string, i: nat, end: nat, front: string, rest: string)
    requires Opens(s, name, i, end) && front == s[..i] && rest == s[end..]
    ensures Without(s, name) == front + " " + Without(rest, name)
  {
  }

  lemma {:induction false} SplicedSlices(a: string, b: string, s: string, i: nat, end: nat)
    requires s == a + " " + b && i <= |b| && end <= |b|
    ensures s[..|a| + 1 + i] == a + " " + b[..i]
    ensures s[|a| + 1 + end..] == b[end..]
  {
  }

  lemma {:induction false} Regroup(whole: string, part: string, a: string, front: string, rest: string)
    requires whole == a + " " + front + " " + rest && part == front + " " + rest
    ensures whole == a + " " + part
  {
  }

  lemma {:induction false} BeforeFirstOpen(s: string, pattern: string, k: nat)
    requires k <= |s|
    requires !Occurs(Lower(s), pattern) || Find(Lower(s), pattern, 0) == Some(k)
    ensures pattern != "" ==> !Occurs(Lower(s[..k]), pattern)
  {
    LowerSlice(s, 0, k);
    forall i: nat | OccursAt(Lower(s[..k]), pattern, i) ensures pattern == "" {
      assert Lower(s[..k])[i..i + |pattern|] == Lower(s)[i..i + |pattern|];
      assert OccursAt(Lower(s), pattern, i);
    }
  }

  lemma {:induction false} SuffixHasNoMore(s: string, pattern: string, k: nat)
    requires k <= |s| && !Occurs(Lower(s), pattern)
    ensures !Occurs(Lower(s[k..]), pattern)
  {
    LowerSlice(s, k, |s|);
    forall i: nat | OccursAt(Lower(s[k..]), pattern, i) ensures false {
      assert Lower(s[k..])[i..i + |pattern|] == Lower(s)[k + i..k + i + |pattern|];
      assert OccursAt(Lower(s), pattern, k + i);
    }
  }

  lemma {:induction false} NoOccurrenceAcrossSpace(a: string, b: string, pattern: string)
    requires ' ' !in pattern && pattern != ""
    requires !Occurs(Lower(a), pattern) && !Occurs(Lower(b), pattern)
    ensures !Occurs(Lower(a + " " + b), pattern)
  {
    LowerConcat(a + " ", b);
    LowerConcat(a, " ");
    forall i: nat ensures !OccursAt(Lower(a) + " " + Lower(b), pattern, i) {
      OccursAcrossSpace(Lower(a), Lower(b), pattern, i);
    }
    assert Lower(a + " " + b) == Lower(a) + " " + Lower(b);
  }

  /** The scan leaves no such element open, and opens no other kind of element. */
  lemma {:induction false} WithoutIsClean(s: string, name: string, other: string)
    requires TagName(name) && TagName(other)
    requires other == name || !Occurs(Lower(s), OpenTag(other))
    ensures !Occurs(Lower(Without(s, name)), OpenTag(other))
    decreases |s|
  {
    var open := Find(Lower(s), OpenTag(name), 0);
    if open.Some? {
      var end := ElementEnd(s, name, open.value);
      BeforeFirstOpen(s, OpenTag(other), open.value);
      if other != name {
        SuffixHasNoMore(s, OpenTag(other), end);
      }
      WithoutIsClean(s[end..], name, other);
      NoOccurrenceAcrossSpace(s[..open.value], Without(s[end..], name), OpenTag(other));
    } else if other == name {
      forall i: nat ensures !OccursAt(Lower(s), OpenTag(name), i) {
      }
    }
  }

  /** All scans, one name after another. */
  ghost function WithoutAll(s: string, names: seq<string>): string
    decreases |names|
  {
    if names == [] then s else WithoutAll(Without(s, names[0]), names[1..])
  }

  lemma {:induction false} WithoutAllIsClean(s: string, names: seq<string>, other: string)
    requires TagName(other) && forall k :: 0 <= k < |names| ==> TagName(names[k])
    requires other in names || !Occurs(Lower(s), OpenTag(other))
    ensures !Occurs(Lower(WithoutAll(s, names)), OpenTag(other))
    decreases |names|
  {
    if names != [] {
      if other == names[0] || !Occurs(Lower(s), OpenTag(other)) {
        WithoutIsClean(s, names[0], other);
      }
      WithoutAllIsClean(Without(s, names[0]), names[1..], other);
    }
  }

  lemma {:induction false} WithoutAllSnoc(s: string, names: seq<string>, last: string)
    ensures WithoutAll(s, names + [last]) == Without(WithoutAll(s, names), last)
    decreases |names|
  {
    if names == [] {
      assert [last][1..] == [];
    } else {
      assert (names + [last])[1..] == names[1..] + [last];
      WithoutAllSnoc(Without(s, names[0]), names[1..], last);
    }
  }

  /**
    Drops each named element, searching the changed text from its start every time. The rewriting
    ends, does what one scan per name does, and leaves none of the named elements open.
   */
  method DropElements(body: string, names: seq<string>) returns (out: string)
    requires forall k :: 0 <= k < |names| ==> TagName(names[k])
    ensures out == WithoutAll(body, names)
    ensures forall k :: 0 <= k < |names| ==> !Occurs(Lower(out), OpenTag(names[k]))
  {
    out := body;
    for n := 0 to |names|
      invariant out == WithoutAll(body, names[..n])
    {
      var name := names[n];
      ghost var before := out;
      var searching := true;
      while searching
        invariant Without(out, name) == Without(before, name)
        invariant !searching ==> out == Without(before, name)
        decreases searching, |out|
      {
        var start := Find(Lower(out), OpenTag(name), 0);
        if start.None? {
          searching := false;
        } else {
          var end := ElementEnd(out, name, start.value);
          BeforeFirstOpen(out, OpenTag(name), start.value);
          WithoutAfterSpace(out[..start.value], out[end..], name);
          out := out[..start.value] + " " + out[end..];
        }
      }
      WithoutAllSnoc(body, names[..n], name);
      assert names[..n + 1] == names[..n] + [name];
    }
    assert names[..|names|] == names;
    forall k | 0 <= k < |names| ensures !Occurs(Lower(out), OpenTag(names[k])) {
      WithoutAllIsClean(body, names, names[k]);
    }
  }

  // ----- what stays -----

  /** A stretch from one opening to the end of the first closing after it, or of the text if there is none. */
  ghost predicate IsStretch(s: string, open: string, close: string, from: nat, to: nat) {
    && OccursAt(s, open, from) && from < to <= |s|
    && (|| (to == |s| && forall j: nat :: from <= j ==> !OccursAt(s, close, j))
        || exists at: nat ::
             && from <= at && OccursAt(s, close, at) && to == at + |close|
             && forall j: nat :: from <= j < at ==> !OccursAt(s, close, j))
  }

  ghost predicate Covers(cuts: seq<(nat, nat)>, k: nat) {
    exists i :: 0 <= i < |cuts| && cuts[i].0 <= k < cuts[i].1
  }

  ghost predicate Apart(cuts: seq<(nat, nat)>) {
    forall i, j :: 0 <= i < j < |cuts| ==> cuts[i].1 <= cuts[j].0
  }

  ghost predicate AllStretches(s: string, open: string, close: string, from: nat, cuts: seq<(nat, nat)>) {
    forall i :: 0 <= i < |cuts| ==> from <= cuts[i].0 && IsStretch(s, open, close, cuts[i].0, cuts[i].1)
  }

  ghost predicate AllCovered(s: string, open: string, from: nat, cuts: seq<(nat, nat)>) {
    forall k: nat :: from <= k && OccursAt(s, open, k) ==> Covers(cuts, k)
  }

  /** Stretches from `from` on, in order; each opening there is in one of them. */
  ghost predicate AreStretches(s: string, open: string, close: string, from: nat, cuts: seq<(nat, nat)>) {
    AllStretches(s, open, close, from, cuts) && Apart(cuts) && AllCovered(s, open, from, cuts)
  }

  /** The elements of a name, in whatever case: from an opening tag to the end of the first closing tag after it. */
  ghost predicate AreElements(s: string, name: string, from: nat, cuts: seq<(nat, nat)>) {
    AreStretches(Lower(s), "<" + name, "</" + name + ">", from, cuts)
  }

  /** The text from `from` on, with one space for each cut and everything else as it is. */
  ghost function Spaced(s: string, from: nat, cuts: seq<(nat, nat)>): string
    requires from <= |s|
    requires forall i :: 0 <= i < |cuts| ==> from <= cuts[i].0 < cuts[i].1 <= |s|
    requires Apart(cuts)
    decreases |cuts|
  {
    if cuts == [] then s[from..] else s[from..cuts[0].0] + " " + Spaced(s, cuts[0].1, cuts[1..])
  }

  lemma {:induction false} ElementEndMeans(s: string, name: string, start: nat)
    requires start <= |s| && OccursAt(Lower(s), OpenTag(name), start)
    ensures IsStretch(Lower(s), OpenTag(name), CloseTag(name), start, ElementEnd(s, name, start))
  {
    var close := Find(Lower(s), CloseTag(name), start);
    forall j: nat | start <= j < (if close.Some? then close.value else |s| + 1)
      ensures !OccursAt(Lower(s), CloseTag(name), j)
    {
    }
  }

  /** Where a suffix finds a pattern is where the whole text does from there on. */
  lemma {:induction false} SuffixFinds(s: string, pattern: string, from: nat, i: nat)
    requires from <= |s| && i <= |s| - from
    ensures Find(Lower(s), pattern, from + i) == Shifted(Find(Lower(s[from..]), pattern, i), from)
  {
    LowerSlice(s, from, |s|);
    assert s[from..|s|] == s[from..] && Lower(s)[from..|s|] == Lower(s)[from..];
    FindShifts(Lower(s), from, Lower(s[from..]), pattern, i);
  }

  lemma {:induction false} SuffixEnds(s: string, name: string, from: nat, start: nat)
    requires from <= start <= |s|
    requires OccursAt(Lower(s), OpenTag(name), start) && OccursAt(Lower(s[from..]), OpenTag(name), start - from)
    ensures ElementEnd(s[from..], name, start - from) == ElementEnd(s, name, start) - from
  {
    SuffixFinds(s, CloseTag(name), from, start - from);
  }

  lemma {:induction false} SuffixOpens(s: string, name: string, from: nat, start: nat)
    requires from <= |s| && Find(Lower(s), OpenTag(name), from) == Some(start)
    ensures from <= start <= |s| && OccursAt(Lower(s), OpenTag(name), start)
    ensures Find(Lower(s[from..]), OpenTag(name), 0) == Some(start - from)
    ensures OccursAt(Lower(s[from..]), OpenTag(name), start - from)
  {
    SuffixFinds(s, OpenTag(name), from, 0);
  }

  lemma {:induction false} SliceOfSuffix(s: string, from: nat, i: nat)
    requires from <= i <= |s|
    ensures s[from..][..i - from] == s[from..i] && s[from..][i - from..] == s[i..]
  {
  }

  /** One step of the scan, said of positions in the whole text. */
  lemma {:induction false} CutOnce(s: string, name: string, from: nat, start: nat)
    requires from <= |s| && Find(Lower(s), OpenTag(name), from) == Some(start)
    ensures start <= |s| && from <= start < ElementEnd(s, name, start)
    ensures Without(s[from..], name) == s[from..start] + " " + Without(s[ElementEnd(s, name, start)..], name)
  {
    var end := ElementEnd(s, name, start);
    SuffixOpens(s, name, from, start);
    SuffixEnds(s, name, from, start);
    SliceOfSuffix(s, from, start);
    SliceOfSuffix(s, from, end);
    WithoutStep(s[from..], name, start - from, end - from, s[from..start], s[end..]);
  }

  lemma {:induction false} ElementsFrom(s: string, name: string, from: nat) returns (cuts: seq<(nat, nat)>)
    requires from <= |s|
    ensures AreStretches(Lower(s), OpenTag(name), CloseTag(name), from, cuts)
    ensures Without(s[from..], name) == Spaced(s, from, cuts)
    decreases |s| - from
  {
    var open := Find(Lower(s), OpenTag(name), from);
    if open.None? {
      cuts := [];
      SuffixFinds(s, OpenTag(name), from, 0);
      NothingOpens(Lower(s), OpenTag(name), from);
    } else {
      CutOnce(s, name, from, open.value);
      var end := ElementEnd(s, name, open.value);
      ElementEndMeans(s, name, open.value);
      var rest := ElementsFrom(s, name, end);
      cuts := [(open.value, end)] + rest;
      FirstStretch(Lower(s), OpenTag(name), CloseTag(name), from, (open.value, end), rest);
      assert cuts[1..] == rest;
    }
  }

  lemma {:induction false} NothingOpens(s: string, open: string, from: nat)
    requires from <= |s| && Find(s, open, from).None?
    ensures forall k: nat :: from <= k ==> !OccursAt(s, open, k)
  {
  }

  lemma {:induction false} CoversMore(first: (nat, nat), rest: seq<(nat, nat)>, k: nat)
    ensures first.0 <= k < first.1 || Covers(rest, k) ==> Covers([first] + rest, k)
  {
    var cuts := [first] + rest;
    assert cuts[0] == first;
    if i :| 0 <= i < |rest| && rest[i].0 <= k < rest[i].1 {
      assert cuts[i + 1] == rest[i];
    }
  }

  lemma {:induction false} ApartMore(first: (nat, nat), rest: seq<(nat, nat)>)
    requires Apart(rest) && forall i :: 0 <= i < |rest| ==> first.1 <= rest[i].0
    ensures Apart([first] + rest)
  {
    var cuts := [first] + rest;
    forall i, j | 0 <= i < j < |cuts| ensures cuts[i].1 <= cuts[j].0 {
      assert cuts[j] == rest[j - 1];
      assert i > 0 ==> cuts[i] == rest[i - 1];
    }
  }

  lemma {:induction false} StretchesMore(s: string, open: string, close: string, from: nat, first: (nat, nat),
                                         rest: seq<(nat, nat)>)
    requires from <= first.0 && IsStretch(s, open, close, first.0, first.1)
    requires AllStretches(s, open, close, first.1, rest)
    ensures AllStretches(s, open, close, from, [first] + rest)
  {
    var cuts := [first] + rest;
    forall i | 0 <= i < |cuts| ensures from <= cuts[i].0 && IsStretch(s, open, close, cuts[i].0, cuts[i].1) {
      assert i > 0 ==> cuts[i] == rest[i - 1];
    }
  }

  lemma {:induction false} CoveredMore(s: string, open: string, from: nat, first: (nat, nat), rest: seq<(nat, nat)>)
    requires AllCovered(s, open, first.1, rest) && from <= first.0
    requires forall k: nat :: from <= k < first.0 ==> !OccursAt(s, open, k)
    ensures AllCovered(s, open, from, [first] + rest)
  {
    forall k: nat | from <= k && OccursAt(s, open, k) ensures Covers([first] + rest, k) {
      CoversMore(first, rest, k);
    }
  }

  lemma {:induction false} FirstStretch(s: string, open: string, close: string, from: nat, first: (nat, nat),
                                        rest: seq<(nat, nat)>)
    requires from <= first.0 && IsStretch(s, open, close, first.0, first.1)
    requires AreStretches(s, open, close, first.1, rest)
    requires forall k: nat :: from <= k < first.0 ==> !OccursAt(s, open, k)
    ensures AreStretches(s, open, close, from, [first] + rest)
  {
    StretchesMore(s, open, close, from, first, rest);
    ApartMore(first, rest);
    CoveredMore(s, open, from, first, rest);
  }

  /** The scan cuts out exactly the elements of that name, one space for each, and keeps all the text between them. */
  lemma {:induction false} WithoutKeepsTheRest(s: string, name: string) returns (cuts: seq<(nat, nat)>)
    ensures AreElements(s, name, 0, cuts) && Without(s, name) == Spaced(s, 0, cuts)
  {
    cuts := ElementsFrom(s, name, 0);
    assert s[0..] == s;
  }
}
