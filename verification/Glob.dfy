// Glob matching of file names and paths (pkgs/extensions/guest-fs/src/lib.rs).
module Glob {
  import opened Sequences
  import opened Wrappers

  // ----- what a name pattern means -----

  /** What one pattern character may stand for. */
  predicate CharAdmits(p: char, run: string) {
    if p == '*' then true
    else if p == '?' then |run| == 1
    else run == [p]
  }

  ghost predicate IsAlignment(pattern: string, name: string, runs: seq<string>) {
    && |runs| == |pattern|
    && Concat(runs) == name
    && forall i :: 0 <= i < |runs| ==> CharAdmits(pattern[i], runs[i])
  }

  /** The name can be cut into one run per pattern character, each run admitted by its character. */
  ghost predicate NameGlob(pattern: string, name: string) {
    exists runs :: IsAlignment(pattern, name, runs)
  }

  /** The same relation by recursion on positions, which is what the loop is compared with. */
  ghost predicate GlobFrom(pat: string, text: string, pi: nat, ti: nat)
    requires pi <= |pat| && ti <= |text|
    decreases |pat| - pi, |text| - ti
  {
    if pi == |pat| then ti == |text|
    else if pat[pi] == '*' then GlobFrom(pat, text, pi + 1, ti) || (ti < |text| && GlobFrom(pat, text, pi, ti + 1))
    else ti < |text| && (pat[pi] == '?' || pat[pi] == text[ti]) && GlobFrom(pat, text, pi + 1, ti + 1)
  }

  /** A star that can end its run at `k` can start it anywhere before. */
  lemma {:induction false} StarStartsEarlier(pat: string, text: string, pi: nat, ti: nat, k: nat)
    requires pi < |pat| && pat[pi] == '*' && ti <= k <= |text|
    requires GlobFrom(pat, text, pi, k)
    ensures GlobFrom(pat, text, pi, ti)
    decreases k - ti
  {
    if ti < k {
      StarStartsEarlier(pat, text, pi, ti + 1, k);
    }
  }

  /** A star-free stretch of pattern moves both positions by the same amount. */
  lemma {:induction false} StarFreeStretch(pat: string, text: string, from: nat, to: nat, k: nat)
    requires from <= to <= |pat| && k <= |text|
    requires forall i :: from <= i < to ==> pat[i] != '*'
    requires GlobFrom(pat, text, from, k)
    ensures k + (to - from) <= |text| && GlobFrom(pat, text, to, k + (to - from))
    decreases |pat| - from
  {
    if from < to {
      StarFreeStretch(pat, text, from + 1, to, k + 1);
    }
  }

  /** A star whose run starts at `ti` lets the stretch after it end at some later `k`. */
  lemma {:induction false} StarReaches(pat: string, text: string, star: nat, pi: nat, ti: nat) returns (k: nat)
    requires star < pi <= |pat| && ti <= |text| && pat[star] == '*'
    requires forall i :: star < i < pi ==> pat[i] != '*'
    requires GlobFrom(pat, text, star, ti)
    ensures ti + (pi - star - 1) <= k <= |text| && GlobFrom(pat, text, pi, k)
    decreases |text| - ti
  {
    if GlobFrom(pat, text, star + 1, ti) {
      StarFreeStretch(pat, text, star + 1, pi, ti);
      k := ti + (pi - star - 1);
    } else {
      k := StarReaches(pat, text, star, pi, ti + 1);
    }
  }

  lemma {:induction false} AlignmentGivesGlob(pat: string, text: string, pi: nat, ti: nat, runs: seq<string>)
    requires pi <= |pat| && ti <= |text|
    requires IsAlignment(pat[pi..], text[ti..], runs)
    ensures GlobFrom(pat, text, pi, ti)
    decreases |pat| - pi
  {
    if pi < |pat| {
      var k := ti + |runs[0]|;
      assert text[ti..] == runs[0] + Concat(runs[1..]);
      assert text[k..] == text[ti..][|runs[0]|..] == Concat(runs[1..]);
      assert forall i :: 0 <= i < |runs[1..]| ==> pat[pi + 1..][i] == pat[pi..][i + 1] && runs[1..][i] == runs[i + 1];
      assert CharAdmits(pat[pi..][0], runs[0]);
      AlignmentGivesGlob(pat, text, pi + 1, k, runs[1..]);
      if pat[pi] == '*' {
        StarStartsEarlier(pat, text, pi, ti, k);
      } else {
        assert runs[0] == [text[ti]] by {
          assert text[ti..][0] == runs[0][0];
        }
      }
    }
  }

  lemma {:induction false} GlobGivesAlignment(pat: string, text: string, pi: nat, ti: nat) returns (runs: seq<string>)
    requires pi <= |pat| && ti <= |text|
    requires GlobFrom(pat, text, pi, ti)
    ensures IsAlignment(pat[pi..], text[ti..], runs)
    decreases |pat| - pi
  {
    if pi == |pat| {
      runs := [];
    } else {
      var k: nat;
      if pat[pi] == '*' {
        k := StarReaches(pat, text, pi, pi + 1, ti);
      } else {
        k := ti + 1;
      }
      var rest := GlobGivesAlignment(pat, text, pi + 1, k);
      runs := [text[ti..k]] + rest;
      assert runs[1..] == rest;
      assert text[ti..] == text[ti..k] + text[k..];
      assert forall i :: 1 <= i < |runs| ==> runs[i] == rest[i - 1] && pat[pi..][i] == pat[pi + 1..][i - 1];
    }
  }

  lemma {:induction false} NameGlobByPositions(pat: string, text: string)
    ensures NameGlob(pat, text) <==> GlobFrom(pat, text, 0, 0)
  {
    assert pat[0..] == pat && text[0..] == text;
    if NameGlob(pat, text) {
      var runs :| IsAlignment(pat, text, runs);
      AlignmentGivesGlob(pat, text, 0, 0, runs);
    }
    if GlobFrom(pat, text, 0, 0) {
      var runs := GlobGivesAlignment(pat, text, 0, 0);
    }
  }

  // ----- the matcher -----

  predicate AllStars(pat: string) {
    forall i :: 0 <= i < |pat| ==> pat[i] == '*'
  }

  /** The matcher's answer from one state of its loop; `star` is the latest star and `eaten` where its run ends. */
  predicate Resume(pat: string, text: string, pi: nat, ti: nat, star: Option<nat>, eaten: nat)
    requires pi <= |pat| && eaten <= ti <= |text|
    requires star.Some? ==> star.value < pi
    decreases |pat| - (if star.Some? then star.value + 1 else 0), |text| - eaten, |pat| - pi
  {
    if ti == |text| then AllStars(pat[pi..])
    else if pi < |pat| && (pat[pi] == '?' || pat[pi] == text[ti]) then
      Resume(pat, text, pi + 1, ti + 1, star, eaten)
    else if pi < |pat| && pat[pi] == '*' then
      Resume(pat, text, pi + 1, ti, Some(pi), ti)
    else if star.Some? then
      Resume(pat, text, star.value + 1, eaten + 1, star, eaten + 1)
    else false
  }

  predicate MatchName(pattern: string, name: string) {
    Resume(pattern, name, 0, 0, None, 0)
  }

  /** The loop itself: on a name without `*` its answer is the glob relation. */
  method MatchNameLoop(pattern: string, name: string) returns (matched: bool)
    ensures matched == MatchName(pattern, name)
    ensures '*' !in name ==> (matched <==> NameGlob(pattern, name))
  {
    if '*' !in name {
      MatchNameIsGlob(pattern, name);
    }
    var pi: nat, ti: nat := 0, 0;
    var star: Option<nat> := None;
    var eaten: nat := 0;
    while ti < |name|
      invariant pi <= |pattern| && eaten <= ti <= |name|
      invariant star.Some? ==> star.value < pi
      invariant Resume(pattern, name, pi, ti, star, eaten) == MatchName(pattern, name)
      decreases |pattern| - (if star.Some? then star.value + 1 else 0), |name| - eaten, |pattern| - pi
    {
      if pi < |pattern| && (pattern[pi] == '?' || pattern[pi] == name[ti]) {
        pi := pi + 1;
        ti := ti + 1;
      } else if pi < |pattern| && pattern[pi] == '*' {
        star := Some(pi);
        eaten := ti;
        pi := pi + 1;
      } else if star.Some? {
        eaten := eaten + 1;
        ti := eaten;
        pi := star.value + 1;
      } else {
        return false;
      }
    }
    return AllStars(pattern[pi..]);
  }

  // ----- the matcher against the meaning -----

  /** Between the latest star and `pi` there is no other star, and that stretch has matched the text just read. */
  ghost predicate StretchRead(pat: string, text: string, pi: nat, ti: nat, star: Option<nat>, eaten: nat) {
    && pi <= |pat| && eaten <= ti <= |text|
    && (star.Some? ==>
          && star.value < pi
          && pat[star.value] == '*'
          && ti - eaten == pi - star.value - 1
          && forall i :: star.value < i < pi ==> pat[i] != '*')
  }

  /** The star may still end its run somewhere past `eaten`. */
  ghost predicate LaterEnd(pat: string, text: string, star: Option<nat>, eaten: nat) {
    star.Some? && star.value < |pat| && eaten < |text| && GlobFrom(pat, text, star.value, eaten + 1)
  }

  /** Giving up on an earlier star loses nothing: whatever it could still reach, the new star reaches too. */
  lemma {:induction false} EarlierStarAddsNothing(pat: string, text: string, pi: nat, ti: nat, star: Option<nat>,
                                                  eaten: nat)
    requires StretchRead(pat, text, pi, ti, star, eaten)
    requires pi < |pat| && pat[pi] == '*'
    requires LaterEnd(pat, text, star, eaten)
    ensures GlobFrom(pat, text, pi, ti)
  {
    var k := StarReaches(pat, text, star.value, pi, eaten + 1);
    StarStartsEarlier(pat, text, pi, ti, k);
  }

  lemma {:induction false} StarsMatchNothing(pat: string, text: string, pi: nat)
    requires pi <= |pat|
    ensures GlobFrom(pat, text, pi, |text|) <==> AllStars(pat[pi..])
    decreases |pat| - pi
  {
    if pi < |pat| {
      StarsMatchNothing(pat, text, pi + 1);
      assert pat[pi..] == [pat[pi]] + pat[pi + 1..];
      assert AllStars(pat[pi..]) <==> pat[pi] == '*' && AllStars(pat[pi + 1..]) by {
        if AllStars(pat[pi..]) {
          assert pat[pi + 1..] == pat[pi..][1..];
          assert pat[pi..][0] == '*';
        }
      }
    }
  }

  /** At the end of the text no later end is left, since the text read since `eaten` has run out. */
  lemma {:induction false} NoLaterEndAtTheEnd(pat: string, text: string, pi: nat, star: Option<nat>, eaten: nat)
    requires StretchRead(pat, text, pi, |text|, star, eaten)
    ensures LaterEnd(pat, text, star, eaten) ==> false
  {
    if LaterEnd(pat, text, star, eaten) {
      var k := StarReaches(pat, text, star.value, pi, eaten + 1);
    }
  }

  /** What the loop still has to decide is the glob relation here or at some later end of the latest star. */
  lemma {:induction false} ResumeDecides(pat: string, text: string, pi: nat, ti: nat, star: Option<nat>, eaten: nat)
    requires '*' !in text
    requires StretchRead(pat, text, pi, ti, star, eaten)
    ensures Resume(pat, text, pi, ti, star, eaten)
            <==> GlobFrom(pat, text, pi, ti) || LaterEnd(pat, text, star, eaten)
    decreases |pat| - (if star.Some? then star.value + 1 else 0), |text| - eaten, |pat| - pi
  {
    if ti == |text| {
      StarsMatchNothing(pat, text, pi);
      NoLaterEndAtTheEnd(pat, text, pi, star, eaten);
    } else if pi < |pat| && (pat[pi] == '?' || pat[pi] == text[ti]) {
      ResumeDecides(pat, text, pi + 1, ti + 1, star, eaten);
    } else if pi < |pat| && pat[pi] == '*' {
      ResumeDecides(pat, text, pi + 1, ti, Some(pi), ti);
      if LaterEnd(pat, text, star, eaten) {
        EarlierStarAddsNothing(pat, text, pi, ti, star, eaten);
      }
    } else if star.Some? {
      ResumeDecides(pat, text, star.value + 1, eaten + 1, star, eaten + 1);
    }
  }

  /** Resuming only from the latest star decides the glob relation, for every name without `*`. */
  lemma {:induction false} MatchNameIsGlob(pattern: string, name: string)
    requires '*' !in name
    ensures MatchName(pattern, name) <==> NameGlob(pattern, name)
  {
    ResumeDecides(pattern, name, 0, 0, None, 0);
    NameGlobByPositions(pattern, name);
  }

  /** Whatever stars the name holds, the loop finds only what the pattern may read. */
  lemma {:induction false} ResumeIsSound(pat: string, text: string, pi: nat, ti: nat, star: Option<nat>, eaten: nat)
    requires pi <= |pat| && eaten <= ti <= |text|
    requires star.Some? ==> star.value < pi && pat[star.value] == '*'
    requires Resume(pat, text, pi, ti, star, eaten)
    ensures GlobFrom(pat, text, pi, ti) || LaterEnd(pat, text, star, eaten)
    decreases |pat| - (if star.Some? then star.value + 1 else 0), |text| - eaten, |pat| - pi
  {
    if ti == |text| {
      StarsMatchNothing(pat, text, pi);
    } else if pi < |pat| && (pat[pi] == '?' || pat[pi] == text[ti]) {
      ResumeIsSound(pat, text, pi + 1, ti + 1, star, eaten);
    } else if pi < |pat| && pat[pi] == '*' {
      ResumeIsSound(pat, text, pi + 1, ti, Some(pi), ti);
    } else {
      ResumeIsSound(pat, text, star.value + 1, eaten + 1, star, eaten + 1);
    }
  }

  /** For every name, a match is a glob match. */
  lemma {:induction false} MatchNameIsSound(pattern: string, name: string)
    requires MatchName(pattern, name)
    ensures NameGlob(pattern, name)
  {
    ResumeIsSound(pattern, name, 0, 0, None, 0);
    NameGlobByPositions(pattern, name);
  }

  lemma {:induction false} StarFreeRead(pat: string, text: string, pi: nat, ti: nat)
    requires pi <= |pat| && ti <= |text| && '*' !in pat
    ensures Resume(pat, text, pi, ti, None, 0) <==> GlobFrom(pat, text, pi, ti)
    decreases |text| - ti
  {
    if ti == |text| {
      StarsMatchNothing(pat, text, pi);
    } else if pi < |pat| {
      assert pat[pi] in pat;
      StarFreeRead(pat, text, pi + 1, ti + 1);
    }
  }

  /** A pattern without a star is decided for every name. */
  lemma {:induction false} StarFreePatternIsGlob(pattern: string, name: string)
    requires '*' !in pattern
    ensures MatchName(pattern, name) <==> NameGlob(pattern, name)
  {
    StarFreeRead(pattern, name, 0, 0);
    NameGlobByPositions(pattern, name);
  }

  // ----- names that hold a star themselves -----

  /** A pattern the matcher gets wrong on `name`: the text up to its first star, a star, then one `?` too many. */
  function Misread(name: string, at: nat): string
    requires at < |name|
  {
    name[..at] + ['*'] + seq(|name| - at, _ => '?')
  }

  lemma {:induction false} QuestionsRead(pat: string, text: string, pi: nat, ti: nat)
    requires pi <= |pat| && ti <= |text|
    requires forall i :: pi <= i < |pat| ==> pat[i] == '?'
    ensures |pat| - pi == |text| - ti ==> GlobFrom(pat, text, pi, ti)
    ensures |pat| - pi == |text| - ti + 1 ==> !Resume(pat, text, pi, ti, None, 0)
    decreases |text| - ti
  {
    if ti < |text| && pi < |pat| {
      QuestionsRead(pat, text, pi + 1, ti + 1);
    } else if ti == |text| && pi < |pat| {
      assert pat[pi..][0] == '?';
    }
  }

  lemma {:induction false} MisreadPrefix(name: string, at: nat, i: nat)
    requires at < |name| && name[at] == '*' && '*' !in name[..at] && i <= at
    ensures !Resume(Misread(name, at), name, i, i, None, 0)
    ensures GlobFrom(Misread(name, at), name, i, i)
    decreases at - i
  {
    var pat := Misread(name, at);
    if i < at {
      assert name[..at][i] == name[i];
      MisreadPrefix(name, at, i + 1);
    } else {
      QuestionsRead(pat, name, at + 1, at + 1);
      QuestionsRead(pat, name, at + 1, at);
    }
  }

  lemma {:induction false} FirstStar(name: string) returns (at: nat)
    requires '*' in name
    ensures at < |name| && name[at] == '*' && '*' !in name[..at]
  {
    if name[0] == '*' {
      at := 0;
    } else {
      var rest := FirstStar(name[1..]);
      at := rest + 1;
      assert name[..at] == [name[0]] + name[1..][..rest];
    }
  }

  lemma {:induction false} MisreadName(name: string) returns (p: string)
    requires '*' in name
    ensures !MatchName(p, name) && NameGlob(p, name) && p != "**"
  {
    var at := FirstStar(name);
    p := Misread(name, at);
    assert p[|p| - 1] == '?';
    MisreadPrefix(name, at, 0);
    NameGlobByPositions(p, name);
  }

  /** The exact condition: the matcher reads every pattern as a glob on just those names that hold no `*`. */
  lemma {:induction false} FaithfulExactlyOnStarlessNames(name: string)
    ensures (forall pattern :: MatchName(pattern, name) <==> NameGlob(pattern, name)) <==> '*' !in name
  {
    if '*' in name {
      var pattern := MisreadName(name);
      assert !(MatchName(pattern, name) <==> NameGlob(pattern, name));
    } else {
      forall pattern: string
        ensures MatchName(pattern, name) <==> NameGlob(pattern, name)
      {
        MatchNameIsGlob(pattern, name);
      }
    }
  }

  // ----- paths -----

  predicate MatchSegments(pat: seq<string>, seg: seq<string>)
    decreases |pat|
  {
    if pat == [] then seg == []
    else if pat[0] == "**" then exists i :: 0 <= i <= |seg| && MatchSegments(pat[1..], seg[i..])
    else seg != [] && MatchName(pat[0], seg[0]) && MatchSegments(pat[1..], seg[1..])
  }

  predicate NonEmpty(s: string) {
    s != ""
  }

  /** The non-empty pieces between slashes. */
  function Segments(path: string): seq<string> {
    Filter(Split(path, '/'), NonEmpty)
  }

  /** They are the runs between slashes, in order. */
  lemma {:induction false} SegmentsAreTheRuns(path: string)
    ensures AreTheRuns(path, (c: char) => c == '/', Segments(path))
  {
    SegmentsArePieces(path, (c: char) => c == '/');
    PiecesAreTheRuns(path, (c: char) => c == '/');
  }

  lemma {:induction false} SegmentsArePieces(path: string, slash: char -> bool)
    requires forall c :: slash(c) <==> c == '/'
    ensures Segments(path) == Pieces(path, slash)
  {
    if path != "" {
      var rest := Split(path[1..], '/');
      SegmentsArePieces(path[1..], slash);
      if slash(path[0]) {
        assert Split(path, '/')[0] == "" && Split(path, '/')[1..] == rest;
      } else {
        assert Split(path, '/')[1..] == rest[1..];
        FirstSegment(path[1..], slash);
        var later := Filter(rest[1..], NonEmpty);
        assert Segments(path) == [[path[0]] + rest[0]] + later;
        if rest[0] == "" {
          assert [path[0]] + rest[0] == [path[0]] && [] + later == later;
        } else {
          assert Segments(path[1..])[0] == rest[0] && Segments(path[1..])[1..] == later;
        }
      }
    }
  }

  lemma {:induction false} FirstSegment(path: string, slash: char -> bool)
    requires forall c :: slash(c) <==> c == '/'
    ensures var first, later := Split(path, '/')[0], Filter(Split(path, '/')[1..], NonEmpty);
            && (first == "" <==> path == "" || slash(path[0]))
            && Segments(path) == (if first == "" then [] else [first]) + later
  {
    var parts := Split(path, '/');
    assert parts == [parts[0]] + parts[1..];
    if path != "" && path[0] != '/' {
      assert parts[0][0] == path[0];
    }
  }

  predicate Matches(pattern: string, path: string) {
    MatchSegments(Segments(pattern), Segments(path))
  }

  /** What one pattern segment may stand for: `**` any run of segments, anything else one segment it globs. */
  ghost predicate SegmentAdmits(p: string, group: seq<string>) {
    if p == "**" then true else |group| == 1 && NameGlob(p, group[0])
  }

  ghost predicate IsGrouping(pat: seq<string>, seg: seq<string>, groups: seq<seq<string>>) {
    && |groups| == |pat|
    && Concat(groups) == seg
    && forall i :: 0 <= i < |groups| ==> SegmentAdmits(pat[i], groups[i])
  }

  /** The path can be cut into one group of segments per pattern segment. */
  ghost predicate PathGlob(pat: seq<string>, seg: seq<string>) {
    exists groups :: IsGrouping(pat, seg, groups)
  }

  predicate Starless(seg: seq<string>) {
    forall i :: 0 <= i < |seg| ==> '*' !in seg[i]
  }

  lemma {:induction false} GroupingGivesMatch(pat: seq<string>, seg: seq<string>, groups: seq<seq<string>>)
    requires Starless(seg) && IsGrouping(pat, seg, groups)
    ensures MatchSegments(pat, seg)
    decreases |pat|
  {
    if pat != [] {
      var i := |groups[0]|;
      assert SegmentAdmits(pat[0], groups[0]);
      assert seg == groups[0] + Concat(groups[1..]);
      assert seg[i..] == Concat(groups[1..]);
      GroupingGivesMatch(pat[1..], seg[i..], groups[1..]);
      if pat[0] != "**" {
        assert seg[0] == groups[0][0];
        MatchNameIsGlob(pat[0], seg[0]);
      }
    }
  }

  lemma {:induction false} MatchGivesGrouping(pat: seq<string>, seg: seq<string>) returns (groups: seq<seq<string>>)
    requires MatchSegments(pat, seg)
    ensures IsGrouping(pat, seg, groups)
    decreases |pat|
  {
    if pat == [] {
      groups := [];
    } else {
      var i;
      if pat[0] == "**" {
        i :| 0 <= i <= |seg| && MatchSegments(pat[1..], seg[i..]);
      } else {
        i := 1;
        MatchNameIsSound(pat[0], seg[0]);
      }
      var rest := MatchGivesGrouping(pat[1..], seg[i..]);
      groups := [seg[..i]] + rest;
      assert groups[1..] == rest;
      assert seg == seg[..i] + seg[i..];
    }
  }

  /** For every path, a match is a glob match. */
  lemma {:induction false} MatchSegmentsIsSound(pat: seq<string>, seg: seq<string>)
    requires MatchSegments(pat, seg)
    ensures PathGlob(pat, seg)
  {
    var groups := MatchGivesGrouping(pat, seg);
  }

  /** `**` spans any run of segments, including none; every other segment globs exactly one. */
  lemma {:induction false} MatchSegmentsIsPathGlob(pat: seq<string>, seg: seq<string>)
    requires Starless(seg)
    ensures MatchSegments(pat, seg) <==> PathGlob(pat, seg)
  {
    if MatchSegments(pat, seg) {
      var groups := MatchGivesGrouping(pat, seg);
    }
    if PathGlob(pat, seg) {
      var groups :| IsGrouping(pat, seg, groups);
      GroupingGivesMatch(pat, seg, groups);
    }
  }

  // ----- paths that hold a star themselves -----

  lemma {:induction false} PathGlobCons(p: string, name: string, pat: seq<string>, seg: seq<string>)
    requires NameGlob(p, name) && PathGlob(pat, seg)
    ensures PathGlob([p] + pat, [name] + seg)
  {
    var groups :| IsGrouping(pat, seg, groups);
    var more := [[name]] + groups;
    assert more[1..] == groups;
    assert IsGrouping([p] + pat, [name] + seg, more);
  }

  function Questions(name: string): (p: string)
    ensures |p| == |name| && forall i :: 0 <= i < |p| ==> p[i] == '?'
  {
    seq(|name|, _ => '?')
  }

  lemma {:induction false} QuestionsGlob(name: string)
    ensures NameGlob(Questions(name), name)
  {
    QuestionsRead(Questions(name), name, 0, 0);
    NameGlobByPositions(Questions(name), name);
  }

  lemma {:induction false} BlindPattern(seg: seq<string>) returns (pat: seq<string>)
    ensures PathGlob(pat, seg)
  {
    if seg == [] {
      pat := [];
      assert IsGrouping(pat, seg, []);
    } else {
      var rest := BlindPattern(seg[1..]);
      QuestionsGlob(seg[0]);
      PathGlobCons(Questions(seg[0]), seg[0], rest, seg[1..]);
      pat := [Questions(seg[0])] + rest;
      assert [seg[0]] + seg[1..] == seg;
    }
  }

  lemma {:induction false} MatchSegmentsCons(p: string, name: string, pat: seq<string>, seg: seq<string>)
    requires p != "**"
    ensures MatchSegments([p] + pat, [name] + seg) <==> MatchName(p, name) && MatchSegments(pat, seg)
  {
    assert ([p] + pat)[1..] == pat && ([name] + seg)[1..] == seg;
  }

  lemma {:induction false} MisreadPath(seg: seq<string>) returns (pat: seq<string>)
    requires !Starless(seg)
    ensures !MatchSegments(pat, seg) && PathGlob(pat, seg)
  {
    var name, others := seg[0], seg[1..];
    assert [name] + others == seg;
    var p, rest;
    if '*' in name {
      p := MisreadName(name);
      rest := BlindPattern(others);
    } else {
      var i :| 0 <= i < |seg| && '*' in seg[i];
      assert others[i - 1] == seg[i];
      p := Questions(name);
      QuestionsGlob(name);
      rest := MisreadPath(others);
      assert p != "**" by {
        assert "**"[0] == '*';
      }
    }
    pat := [p] + rest;
    PathGlobCons(p, name, rest, others);
    MatchSegmentsCons(p, name, rest, others);
  }

  /** The exact condition: every list of pattern segments is read as a glob on just those paths that hold no `*`. */
  lemma {:induction false} FaithfulExactlyOnStarlessPaths(seg: seq<string>)
    ensures (forall pat :: MatchSegments(pat, seg) <==> PathGlob(pat, seg)) <==> Starless(seg)
  {
    if Starless(seg) {
      forall pat: seq<string> ensures MatchSegments(pat, seg) <==> PathGlob(pat, seg) {
        MatchSegmentsIsPathGlob(pat, seg);
      }
    } else {
      var pat := MisreadPath(seg);
      assert !(MatchSegments(pat, seg) <==> PathGlob(pat, seg));
    }
  }

  /** A pattern without a slash matches at any depth. */
  function Normalize(pattern: string): string {
    if '/' in pattern then pattern else "**/" + pattern
  }

  lemma {:induction false} NormalizedSegments(pattern: string)
    requires '/' !in pattern
    ensures Segments(Normalize(pattern)) == ["**"] + Segments(pattern)
  {
    assert Normalize(pattern) == "**" + ['/'] + pattern;
    SplitAfterPiece("**", pattern, '/');
  }

  lemma {:induction false} SlashlessSegments(pattern: string)
    requires '/' !in pattern
    ensures Segments(pattern) == if pattern == "" then [] else [pattern]
  {
    SplitOnePiece(pattern, '/');
    if pattern != "" {
      FilterKeepsAll([pattern], NonEmpty);
    }
  }

  /** A pattern without a slash matches a path exactly when it globs its last segment; `""` and `**` match all. */
  lemma {:induction false} SlashlessMatchesTheFileName(pattern: string, path: string)
    requires '/' !in pattern
    ensures Matches(Normalize(pattern), path)
            <==> || pattern == "" || pattern == "**"
                 || (Segments(path) != [] && MatchName(pattern, Segments(path)[|Segments(path)| - 1]))
  {
    var seg := Segments(path);
    NormalizedSegments(pattern);
    SlashlessSegments(pattern);
    if pattern == "" {
      AnyDepth([], seg, |seg|);
    } else {
      if pattern == "**" {
        AnyDepth([], seg, |seg|);
        assert ["**"] + [] == ["**"];
        AnyDepth(["**"], seg, 0);
      } else {
        LastSegment(pattern, seg);
      }
    }
  }

  lemma {:induction false} AnyDepth(pat: seq<string>, seg: seq<string>, i: nat)
    requires i <= |seg| && MatchSegments(pat, seg[i..])
    ensures MatchSegments(["**"] + pat, seg)
  {
    assert (["**"] + pat)[1..] == pat;
  }

  lemma {:induction false} OneSegment(pattern: string, seg: seq<string>)
    requires pattern != "**"
    ensures MatchSegments([pattern], seg) <==> |seg| == 1 && MatchName(pattern, seg[0])
  {
    assert [pattern][1..] == [];
  }

  lemma {:induction false} LastSegment(pattern: string, seg: seq<string>)
    requires pattern != "**"
    ensures MatchSegments(["**"] + [pattern], seg) <==> seg != [] && MatchName(pattern, seg[|seg| - 1])
  {
    var pat := ["**"] + [pattern];
    assert pat[1..] == [pattern];
    if MatchSegments(pat, seg) {
      var i :| 0 <= i <= |seg| && MatchSegments(pat[1..], seg[i..]);
      OneSegment(pattern, seg[i..]);
    }
    if seg != [] {
      OneSegment(pattern, seg[|seg| - 1..]);
      if MatchName(pattern, seg[|seg| - 1]) {
        AnyDepth([pattern], seg, |seg| - 1);
      }
    }
  }
}
