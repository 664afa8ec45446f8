// The bounded directory walk (pkgs/extensions/guest-fs/src/lib.rs).
module Walk {
  import opened Glob
  import opened Sequences
  import opened Text
  import opened Wrappers

  const MAX_RESULTS: nat := 500
  const MAX_VISITS: nat := 20_000
  const MAX_DEPTH: nat := 24

  const PRUNED_DIRS: seq<string> := [".git", "node_modules", "target", ".venv", "__pycache__", ".jj"]

  datatype Entry = Entry(name: string, isDir: bool)

  datatype Bound = VisitBudget | ResultCap

  datatype Outcome = Outcome(paths: seq<string>, boundedBy: Option<Bound>)

  /** Lists one directory; `None` when it cannot be read. */
  type Lister = string -> Option<seq<Entry>>

  /** One search: the root, the normalized pattern and the lister. */
  datatype Search = Search(root: string, pattern: string, list: Lister)

  /** Joins two path fragments, where `""` and `"."` as base mean here. */
  function JoinPath(base: string, rest: string): string {
    var base := if base == "." then "" else base;
    if base == "" then rest
    else if rest == "" then base
    else base + "/" + rest
  }

  predicate NamedByPattern(name: string, pattern: string) {
    name in Split(pattern, '/')
  }

  predicate ShouldDescend(name: string, pattern: string) {
    name !in PRUNED_DIRS || NamedByPattern(name, pattern)
  }

  predicate IsCredentialFile(name: string) {
    var lower := Lower(name);
    || lower in [".env", ".envrc", ".netrc", ".npmrc", ".pgpass", ".git-credentials", "credentials", "id_rsa"]
    || (exists suffix :: suffix in [".pem", ".key", ".p12", ".pfx", ".jks", ".keystore", ".ppk"] &&
                         EndsWith(lower, suffix))
    || StartsWith(lower, ".env.")
    || StartsWith(lower, "id_ed25519")
    || StartsWith(lower, "id_ecdsa")
  }

  predicate HiddenCredential(name: string, pattern: string) {
    IsCredentialFile(name) && !NamedByPattern(name, pattern)
  }

  predicate Descends(q: Search, e: Entry, depth: nat) {
    e.isDir && depth + 1 < MAX_DEPTH && ShouldDescend(e.name, q.pattern)
  }

  predicate Reports(q: Search, dir: string, e: Entry) {
    && !e.isDir
    && Matches(q.pattern, JoinPath(dir, e.name))
    && !HiddenCredential(e.name, q.pattern)
  }

  // ----- what an unbounded search would find -----

  /** Everything below `dir`, with multiplicity. */
  ghost function FilesUnder(q: Search, dir: string, depth: nat): multiset<string>
    decreases MAX_DEPTH - depth, 1, 0
  {
    match q.list(JoinPath(q.root, dir))
    case None => multiset{}
    case Some(entries) => FilesAmong(q, dir, depth, entries)
  }

  ghost function FilesAmong(q: Search, dir: string, depth: nat, entries: seq<Entry>): multiset<string>
    decreases MAX_DEPTH - depth, 0, |entries|
  {
    if entries == [] then multiset{}
    else EntryFiles(q, dir, depth, entries[0]) + FilesAmong(q, dir, depth, entries[1..])
  }

  /** What one directory entry adds to the search. */
  ghost function EntryFiles(q: Search, dir: string, depth: nat, e: Entry): multiset<string>
    decreases MAX_DEPTH - depth, 0, 0
  {
    if Descends(q, e, depth) then FilesUnder(q, JoinPath(dir, e.name), depth + 1)
    else if Reports(q, dir, e) then multiset{JoinPath(q.root, JoinPath(dir, e.name))}
    else multiset{}
  }

  /** How many directory entries that search looks at. */
  ghost function VisitsUnder(q: Search, dir: string, depth: nat): nat
    decreases MAX_DEPTH - depth, 1, 0
  {
    match q.list(JoinPath(q.root, dir))
    case None => 0
    case Some(entries) => VisitsAmong(q, dir, depth, entries)
  }

  ghost function VisitsAmong(q: Search, dir: string, depth: nat, entries: seq<Entry>): nat
    decreases MAX_DEPTH - depth, 0, |entries|
  {
    if entries == [] then 0
    else
      var e := entries[0];
      1
      + (if Descends(q, e, depth) then VisitsUnder(q, JoinPath(dir, e.name), depth + 1) else 0)
      + VisitsAmong(q, dir, depth, entries[1..])
  }

  ghost function QueueFiles(q: Search, queue: seq<(string, nat)>): multiset<string> {
    if queue == [] then multiset{}
    else
      var last := |queue| - 1;
      QueueFiles(q, queue[..last]) + FilesUnder(q, queue[last].0, queue[last].1)
  }

  ghost function QueueVisits(q: Search, queue: seq<(string, nat)>): nat {
    if queue == [] then 0
    else
      var last := |queue| - 1;
      QueueVisits(q, queue[..last]) + VisitsUnder(q, queue[last].0, queue[last].1)
  }

  /**
    The books of the walk: what is found plus what is still pending is everything, and
    likewise for the entries visited. `rest` is what remains of the directory being read.
   */
  ghost predicate Balanced(q: Search, paths: seq<string>, visits: nat, queue: seq<(string, nat)>,
                           dir: string, depth: nat, rest: seq<Entry>)
  {
    && multiset(paths) + QueueFiles(q, queue) + FilesAmong(q, dir, depth, rest) == FilesUnder(q, "", 0)
    && visits + QueueVisits(q, queue) + VisitsAmong(q, dir, depth, rest) == VisitsUnder(q, "", 0)
  }

  lemma {:induction false} ReadDirectory(q: Search, paths: seq<string>, visits: nat, queue: seq<(string, nat)>,
                                         entries: seq<Entry>)
    requires queue != []
    requires var (dir, depth) := queue[|queue| - 1];
             q.list(JoinPath(q.root, dir)) == Some(entries)
    requires Balanced(q, paths, visits, queue, "", 0, [])
    ensures var (dir, depth) := queue[|queue| - 1];
            Balanced(q, paths, visits, queue[..|queue| - 1], dir, depth, entries)
  {
  }

  lemma {:induction false} SkipDirectory(q: Search, paths: seq<string>, visits: nat, queue: seq<(string, nat)>)
    requires queue != []
    requires q.list(JoinPath(q.root, queue[|queue| - 1].0)).None?
    requires Balanced(q, paths, visits, queue, "", 0, [])
    ensures Balanced(q, paths, visits, queue[..|queue| - 1], "", 0, [])
  {
  }

  lemma {:induction false} Regroup(a: multiset<string>, b: multiset<string>, c: multiset<string>, d: multiset<string>)
    ensures a + b + (c + d) == (a + c) + b + d == a + (b + c) + d
    ensures a + c <= a + b + (c + d)
  {
  }

  /** Descending moves a subdirectory's files from the entry to the queue. */
  lemma {:induction false} QueueDirectory(q: Search, paths: seq<string>, visits: nat, queue: seq<(string, nat)>,
                       dir: string, depth: nat, rest: seq<Entry>, rel: string)
    requires rest != [] && rel == JoinPath(dir, rest[0].name)
    requires Balanced(q, paths, visits, queue, dir, depth, rest)
    requires Descends(q, rest[0], depth)
    ensures Balanced(q, paths, visits + 1, queue + [(rel, depth + 1)], dir, depth, rest[1..])
  {
    var more := queue + [(rel, depth + 1)];
    assert more[..|more| - 1] == queue;
    var here := EntryFiles(q, dir, depth, rest[0]);
    assert QueueFiles(q, more) == QueueFiles(q, queue) + here;
    Regroup(multiset(paths), QueueFiles(q, queue), here, FilesAmong(q, dir, depth, rest[1..]));
  }

  /** Reporting moves one file from the entry to the result. */
  lemma {:induction false} ReportFile(q: Search, paths: seq<string>, visits: nat, queue: seq<(string, nat)>,
                   dir: string, depth: nat, rest: seq<Entry>, rel: string)
    requires rest != [] && rel == JoinPath(dir, rest[0].name)
    requires Balanced(q, paths, visits, queue, dir, depth, rest)
    requires Reports(q, dir, rest[0])
    ensures multiset(paths) + multiset{JoinPath(q.root, rel)} <= FilesUnder(q, "", 0)
    ensures Balanced(q, paths + [JoinPath(q.root, rel)], visits + 1, queue, dir, depth, rest[1..])
  {
    var here := EntryFiles(q, dir, depth, rest[0]);
    Regroup(multiset(paths), QueueFiles(q, queue), here, FilesAmong(q, dir, depth, rest[1..]));
    assert here == multiset{JoinPath(q.root, rel)};
    assert multiset(paths + [JoinPath(q.root, rel)]) == multiset(paths) + here;
  }

  lemma {:induction false} SkipEntry(q: Search, paths: seq<string>, visits: nat, queue: seq<(string, nat)>,
                  dir: string, depth: nat, rest: seq<Entry>)
    requires rest != []
    requires Balanced(q, paths, visits, queue, dir, depth, rest)
    requires !Descends(q, rest[0], depth) && !Reports(q, dir, rest[0])
    ensures Balanced(q, paths, visits + 1, queue, dir, depth, rest[1..])
  {
    assert EntryFiles(q, dir, depth, rest[0]) == multiset{};
  }

  lemma {:induction false} EntryLeft(q: Search, paths: seq<string>, visits: nat, queue: seq<(string, nat)>,
                  dir: string, depth: nat, rest: seq<Entry>)
    requires rest != []
    requires Balanced(q, paths, visits, queue, dir, depth, rest)
    ensures visits < VisitsUnder(q, "", 0) && multiset(paths) <= FilesUnder(q, "", 0)
  {
  }

  lemma {:induction false} WalkStarts(q: Search)
    ensures Balanced(q, [], 0, [("", 0)], "", 0, [])
  {
    var queue: seq<(string, nat)> := [("", 0)];
    assert queue[..0] == [];
  }

  lemma {:induction false} DirectoryRead(q: Search, paths: seq<string>, visits: nat, queue: seq<(string, nat)>,
                                         dir: string, depth: nat)
    requires Balanced(q, paths, visits, queue, dir, depth, [])
    ensures Balanced(q, paths, visits, queue, "", 0, [])
  {
  }

  lemma {:induction false} WalkDone(q: Search, paths: seq<string>, visits: nat)
    requires Balanced(q, paths, visits, [], "", 0, [])
    ensures multiset(paths) == FilesUnder(q, "", 0) && visits == VisitsUnder(q, "", 0)
    ensures |paths| == |FilesUnder(q, "", 0)|
  {
    assert |multiset(paths)| == |paths|;
  }

  // ----- the walk -----

  /**
    The body of the walk's inner loop: one entry goes into the result or the queue, is passed over, or is
    one too many.
   */
  method ReadEntry(q: Search, dir: string, depth: nat, ghost rest: seq<Entry>, entry: Entry,
                   found: seq<string>, seen: nat, waiting: seq<(string, nat)>)
    returns (paths: seq<string>, visits: nat, queue: seq<(string, nat)>, boundedBy: Option<Bound>)
    requires rest != [] && rest[0] == entry
    requires |found| <= MAX_RESULTS && seen <= MAX_VISITS
    requires Balanced(q, found, seen, waiting, dir, depth, rest)
    ensures boundedBy.None? ==> Balanced(q, paths, visits, queue, dir, depth, rest[1..])
    ensures boundedBy.None? ==> |paths| <= MAX_RESULTS && visits == seen + 1 <= MAX_VISITS && |queue| <= |waiting| + 1
    ensures boundedBy.Some? ==> Overrun(q, paths, boundedBy.value)
  {
    EntryLeft(q, found, seen, waiting, dir, depth, rest);
    paths, visits, queue, boundedBy := found, seen + 1, waiting, None;
    if visits > MAX_VISITS {
      return paths, visits, queue, Some(VisitBudget);
    }
    var rel := JoinPath(dir, entry.name);
    if entry.isDir {
      if depth + 1 < MAX_DEPTH && ShouldDescend(entry.name, q.pattern) {
        QueueDirectory(q, found, seen, waiting, dir, depth, rest, rel);
        return found, seen + 1, waiting + [(rel, depth + 1)], None;
      }
      SkipEntry(q, found, seen, waiting, dir, depth, rest);
    } else if Matches(q.pattern, rel) && !HiddenCredential(entry.name, q.pattern) {
      ReportFile(q, found, seen, waiting, dir, depth, rest, rel);
      if |paths| == MAX_RESULTS {
        OneMoreFile(paths, JoinPath(q.root, rel), FilesUnder(q, "", 0));
        return paths, visits, queue, Some(ResultCap);
      }
      return found + [JoinPath(q.root, rel)], seen + 1, waiting, None;
    } else {
      SkipEntry(q, found, seen, waiting, dir, depth, rest);
    }
  }

  /** Why a walk was cut short, and what it had found by then. */
  ghost predicate Overrun(q: Search, paths: seq<string>, bound: Bound) {
    && |paths| <= MAX_RESULTS && multiset(paths) <= FilesUnder(q, "", 0)
    && match bound
       case VisitBudget => VisitsUnder(q, "", 0) > MAX_VISITS
       case ResultCap => |FilesUnder(q, "", 0)| > MAX_RESULTS && |paths| == MAX_RESULTS
  }

  /** The walk's inner loop: reads one directory's entries, or stops at a bound. */
  method ReadEntries(q: Search, dir: string, depth: nat, entries: seq<Entry>,
                     foundSoFar: seq<string>, visitsSoFar: nat, waiting: seq<(string, nat)>)
    returns (paths: seq<string>, visits: nat, queue: seq<(string, nat)>, boundedBy: Option<Bound>)
    requires |foundSoFar| <= MAX_RESULTS && visitsSoFar <= MAX_VISITS
    requires Balanced(q, foundSoFar, visitsSoFar, waiting, dir, depth, entries)
    ensures |paths| <= MAX_RESULTS
    ensures boundedBy.None? ==>
              && visits <= MAX_VISITS
              && Balanced(q, paths, visits, queue, "", 0, [])
              && visits >= visitsSoFar && |queue| - |waiting| <= visits - visitsSoFar
    ensures boundedBy.Some? ==> queue == [] && Overrun(q, paths, boundedBy.value)
  {
    paths, visits, queue, boundedBy := foundSoFar, visitsSoFar, waiting, None;
    assert entries[0..] == entries;
    var i := 0;
    while i < |entries|
      invariant 0 <= i <= |entries| && boundedBy.None?
      invariant |paths| <= MAX_RESULTS && visits <= MAX_VISITS
      invariant visits >= visitsSoFar && |queue| - |waiting| <= visits - visitsSoFar
      invariant Balanced(q, paths, visits, queue, dir, depth, entries[i..])
    {
      ghost var rest := entries[i..];
      assert rest[1..] == entries[i + 1..];
      paths, visits, queue, boundedBy := ReadEntry(q, dir, depth, rest, entries[i], paths, visits, queue);
      if boundedBy.Some? {
        queue := [];
        return;
      }
      i := i + 1;
    }
    assert entries[i..] == [];
    DirectoryRead(q, paths, visits, queue, dir, depth);
  }

  /**
    Walks `root` for files matching `pattern`. The answer is complete exactly when the whole search
    fits the visit budget and the result cap; a bounded answer is a part of the complete one.
   */
  method WalkTree(root: string, pattern: string, list: Lister) returns (out: Outcome)
    ensures Sorted(out.paths) && |out.paths| <= 500
    ensures multiset(out.paths) <= FilesUnder(Search(root, Normalize(pattern), list), "", 0)
    ensures out.boundedBy.None? <==>
              && VisitsUnder(Search(root, Normalize(pattern), list), "", 0) <= 20_000
              && |FilesUnder(Search(root, Normalize(pattern), list), "", 0)| <= 500
    ensures out.boundedBy.None? ==>
              multiset(out.paths) == FilesUnder(Search(root, Normalize(pattern), list), "", 0)
    ensures out.boundedBy.None? && WellNamed(list) ==>
              forall p :: p in out.paths <==> IsAnswer(root, pattern, list, p)
    ensures out.boundedBy == Some(VisitBudget) ==>
              VisitsUnder(Search(root, Normalize(pattern), list), "", 0) > MAX_VISITS
    ensures out.boundedBy == Some(ResultCap) ==>
              && |FilesUnder(Search(root, Normalize(pattern), list), "", 0)| > MAX_RESULTS
              && |out.paths| == MAX_RESULTS
  {
    var q := Search(root, Normalize(pattern), list);
    var paths: seq<string> := [];
    var boundedBy: Option<Bound> := None;
    var visits: nat := 0;
    var queue: seq<(string, nat)> := [("", 0)];
    WalkStarts(q);
    while queue != []
      invariant |paths| <= MAX_RESULTS
      invariant boundedBy.None? ==> visits <= MAX_VISITS && Balanced(q, paths, visits, queue, "", 0, [])
      invariant boundedBy.Some? ==> queue == [] && Overrun(q, paths, boundedBy.value)
      decreases 2 * (MAX_VISITS - visits) + |queue|
    {
      var (dir, depth) := queue[|queue| - 1];
      var listed := list(JoinPath(root, dir));
      if listed.None? {
        SkipDirectory(q, paths, visits, queue);
        queue := queue[..|queue| - 1];
      } else {
        ReadDirectory(q, paths, visits, queue, listed.value);
        queue := queue[..|queue| - 1];
        paths, visits, queue, boundedBy := ReadEntries(q, dir, depth, listed.value, paths, visits, queue);
        if boundedBy.Some? {
          break;
        }
      }
    }
    if boundedBy.None? {
      WalkDone(q, paths, visits);
    } else {
      var bound: Bound := boundedBy.value;
      assert bound == VisitBudget || bound == ResultCap;
    }
    out := Outcome(Sort(paths), boundedBy);
    if boundedBy.None? && WellNamed(list) {
      CompleteAnswers(root, pattern, list, out.paths);
    }
  }

  lemma {:induction false} OneMoreFile(paths: seq<string>, extra: string, files: multiset<string>)
    requires multiset(paths) + multiset{extra} <= files
    ensures |files| > |paths|
  {
    var rest := files - (multiset(paths) + multiset{extra});
    assert files == multiset(paths) + multiset{extra} + rest;
  }

  // ----- what is found, told by path components -----

  predicate ProperName(name: string) {
    name != "" && '/' !in name && name != "."
  }

  /** Every listed entry has a proper file name. */
  ghost predicate WellNamed(list: Lister) {
    forall dir: string, e: Entry :: list(dir).Some? && e in list(dir).value ==> ProperName(e.name)
  }

  function PathOf(comps: seq<string>): string {
    Join(comps, '/')
  }

  ghost predicate ProperPath(comps: seq<string>) {
    forall i :: 0 <= i < |comps| ==> ProperName(comps[i])
  }

  ghost predicate InDirectory(q: Search, comps: seq<string>, e: Entry) {
    var listed := q.list(JoinPath(q.root, PathOf(comps)));
    listed.Some? && e in listed.value
  }

  /** Each component is a listed directory the search descends into, and the depth bound is kept. */
  ghost predicate Walkable(q: Search, comps: seq<string>) {
    && |comps| < MAX_DEPTH
    && forall i :: 0 <= i < |comps| ==>
         InDirectory(q, comps[..i], Entry(comps[i], true)) && ShouldDescend(comps[i], q.pattern)
  }

  /** A file at these components, in a walkable directory, whose components match the pattern's. */
  ghost predicate IsHit(q: Search, comps: seq<string>) {
    && comps != []
    && var last := |comps| - 1;
       && Walkable(q, comps[..last])
       && InDirectory(q, comps[..last], Entry(comps[last], false))
       && MatchSegments(Segments(q.pattern), comps)
       && !HiddenCredential(comps[last], q.pattern)
  }

  lemma {:induction false} PathHasContent(comps: seq<string>)
    requires comps != [] && ProperPath(comps)
    ensures PathOf(comps) != "" && PathOf(comps) != "."
  {
    if |comps| > 1 {
      assert PathOf(comps)[|comps[0]|] == '/';
    }
  }

  lemma {:induction false} ChildPath(comps: seq<string>, name: string)
    requires ProperPath(comps) && ProperName(name)
    ensures JoinPath(PathOf(comps), name) == PathOf(comps + [name])
  {
    if comps == [] {
      assert comps + [name] == [name];
    } else {
      PathHasContent(comps);
      JoinSnoc(comps, name, '/');
    }
  }

  lemma {:induction false} SegmentsOfPath(comps: seq<string>)
    requires ProperPath(comps)
    ensures Segments(PathOf(comps)) == comps
  {
    if comps != [] {
      SplitInvertsJoin(comps, '/');
      FilterKeepsAll(comps, NonEmpty);
    }
  }

  lemma {:induction false} WalkableIsProper(q: Search, comps: seq<string>)
    requires WellNamed(q.list) && Walkable(q, comps)
    ensures ProperPath(comps)
  {
    forall i | 0 <= i < |comps| ensures ProperName(comps[i]) {
      assert InDirectory(q, comps[..i], Entry(comps[i], true));
    }
  }

  lemma {:induction false} WalkableChild(q: Search, comps: seq<string>, name: string)
    requires Walkable(q, comps) && |comps| + 1 < MAX_DEPTH
    requires InDirectory(q, comps, Entry(name, true)) && ShouldDescend(name, q.pattern)
    ensures Walkable(q, comps + [name])
  {
    var child := comps + [name];
    forall i | 0 <= i < |child|
      ensures InDirectory(q, child[..i], Entry(child[i], true)) && ShouldDescend(child[i], q.pattern)
    {
      assert child[..i] == comps[..i];
      assert comps[..|comps|] == comps;
    }
  }

  lemma {:induction false} EntryWithin(q: Search, dir: string, depth: nat, entries: seq<Entry>, e: Entry)
    requires e in entries
    ensures EntryFiles(q, dir, depth, e) <= FilesAmong(q, dir, depth, entries)
  {
    if e != entries[0] {
      EntryWithin(q, dir, depth, entries[1..], e);
    }
  }

  lemma {:induction false} FromSomeEntry(q: Search, dir: string, depth: nat, entries: seq<Entry>,
                                         p: string) returns (e: Entry)
    requires p in FilesAmong(q, dir, depth, entries)
    ensures e in entries && p in EntryFiles(q, dir, depth, e)
  {
    if p in EntryFiles(q, dir, depth, entries[0]) {
      e := entries[0];
    } else {
      e := FromSomeEntry(q, dir, depth, entries[1..], p);
    }
  }

  lemma {:induction false} FoundIsHit(q: Search, comps: seq<string>, p: string) returns (hit: seq<string>)
    requires WellNamed(q.list) && Walkable(q, comps)
    requires p in FilesUnder(q, PathOf(comps), |comps|)
    ensures IsHit(q, hit) && p == JoinPath(q.root, PathOf(hit))
    decreases MAX_DEPTH - |comps|
  {
    WalkableIsProper(q, comps);
    var entries := q.list(JoinPath(q.root, PathOf(comps))).value;
    var e := FromSomeEntry(q, PathOf(comps), |comps|, entries, p);
    assert InDirectory(q, comps, e);
    ChildPath(comps, e.name);
    var child := comps + [e.name];
    if Descends(q, e, |comps|) {
      WalkableChild(q, comps, e.name);
      hit := FoundIsHit(q, child, p);
    } else {
      hit := child;
      SegmentsOfPath(child);
      assert child[..|child| - 1] == comps;
    }
  }

  lemma {:induction false} HitIsFound(q: Search, comps: seq<string>, k: nat)
    requires WellNamed(q.list) && IsHit(q, comps) && k < |comps|
    ensures JoinPath(q.root, PathOf(comps)) in FilesUnder(q, PathOf(comps[..k]), k)
    decreases |comps| - k
  {
    var p := JoinPath(q.root, PathOf(comps));
    var last := |comps| - 1;
    var dirs := comps[..last];
    WalkableIsProper(q, dirs);
    assert comps[..k] == dirs[..k];
    var e := Entry(comps[k], k < last);
    assert InDirectory(q, comps[..k], e) by {
      if k < last {
        assert dirs[k] == comps[k];
        assert InDirectory(q, dirs[..k], Entry(dirs[k], true));
      }
    }
    var entries := q.list(JoinPath(q.root, PathOf(comps[..k]))).value;
    ChildPath(comps[..k], comps[k]);
    assert comps[..k] + [comps[k]] == comps[..k + 1];
    if k < last {
      HitIsFound(q, comps, k + 1);
      assert ShouldDescend(dirs[k], q.pattern);
      assert Descends(q, e, k);
    } else {
      assert comps[..k + 1] == comps;
      assert ProperPath(comps);
      SegmentsOfPath(comps);
      assert Reports(q, PathOf(comps[..k]), e);
    }
    assert p in EntryFiles(q, PathOf(comps[..k]), k, e);
    EntryWithin(q, PathOf(comps[..k]), k, entries, e);
  }

  /** The complete result holds a path exactly when it leads, by components, to a matching file the walk may reach. */
  lemma {:induction false} FoundExactlyTheHits(q: Search, p: string)
    requires WellNamed(q.list)
    ensures p in FilesUnder(q, "", 0) <==> exists comps :: IsHit(q, comps) && p == JoinPath(q.root, PathOf(comps))
  {
    if p in FilesUnder(q, "", 0) {
      var hit := FoundIsHit(q, [], p);
    }
    if exists comps :: IsHit(q, comps) && p == JoinPath(q.root, PathOf(comps)) {
      var comps :| IsHit(q, comps) && p == JoinPath(q.root, PathOf(comps));
      HitIsFound(q, comps, 0);
      assert comps[..0] == [];
    }
  }

  // ----- what is found, told by the pattern as it was given -----

  /** The pattern names `name` between slashes; a pattern without a slash names `**` too, for it means any depth. */
  ghost predicate Names(pattern: string, name: string) {
    name in Split(pattern, '/') || ('/' !in pattern && name == "**")
  }

  /** These components lead from the root through listed directories, none pruned, to a file, none too deep. */
  ghost predicate LeadsToFile(root: string, pattern: string, list: Lister, comps: seq<string>) {
    && 1 <= |comps| <= 24
    && (forall i :: 0 <= i < |comps| ==> Lists(root, list, comps[..i], Entry(comps[i], i + 1 < |comps|)))
    && (forall i :: 0 <= i < |comps| - 1 ==>
          || comps[i] !in [".git", "node_modules", "target", ".venv", "__pycache__", ".jj"]
          || Names(pattern, comps[i]))
    && (IsCredentialFile(comps[|comps| - 1]) ==> Names(pattern, comps[|comps| - 1]))
  }

  ghost predicate Lists(root: string, list: Lister, comps: seq<string>, e: Entry) {
    var below := PathOf(comps);
    var dir := if root == "" || root == "." then below else if below == "" then root else root + "/" + below;
    list(dir).Some? && e in list(dir).value
  }

  /** A pattern with a slash is matched from the root; one without matches the file's own name, at any depth. */
  ghost predicate Answers(pattern: string, comps: seq<string>)
    requires comps != []
  {
    if '/' in pattern then MatchSegments(Segments(pattern), comps)
    else pattern == "" || pattern == "**" || MatchName(pattern, comps[|comps| - 1])
  }

  /** A path below the root; the root is not shown if it is here. */
  ghost predicate IsPathBelow(root: string, comps: seq<string>, p: string) {
    if root == "" || root == "." then p == PathOf(comps) else p == root + "/" + PathOf(comps)
  }

  ghost predicate IsAnswer(root: string, pattern: string, list: Lister, p: string) {
    exists comps :: LeadsToFile(root, pattern, list, comps) && Answers(pattern, comps) && IsPathBelow(root, comps, p)
  }

  lemma {:induction false} NamesAsNormalized(name: string, pattern: string)
    ensures NamedByPattern(name, Normalize(pattern)) <==> Names(pattern, name)
  {
    if '/' !in pattern {
      assert Normalize(pattern) == "**" + ['/'] + pattern;
      SplitAfterPiece("**", pattern, '/');
      SplitOnePiece(pattern, '/');
      assert Split(Normalize(pattern), '/') == ["**"] + [pattern];
    }
  }

  lemma {:induction false} MatchesAsNormalized(pattern: string, comps: seq<string>)
    requires comps != []
    ensures MatchSegments(Segments(Normalize(pattern)), comps) <==> Answers(pattern, comps)
  {
    if '/' !in pattern {
      NormalizedSegments(pattern);
      SlashlessSegments(pattern);
      if pattern == "" {
        AnyDepth([], comps, |comps|);
      } else if pattern == "**" {
        AnyDepth([], comps, |comps|);
        assert ["**"] + [] == ["**"];
        AnyDepth(["**"], comps, 0);
      } else {
        LastSegment(pattern, comps);
      }
    }
  }

  lemma {:induction false} HitByComponents(q: Search, comps: seq<string>)
    requires comps != []
    ensures IsHit(q, comps) <==>
              && |comps| <= MAX_DEPTH
              && (forall i :: 0 <= i < |comps| ==> Lists(q.root, q.list, comps[..i], Entry(comps[i], i + 1 < |comps|)))
              && (forall i :: 0 <= i < |comps| - 1 ==> ShouldDescend(comps[i], q.pattern))
              && MatchSegments(Segments(q.pattern), comps)
              && !HiddenCredential(comps[|comps| - 1], q.pattern)
  {
    var last := |comps| - 1;
    assert forall i :: 0 <= i < last ==> comps[..last][i] == comps[i] && comps[..last][..i] == comps[..i];
  }

  lemma {:induction false} HitIsAnswer(root: string, pattern: string, list: Lister, comps: seq<string>)
    requires comps != []
    ensures IsHit(Search(root, Normalize(pattern), list), comps)
            <==> LeadsToFile(root, pattern, list, comps) && Answers(pattern, comps)
  {
    HitByComponents(Search(root, Normalize(pattern), list), comps);
    MatchesAsNormalized(pattern, comps);
    forall i | 0 <= i < |comps| ensures NamedByPattern(comps[i], Normalize(pattern)) <==> Names(pattern, comps[i]) {
      NamesAsNormalized(comps[i], pattern);
    }
  }

  lemma {:induction false} JoinedBelow(root: string, comps: seq<string>, p: string)
    requires PathOf(comps) != ""
    ensures p == JoinPath(root, PathOf(comps)) <==> IsPathBelow(root, comps, p)
  {
  }

  lemma {:induction false} CompleteAnswers(root: string, pattern: string, list: Lister, paths: seq<string>)
    requires WellNamed(list)
    requires multiset(paths) == FilesUnder(Search(root, Normalize(pattern), list), "", 0)
    ensures forall p :: p in paths <==> IsAnswer(root, pattern, list, p)
  {
    forall p: string ensures p in paths <==> IsAnswer(root, pattern, list, p) {
      SearchFindsTheAnswers(root, pattern, list, p);
      assert p in paths <==> p in multiset(paths);
    }
  }

  /**
    For components without a star, answering is globbing: the whole path, cut into groups, for a pattern with a slash,
    and the file's own name for one without.
   */
  lemma {:induction false} AnswersByGlob(pattern: string, comps: seq<string>)
    requires comps != [] && Starless(comps)
    ensures Answers(pattern, comps) <==>
            if '/' in pattern then PathGlob(Segments(pattern), comps)
            else pattern == "" || pattern == "**" || NameGlob(pattern, comps[|comps| - 1])
  {
    MatchSegmentsIsPathGlob(Segments(pattern), comps);
    MatchNameIsGlob(pattern, comps[|comps| - 1]);
  }

  lemma {:induction false} SecretNames()
    ensures IsCredentialFile(".env") && IsCredentialFile(".ENV") && IsCredentialFile("id_rsa")
  {
    assert Lower(".env") == ".env" && Lower(".ENV") == ".env" && Lower("id_rsa") == "id_rsa";
  }

  lemma {:induction false} SecretPrefixes()
    ensures IsCredentialFile(".env.production") && IsCredentialFile("id_ed25519")
  {
    assert Lower(".env.production")[..5] == ".env.";
    assert Lower("id_ed25519") == "id_ed25519";
  }

  lemma {:induction false} SecretSuffixes()
    ensures IsCredentialFile("server.pem") && IsCredentialFile("tls.KEY")
  {
    assert EndsWith(Lower("server.pem"), ".pem") && EndsWith(Lower("tls.KEY"), ".key");
  }

  lemma {:induction false} NoSuchSuffix(name: string, suffix: string)
    requires |name| >= 3 && (forall k :: 0 <= k < |name| && k != |name| - 3 ==> name[k] != '.')
    requires |suffix| > 3 && suffix[0] == '.'
    ensures !EndsWith(name, suffix)
  {
    assert |suffix| <= |name| ==> name[|name| - |suffix|..][0] == name[|name| - |suffix|];
  }

  lemma {:induction false} NoSuchStart(name: string, start: string)
    requires name != "" && start != "" && name[0] != start[0]
    ensures name != start && !StartsWith(name, start)
  {
  }

  /** A small-letter name that begins like none of them, and whose only dot is three from its end, holds none. */
  lemma {:induction false} OrdinaryName(name: string)
    requires |name| >= 3 && Lower(name) == name && name[0] != '.' && name[0] != 'c' && name[0] != 'i'
    requires forall k :: 0 <= k < |name| && k != |name| - 3 ==> name[k] != '.'
    ensures !IsCredentialFile(name)
  {
    NoSuchSuffix(name, ".pem");
    NoSuchSuffix(name, ".key");
    NoSuchSuffix(name, ".p12");
    NoSuchSuffix(name, ".pfx");
    NoSuchSuffix(name, ".jks");
    NoSuchSuffix(name, ".keystore");
    NoSuchSuffix(name, ".ppk");
    NoSuchStart(name, ".env");
    NoSuchStart(name, ".envrc");
    NoSuchStart(name, ".netrc");
    NoSuchStart(name, ".npmrc");
    NoSuchStart(name, ".pgpass");
    NoSuchStart(name, ".git-credentials");
    NoSuchStart(name, "credentials");
    NoSuchStart(name, "id_rsa");
    NoSuchStart(name, ".env.");
    NoSuchStart(name, "id_ed25519");
    NoSuchStart(name, "id_ecdsa");
  }

  lemma {:induction false} OrdinaryNames()
    ensures !IsCredentialFile("main.rs") && !IsCredentialFile("monkey.py")
  {
    assert Lower("main.rs") == "main.rs" && Lower("monkey.py") == "monkey.py";
    OrdinaryName("main.rs");
    OrdinaryName("monkey.py");
  }

  /** Names that hold credentials, in whatever case, and names that only look like them. */
  lemma {:induction false} CredentialNames()
    ensures IsCredentialFile(".env") && IsCredentialFile(".ENV") && IsCredentialFile("id_rsa")
    ensures IsCredentialFile(".env.production") && IsCredentialFile("id_ed25519")
    ensures IsCredentialFile("server.pem") && IsCredentialFile("tls.KEY")
    ensures !IsCredentialFile("main.rs") && !IsCredentialFile("monkey.py")
  {
    SecretNames();
    SecretPrefixes();
    SecretSuffixes();
    OrdinaryNames();
  }

  /** What an unbounded search finds, told by the pattern as it was given. */
  lemma {:induction false} SearchFindsTheAnswers(root: string, pattern: string, list: Lister, p: string)
    requires WellNamed(list)
    ensures p in FilesUnder(Search(root, Normalize(pattern), list), "", 0) <==> IsAnswer(root, pattern, list, p)
  {
    var q := Search(root, Normalize(pattern), list);
    FoundExactlyTheHits(q, p);
    if p in FilesUnder(q, "", 0) {
      var comps :| IsHit(q, comps) && p == JoinPath(root, PathOf(comps));
      HitHasProperPath(q, comps);
      HitIsAnswer(root, pattern, list, comps);
      JoinedBelow(root, comps, p);
    }
    if IsAnswer(root, pattern, list, p) {
      var comps :| LeadsToFile(root, pattern, list, comps) && Answers(pattern, comps) && IsPathBelow(root, comps, p);
      HitIsAnswer(root, pattern, list, comps);
      HitHasProperPath(q, comps);
      JoinedBelow(root, comps, p);
    }
  }

  lemma {:induction false} HitHasProperPath(q: Search, comps: seq<string>)
    requires WellNamed(q.list) && IsHit(q, comps)
    ensures PathOf(comps) != ""
  {
    HitByComponents(q, comps);
    assert ProperPath(comps) by {
      forall i | 0 <= i < |comps| ensures ProperName(comps[i]) {
        assert Lists(q.root, q.list, comps[..i], Entry(comps[i], i + 1 < |comps|));
      }
    }
    PathHasContent(comps);
  }
}
