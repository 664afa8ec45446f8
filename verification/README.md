# jan-klod: verified models of its core algorithms and state machines

This project models the parts of the jan-klod coding agent that decide something on their own, without
calling out: the conductor that runs a turn, the terminal client's state and event loop, its text layout, the
unified-diff reader, the file search, anchored edits, the context budget, HTML entity decoding and the
permission gate. Everything is checked by Dafny 4.11; `dafny verify dfyconfig.toml` checks the whole project.

What the surrounding system supplies is a parameter. The directory lister is a function from directories to
listings. The conductor's surroundings (interceptors, providers, tools, the driver, the event sink) are functions
of the whole log so far, so each of them may keep any state and change its mind at any time; the log itself is
what the theorems about whole turns speak of. The client's stream, keyboard and transport arrive as a sequence
of ticks. The permission gate's answers arrive as a sequence of exchanges, and its store is a map.

Text is modelled twice. Where the program works on grapheme clusters (composer, wrapping), a text is a sequence
of clusters, each with a byte length of at least one and a width in cells. Where it works on characters or
bytes, it is a `string` or a sequence of bytes.

## Main results

- **Turns** (`Conductor.dfy`, `Cycles.dfy`, `Turns.dfy`, `Stops.dfy`, `Histories.dfy`). For every world of
  interceptors, providers, tools and sinks and every limit, all that the log of a turn holds is what that world
  answered. The turn hands the effective message on once and before any event, asks with the whole history before
  it (in every provider call, where no hook changes requests), runs its cycles one after another, each on exactly
  what the one before it left (no correction message ever gets into it), answers every requested call once and in
  order under the model's own id, in the last cycle as in the others, never runs a tool that the gate refused, ends
  with one `Done` or fails with none and with the reason of what failed, and stays within its limits on cycles,
  tool passes and provider calls, counted on the log. After a stop no provider is called, and finalize is told of
  it exactly if it stands.
- **Client** (`App.dfy`, `Loops.dfy`, `EventLoop.dfy`). The loop is a function of its ticks: one turn for each, up
  to one that quits; at every head, the one after the last turn included, what is held, the whole transcript and
  what is asked, and in the end what was sent. Over every run, no stream held means that nothing runs, streams
  never overlap, what was read off the stream is shown and stays word for word unless a session is loaded, and the
  answers that leave are in ask order, at most one to a question, on its own session, and each is the option marked
  or the text typed when Enter was pressed.
- **Layout** (`Composer.dfy`, `Rows.dfy`, `Wrap.dfy`, `Typeset.dfy`). Vertical motion moves exactly one visual row
  at every width, over rows that are the fewest the width allows; `hard_wrap` uses the fewest lines of all splits
  that fit; `wrap` shows exactly the words, which are the runs between whitespace, keeps every one whole that fits
  the room, a space apart, and ends a line only where the next word or cluster has no room.
- **Diffs** (`Diff.dfy`, `DiffRoundTrip.dfy`, `DiffReads.dfy`). Printing hunks and parsing them gives them back
  exactly when each is printable, a condition on its texts that can be checked beforehand; for any text at all,
  what each of its lines is read as, and which lines are refused, is told by position.
- **Search** (`Glob.dfy`, `Walk.dfy`). The matcher that resumes at the latest star alone decides the declarative
  glob relation on every name without a star, and on no other for all patterns; the bounded walk is complete
  exactly when the search fits its bounds, and then holds exactly the files that the pattern, as it was given,
  names.
- **Edits, entities, budget, permissions** (`Edit.dfy`, `Anchors.dfy`, `Entities.dfy`, `HtmlText.dfy`,
  `Context.dfy`, `PermissionRules.dfy`, `PermissionGate.dfy`, `PermissionReads.dfy`). Undoing an insertion,
  decoding in one scan, keeping the longest suffix the budget allows, and a gate whose standing verdicts last and
  whose questions are limited, each with what its words, anchors, entities and elements mean.

Five things one would expect of the source do not hold in general. Each has a concrete counterexample or, where
one exists, the exact condition under which it holds:

- A `*` in a file *name* is taken literally by a `*` in the pattern, since equality is tried first: the matcher
  agrees with glob meaning for all patterns exactly on names without `*` (`Glob.FaithfulExactlyOnStarlessNames`),
  and on paths exactly if none of their segments has one (`Glob.FaithfulExactlyOnStarlessPaths`).
- Inserting lines and deleting them again restores a file exactly when it ends with a newline or the lines after
  the insertion do not end in an empty one (`Edit.InsertThenDelete`); a blank line put into an empty file is not
  taken out again (`Edit.BlankLineIsNotUndone`).
- A refusal counter is stored under `refusals:` and the scope, and a scope is the tool's name in lower case, so a
  tool called `Refusals:shell` loses a standing approval to a refused `shell` call
  (`PermissionGate.CapitalisedNameCollides`); a verdict is safe exactly when no call that would be asked about
  counts its refusals under the verdict's own key (`PermissionGate.VerdictIsSafeExactlyWhenApart`).
- Arguments that cannot be parsed are said never to be safe, but a call with such arguments runs unasked exactly if
  its tool is listed by name (`PermissionReads.UnparsedRunsByName`).
- A stop is final in every world, but the note that the turn was stopped can be lost: finalize is told exactly if
  some stop stands, that is, has no terminating result hook after it (`Stops.StopIsToldExactlyIfItStands`). With no
  such hook, or with a sink that keeps answering stop, every stop is told; there is a world that loses the note in
  every one of its turns (`Stops.ForgetfulTurn`).

## Model

| member | source | states |
|---|---|---|
| Glob.MatchNameLoop | pkgs/extensions/guest-fs/src/lib.rs:84-107 | The loop over `pi`, `ti`, `star` and `eaten` ends and computes the matcher, for every pattern and name |
| Glob.ResumeDecides | pkgs/extensions/guest-fs/src/lib.rs:84-107 | From any reachable state of that loop, going on decides whether the rest can be read from here or from a later end of the latest star, provided the name has no `*` ahead |
| Glob.EarlierStarAddsNothing | pkgs/extensions/guest-fs/src/lib.rs:96-101 | Forgetting every star but the latest loses no match |
| Glob.MatchNameIsGlob | pkgs/extensions/guest-fs/src/lib.rs:84-107 | On names without `*`, a name matches iff its characters split into runs that the pattern's characters admit one by one |
| Glob.MatchNameIsSound | pkgs/extensions/guest-fs/src/lib.rs:84-107 | For every name, starred or not, a match is a match of the declarative glob |
| Glob.StarFreePatternIsGlob | pkgs/extensions/guest-fs/src/lib.rs:84-107 | A pattern without `*` is decided as a glob for every name |
| Glob.FaithfulExactlyOnStarlessNames | pkgs/extensions/guest-fs/src/lib.rs:91-93 | The matcher agrees with glob meaning for every pattern iff the name has no `*` |
| Glob.MatchSegmentsIsPathGlob | pkgs/extensions/guest-fs/src/lib.rs:73-82 | Segments without a star match iff they split into groups, any number of segments for `**` and one matching segment otherwise |
| Glob.MatchSegmentsIsSound | pkgs/extensions/guest-fs/src/lib.rs:73-82 | For every path, a match is a grouping of its segments |
| Glob.FaithfulExactlyOnStarlessPaths | pkgs/extensions/guest-fs/src/lib.rs:73-107 | Path segments are matched as that grouping by every pattern iff none of them has a star |
| Glob.NormalizedSegments | pkgs/extensions/guest-fs/src/lib.rs:56-63 | A pattern without a slash has its own segments after a `**` once normalised |
| Glob.SegmentsAreTheRuns | pkgs/extensions/guest-fs/src/lib.rs:67-71 | The segments of a pattern or a path are its maximal runs without a slash, in order |
| Glob.SlashlessMatchesTheFileName | pkgs/extensions/guest-fs/src/lib.rs:56-71 | A pattern without a slash matches a path iff it is empty or `**`, or matches the path's last segment |
| Walk.ReadEntry | pkgs/extensions/guest-fs/src/lib.rs:155-176 | One entry keeps the walk's books: found, queued and unread add up to everything, and a bound is reported only when it is exceeded |
| Walk.ReadEntries | pkgs/extensions/guest-fs/src/lib.rs:153-177 | Reading a directory keeps the books, or stops at a bound that the whole search exceeds |
| Walk.WalkTree | pkgs/extensions/guest-fs/src/lib.rs:142-180 | For every lister the walk ends with at most 500 sorted paths, part of the specified files; it is unbounded iff the whole search fits both bounds, and then the paths are exactly those that lead, through listed and unpruned directories, to a file that answers the pattern as it was given: matched from the root if it has a slash, by the file's own name if it has none |
| Walk.FoundExactlyTheHits | pkgs/extensions/guest-fs/src/lib.rs:109-116 | With proper entry names, a path is specified iff it is a matching, unhidden file reached through unpruned directories above `MAX_DEPTH` |
| Walk.SearchFindsTheAnswers | pkgs/extensions/guest-fs/src/lib.rs:56-71 | A pattern with a slash finds exactly the files whose components from the root its own segments match, one without a slash those whose last component it matches, at every depth |
| Walk.AnswersByGlob | pkgs/extensions/guest-fs/src/lib.rs:73-107 | On components without a star that is the declarative glob: groups of components for the segments, or the file's name for the pattern |
| Walk.CredentialNames | pkgs/extensions/guest-fs/src/lib.rs:118-139 | Names of credential files are told in any case, by name, beginning or ending, and lookalikes are not |
| Context.KeepIndices | pkgs/extensions/interceptor-context/src/context.rs:9-49 | The indices are strictly increasing and are exactly those the budget keeps |
| Context.KeepsLongestFittingSuffix | pkgs/extensions/interceptor-context/src/context.rs:23-41 | The kept conversation is a suffix of it, and holds every suffix that fits the room left by the system messages |
| Context.FitsUnlessNewestIsTooLarge | pkgs/extensions/interceptor-context/src/context.rs:28-40 | What is kept of the conversation fits that room iff the newest message alone does |
| Context.FitsTheBudgetUnlessTheLeastDoesNot | pkgs/extensions/interceptor-context/src/context.rs:11-49 | All that is kept sums to the budget at most iff the system messages and the newest other one do |
| Context.EveryFittingChoiceIsKept | pkgs/extensions/interceptor-context/src/context.rs:23-41 | Any choice that holds the system messages and a suffix of the rest and sums to the budget at most is kept whole |
| Context.LargerBudgetKeepsMore | pkgs/extensions/interceptor-context/src/context.rs:11-49 | A larger budget never drops an index that a smaller one kept |
| Entities.PassAddsRule | pkgs/extensions/tool-fetch/src/lib.rs:196-204 | One more sequential replacement adds its rule to a single left-to-right scan |
| Entities.DecodeIsOneScan | pkgs/extensions/tool-fetch/src/lib.rs:196-204 | The seven replacements in order are one scan that decodes each entity of the original text and nothing that decoding spells |
| Entities.DecodesFromTheFront | pkgs/extensions/tool-fetch/src/lib.rs:196-204 | Each of the seven entities in front of a text becomes its character, any other character stays, and the rest is decoded by itself |
| Entities.DecodeUndoesEscape | pkgs/extensions/tool-fetch/src/lib.rs:196-204 | Decoding undoes the escaping of `&`, `<`, `>`, `"` and the apostrophe in any of its spellings, for every string |
| HtmlText.WithoutAfterSpace | pkgs/extensions/tool-fetch/src/lib.rs:177-194 | Going on after a removed element instead of starting over misses no element |
| HtmlText.WithoutAllIsClean | pkgs/extensions/tool-fetch/src/lib.rs:177-194 | Once an element is dropped, no later removal lets its opening tag appear again |
| HtmlText.WithoutKeepsTheRest | pkgs/extensions/tool-fetch/src/lib.rs:177-194 | A scan cuts out exactly the elements of the name, each from an opening tag to the end of the first closing tag after it or of the text, puts one space for each and keeps all the text between them |
| HtmlText.DropElements | pkgs/extensions/tool-fetch/src/lib.rs:177-194 | The loop ends with the text without the named elements, which opens none of them any more |
| Diff.Parse | pkgs/clients/tui/src/diff.rs:63-116 | Parsing runs the line step with its two counters over the lines, and refuses a text without a hunk |
| Diff.Counts | pkgs/clients/tui/src/diff.rs:122-138 | The counts are the numbers of `+` and `-` rows of the parsed text |
| DiffReads.LinesSpell | pkgs/clients/tui/src/diff.rs:67-67 | The lines with their ends spell the text; a carriage return goes only together with its newline |
| DiffReads.HunkStartMeans | pkgs/clients/tui/src/diff.rs:26-39 | A line is a hunk header with these starts iff it is two ranges parted by a space before the first ` @@`, each its mark, a 64-bit numeral and nothing or a comma and anything |
| DiffReads.ParsedReadsEveryLine | pkgs/clients/tui/src/diff.rs:63-116 | For every text: it is no diff iff it opens no hunk or some line is stray, or is outside every hunk though only a hunk can hold it; else each line is one row, as a hunk, a file header, a note, or a body line numbered by the lines of its side since its hunk opened |
| DiffReads.CountSignIs | pkgs/clients/tui/src/diff.rs:122-138 | The count of a sign is the number of body rows that carry it |
| Decimal.ParseUsizeMeans | pkgs/clients/tui/src/diff.rs:30-37 | Exactly the numerals of 64-bit numbers parse, with leading zeros and a plus sign if any, each to its number |
| DiffRoundTrip.HeaderStart | pkgs/clients/tui/src/diff.rs:26-39 | A printed hunk header gives its two starts back iff both fit a machine word, whatever the heading says |
| DiffRoundTrip.BodyLineHeaders | pkgs/clients/tui/src/diff.rs:41-60 | No printed body line is a hunk header, and one is a file header iff it spells one |
| DiffRoundTrip.ParseBodyLine | pkgs/clients/tui/src/diff.rs:86-110 | A printed body line is numbered hunk start plus earlier rows on its side, and moves the right counters |
| DiffRoundTrip.LinesOfTerminated | pkgs/clients/tui/src/diff.rs:63-70 | Printed lines come back one for one, without a final carriage return, iff none holds a newline |
| DiffRoundTrip.RoundTripExactlyWhenPrintable | pkgs/clients/tui/src/diff.rs:63-116 | Printing any hunks and parsing them gives the expected signs, numbers and texts iff there is one and each is printable |
| DiffRoundTrip.CountsOfPrinted | pkgs/clients/tui/src/diff.rs:122-138 | The counts of a printed diff are its total additions and removals |
| Anchors.MultiplicationInjective | pkgs/extensions/tool-edit/src/lib.rs:10-14 | Multiplying by the FNV prime modulo 2^32 loses nothing, for the prime has an inverse |
| Anchors.StepInjective | pkgs/extensions/tool-edit/src/lib.rs:10-14 | An FNV-1a step is injective in the state for a fixed byte and in the byte for a fixed state |
| Anchors.OneByteChangesTheAnchor | pkgs/extensions/tool-edit/src/lib.rs:16-22 | Texts of equal length that differ in exactly one byte never share an anchor on the same line |
| Anchors.XorBits | pkgs/extensions/tool-edit/src/lib.rs:10-14 | The byte is mixed in bit by bit: a bit of the result is set iff the two differ in it |
| Anchors.HexDigitsSpell | pkgs/extensions/tool-edit/src/lib.rs:16-22 | The digits of an anchor spell the hash |
| Anchors.KnownHashes | pkgs/extensions/tool-edit/src/lib.rs:7-14 | The hash of the empty text and of the letter a are the published FNV-1a values |
| Edit.JoinInvertsLines | pkgs/extensions/tool-edit/src/lib.rs:24-37 | Joining the lines of any file gives the file back |
| Edit.LinesInvertJoin | pkgs/extensions/tool-edit/src/lib.rs:24-37 | Lines come back from the joined text iff they end with a newline mark or do not end in an empty line |
| Edit.ContentsLinesSpell | pkgs/extensions/tool-edit/src/lib.rs:39-48 | The lines of an edit's text spell it, with a final newline iff it has one, and empty text has no lines |
| Edit.FindAnchorMeans | pkgs/extensions/tool-edit/src/lib.rs:50-69 | An anchor is found at a line iff it names that line only, and is missing iff it names none |
| Edit.AnchorErrors | pkgs/extensions/tool-edit/src/lib.rs:50-69 | An anchor is found iff one line has it, and otherwise the error says that none has or how many |
| Edit.EditErrors | pkgs/extensions/tool-edit/src/lib.rs:82-122 | A refused replacement names the first anchor's fault before the last one's and that before their order; a refused insertion its anchor's before its empty text |
| Edit.SpanMeans | pkgs/extensions/tool-edit/src/lib.rs:82-94 | A span runs from the one line to the other, and is refused iff they are out of order |
| Edit.Replace | pkgs/extensions/tool-edit/src/lib.rs:82-102 | It succeeds iff each anchor names one line only and they are in order, and then the span between them is what is replaced and counted, and every other line stays |
| Edit.Insert | pkgs/extensions/tool-edit/src/lib.rs:104-122 | It succeeds iff the anchor names one line only and there is something to insert, and then the block stands next to that line, its length is counted and every line stays |
| Edit.ReplaceKeepsTheRest | pkgs/extensions/tool-edit/src/lib.rs:82-102 | A replacement succeeds iff its anchors name a span, and keeps every line outside it, in order |
| Edit.InsertKeepsTheRest | pkgs/extensions/tool-edit/src/lib.rs:104-122 | An insertion succeeds iff its anchor names a line and there is something to insert, and keeps every line, in order |
| Edit.InsertThenDelete | pkgs/extensions/tool-edit/src/lib.rs:82-122 | Inserting and then deleting exactly the inserted lines restores every byte iff the file ends with a newline or the new lines do not end in an empty one |
| Edit.BlankLineIsNotUndone | pkgs/extensions/tool-edit/src/lib.rs:24-37 | The anchor of a blank line put into an empty file names it alone, and names nothing in the file that was written |
| Edit.StaleAnchorMissesChangedLine | pkgs/extensions/tool-edit/src/lib.rs:50-69 | An anchor no longer finds its line once one byte of the line has changed |
| Wrap.GreedyStaysAhead | pkgs/clients/tui/src/wrap.rs:75-95 | Lines broken only where they must are never behind the pieces of another split that fits |
| Wrap.FewestLines | pkgs/clients/tui/src/wrap.rs:75-95 | Such lines are no more than the pieces of any split that fits |
| Wrap.HardWrap | pkgs/clients/tui/src/wrap.rs:75-95 | The lines concatenate to the text, fit iff no cluster is wider than the pane, and then are the fewest of any split that fits |
| Wrap.BreakWord | pkgs/clients/tui/src/wrap.rs:56-65 | A word too wide for a line is laid as parts that spell it, the first on the line at hand and each other on a new line, begun only because the line before had no room for the next cluster |
| Wrap.LayWord | pkgs/clients/tui/src/wrap.rs:34-66 | A word that fits the room is laid whole, a space after what the line shows, and on a new line only if this one shows something and has no room; a wider one begins where nothing is shown yet and is broken into parts; the lines show the words so far |
| Wrap.LayWords | pkgs/clients/tui/src/wrap.rs:34-72 | The loop over the words lays them all, in order and as they are, and shows nothing else |
| Wrap.WrapText | pkgs/clients/tui/src/wrap.rs:14-73 | Every line starts with the leading spaces and tabs of the text, unless they leave no room; the lines show exactly the visible clusters in order, and fit iff none is wider than the room; the words they hold are the maximal runs of visible clusters of the text, in order, a space apart, whole if they fit the room and else begun where nothing is shown yet; a line ends only if it shows something and has no room for the next word or cluster |
| Sequences.PiecesAreTheRuns | pkgs/clients/tui/src/wrap.rs:34-34 | The words of a text are its maximal runs without whitespace, in order, and nothing but whitespace stands outside them |
| Typeset.SpacedIsJoined | pkgs/clients/tui/src/wrap.rs:38-44 | Words laid on one line that show something are joined by single spaces |
| Rows.LocatedOnce | pkgs/clients/tui/src/composer.rs:182-221 | A byte offset has at most one row and column among the rows of a text |
| Rows.CaretOnBoundary | pkgs/clients/tui/src/composer.rs:182-221 | Every place a row offers the caret is a cluster boundary of the text |
| Rows.RowsSpellTheText | pkgs/clients/tui/src/composer.rs:182-221 | The rows with a newline after each hard end are the text, and each fits the width, or one cell if it is zero, unless it is one cluster |
| Rows.RowsTileTheText | pkgs/clients/tui/src/composer.rs:182-221 | Each logical line is tiled by rows that end only where the next cluster has no room in the width, zero counted as one, and that are the fewest of any split that fits |
| Composer.StopIsFirstAtColumn | pkgs/clients/tui/src/composer.rs:231-247 | The stop is the first cluster at or past the column, or the last place in the row for a caret |
| Composer.Composer.Insert | pkgs/clients/tui/src/composer.rs:61-71 | The text gets the clusters at the caret, and the caret stands after them |
| Composer.Composer.Backspace | pkgs/clients/tui/src/composer.rs:88-94 | The cluster before the caret goes, if there is one |
| Composer.Composer.Left | pkgs/clients/tui/src/composer.rs:96-101 | The caret goes to the boundary before, if there is one |
| Composer.Composer.Right | pkgs/clients/tui/src/composer.rs:103-108 | The caret goes to the next boundary, if there is one |
| Composer.Composer.LayoutLine | pkgs/clients/tui/src/composer.rs:190-214 | One logical line is laid into its rows, and a caret in it is located among them |
| Composer.Composer.Layout | pkgs/clients/tui/src/composer.rs:182-221 | The nested loops build the specified rows and locate the caret in them, for every boundary and width |
| Composer.Composer.OffsetInRow | pkgs/clients/tui/src/composer.rs:231-247 | The offset is that of the row's stop for the column |
| Composer.Composer.Up | pkgs/clients/tui/src/composer.rs:261-269 | The caret lands at its column's stop in the row above, or stays on the first row |
| Composer.Composer.Down | pkgs/clients/tui/src/composer.rs:271-278 | The caret lands at its column's stop in the row below, or stays on the last row |
| Composer.Composer.VisibleRows | pkgs/clients/tui/src/composer.rs:280-290 | At most eight consecutive rows are shown, all of them if there are no more: the first ones, or those that end with the caret's row |
| Composer.OneRowOver | pkgs/clients/tui/src/composer.rs:261-278 | Laying the text out again after such a move puts the caret exactly one row over whenever there is such a row, at the stop for its old column, and in the same place otherwise |
| PermissionRules.PathValuesAreTheStringsUnderPathKeys | pkgs/extensions/interceptor-permission/src/rules.rs:160-185 | The strings taken for paths are exactly those at or below a path key, however deep |
| PermissionReads.PathKeysAre | pkgs/extensions/interceptor-permission/src/rules.rs:146-158 | A key is a path key iff it is one of nine words, in any case |
| PermissionReads.EscapesByWhatItShows | pkgs/extensions/interceptor-permission/src/rules.rs:88-103 | A string leaves the workspace iff a slash begins it or a piece of it, or two dots are a whole step in it, as far as the policy minds; the default one minds both |
| PermissionReads.EscapesByItsPaths | pkgs/extensions/interceptor-permission/src/rules.rs:58-72 | Arguments leave the workspace iff they are an object and some string at or below a path key does |
| PermissionReads.CredentialsByItsPaths | pkgs/extensions/interceptor-permission/src/rules.rs:115-125 | Arguments name a credential file iff the last step of some string at or below a path key is one |
| PermissionReads.ScopeKeyReads | pkgs/extensions/interceptor-permission/src/rules.rs:218-231 | The scope is the tool with the lower-cased operation, or with the lower-cased last step of the first piece of its command, or the lower-cased tool |
| PermissionReads.ReviewReads | pkgs/extensions/interceptor-permission/src/rules.rs:74-86 | What a review says, iff: an escape if a path string escapes, credentials if none does and one names a credential file, nothing if neither and the scope or tool is listed; a blanket answer may settle only what is left |
| PermissionReads.UnparsedRunsByName | pkgs/extensions/interceptor-permission/src/rules.rs:48-56 | Arguments that are no JSON run unasked iff the tool itself is listed, so `find` does |
| PermissionReads.DefaultsRunUnasked | pkgs/extensions/interceptor-permission/src/rules.rs:4-11 | By default a call with an operation and no path runs unasked iff its scope or its tool is one of six |
| PermissionReads.AnswersSayTheirWord | pkgs/extensions/interceptor-permission/src/rules.rs:339-348 | An answer approves once, approves always or refuses for good iff it is one of the words for it, in any case and with whitespace around it |
| PermissionReads.VerdictsAreTheirWord | pkgs/extensions/interceptor-permission/src/rules.rs:381-389 | A stored text stands for a verdict iff it is its word with whitespace around it |
| PermissionGate.Gate.Intercept | pkgs/extensions/interceptor-permission/src/lib.rs:143-229 | Both rounds of an interception give the specified decision and store |
| PermissionGate.Gate.Settle | pkgs/extensions/interceptor-permission/src/lib.rs:143-229 | A call asks at most once, and only if the gate asks |
| PermissionReads.AnswerSettles | pkgs/extensions/interceptor-permission/src/lib.rs:143-229 | A standing verdict settles a call unasked; else `always` stores `allow`, `never` stores `deny`, and every refusal stores the next count and from the third on `deny`, under keys and texts given literally |
| PermissionReads.CountReads | pkgs/extensions/interceptor-permission/src/lib.rs:53-63 | A counter holds the 32-bit number its text spells, and none for any other text |
| PermissionGate.VerdictIsSafeExactlyWhenApart | pkgs/extensions/interceptor-permission/src/lib.rs:53-83 | A verdict survives every call and answer iff no call that would be asked about counts its refusals under the verdict's key |
| PermissionGate.NameKeepsApart | pkgs/extensions/interceptor-permission/src/rules.rs:218-231 | Only a tool whose lower-cased name starts with `refusals` can have a scope that reads as a counter |
| PermissionGate.CapitalisedNameCollides | pkgs/extensions/interceptor-permission/src/rules.rs:218-231 | The approval of a tool called `Refusals:shell` is overwritten by refusing `shell` once |
| PermissionGate.VerdictStands | pkgs/extensions/interceptor-permission/src/lib.rs:143-229 | Over every run a standing verdict never changes |
| PermissionGate.AtMostThreeRefusals | pkgs/extensions/interceptor-permission/src/lib.rs:205-226 | Over every run, from any store, a scope is refused at most three times, and reaching three leaves a standing denial |
| PermissionGate.BlockedAfterThreeRefusals | pkgs/extensions/interceptor-permission/src/lib.rs:205-226 | After three refusals a call of that scope is blocked unasked |
| PermissionGate.StoredVerdictsNeverCoverEscapes | pkgs/extensions/interceptor-permission/src/rules.rs:74-86 | Whatever is stored, a call that leaves the workspace or names a credential file is asked about, runs iff the answer approves, and leaves the store alone |
| PermissionGate.RunsOnlyWhenAllowed | pkgs/extensions/interceptor-permission/src/lib.rs:143-229 | A call under review runs iff it is approved now or its scope stands approved |
| App.AnswerReplacesTheStream | pkgs/clients/tui/src/app.rs:659-681 | Streamed pieces gather in one entry, and the final answer takes that entry's place |
| App.InterruptIsFinal | pkgs/clients/tui/src/app.rs:443-474 | Interrupting twice is interrupting once, and a result that comes after it closes nothing |
| App.App.CursorUp | pkgs/clients/tui/src/app.rs:237-249 | The cursor goes to the nearest tool block above it, or to the newest one, iff there is one |
| App.App.CursorDown | pkgs/clients/tui/src/app.rs:251-256 | The cursor goes to the nearest tool block below, or leaves the transcript |
| App.App.ToggleExpanded | pkgs/clients/tui/src/app.rs:258-268 | The block under the cursor, and nothing else, folds or unfolds |
| App.App.RecordToolInvoked | pkgs/clients/tui/src/app.rs:433-442 | A running block is appended |
| App.App.RecordToolResult | pkgs/clients/tui/src/app.rs:444-463 | The newest running block with the id is closed, and a result for none is noted |
| App.ResultCloses | pkgs/clients/tui/src/app.rs:444-463 | The newest running call with the id gets the result and unfolds iff it failed, every other entry stays, and a result for none is noted at the end |
| App.App.InterruptOpenTools | pkgs/clients/tui/src/app.rs:465-474 | Every running block, and nothing else, becomes interrupted |
| App.App.ApplyDelta | pkgs/clients/tui/src/app.rs:659-668 | The text joins the answer in progress or starts one |
| App.App.FinishTurn | pkgs/clients/tui/src/app.rs:670-680 | The answer takes the place of the one in progress or starts one, and the phase is idle |
| App.App.Cancel | pkgs/clients/tui/src/app.rs:626-637 | Only a streaming turn is cancelled; then nothing waits, nothing runs, and the request is raised |
| App.App.EndTurn | pkgs/clients/tui/src/app.rs:646-652 | Ending a turn leaves the client quiet, whatever was going on |
| App.App.Disconnect | pkgs/clients/tui/src/app.rs:786-796 | The client is quiet and disconnected, and the reason is recorded the first time only |
| App.App.Ask | pkgs/clients/tui/src/app.rs:682-690 | The question joins the queue with its default marked if it is an option, and opens the dialog if it is the first |
| App.App.PromptMove | pkgs/clients/tui/src/app.rs:728-741 | The front selection moves round the options in either direction, and the rest of the queue stays |
| App.MovedTurnsTheFront | pkgs/clients/tui/src/app.rs:728-741 | Moving a selection on and back again restores it, as does going all the way round, and no other question changes |
| App.App.PromptJump | pkgs/clients/tui/src/app.rs:743-750 | The front selection jumps to an option that exists, or stays |
| App.ReadyFor | pkgs/clients/tui/src/app.rs:757-768 | An answer is ready unless nothing waits or an option must still be marked; it is the marked option, or without options the text typed, or the default if nothing was |
| App.App.TakeAnswer | pkgs/clients/tui/src/app.rs:752-774 | The answer that leaves with the front question's session is the option marked, or the text typed, or the default; the queue, dialog, composer and transcript follow |
| App.App.TakeSubmission | pkgs/clients/tui/src/app.rs:291-299 | The trimmed text, if there is any, leaves and is put into history and transcript |
| App.App.HistoryUp | pkgs/clients/tui/src/app.rs:569-589 | Recall goes one message back, exactly when the caret cannot move up and the text is not edited |
| App.App.HistoryDown | pkgs/clients/tui/src/app.rs:591-606 | Recall goes one message on, and after the last one the composer is empty |
| App.DownUndoesUp | pkgs/clients/tui/src/app.rs:569-606 | Going back one message and on again restores the recalled message, or the empty composer |
| App.App.LoadSession | pkgs/clients/tui/src/app.rs:1001-1009 | The stored messages replace the transcript, none of them running, and the cursor is dropped |
| App.StoredMessageShows | pkgs/clients/tui/src/app.rs:1001-1009 | A stored user, assistant or tool message shows as its one entry, in order, and any other message as none |
| App.App.RequestNewSession | pkgs/clients/tui/src/app.rs:1011-1016 | The request is raised unless a question is on screen |
| EventLoop.ApplyEvent | pkgs/clients/tui/src/tui.rs:521-569 | Each stream event has its effect on transcript, questions and the rest of what Enter depends on, and exactly four kinds end the turn |
| Loops.EventShows | pkgs/clients/tui/src/tui.rs:521-569 | What each kind of event does to the transcript, entry by entry, and which four end the turn |
| Loops.EventMoves | pkgs/clients/tui/src/tui.rs:521-569 | What each kind of event does to the phase, the questions and the dialog, a question with the first option equal to its default marked |
| EventLoop.DrainStream | pkgs/clients/tui/src/tui.rs:65-79 | Everything up to the first ending event is applied in order; then the stream is dropped, what still ran is interrupted and the client is quiet |
| EventLoop.SwitchSession | pkgs/clients/tui/src/tui.rs:200-220 | A stored session is shown only while no turn runs |
| EventLoop.HandleKey | pkgs/clients/tui/src/tui.rs:95-112 | No key but Enter wakes a quiet client, asks anything or answers anything |
| Loops.KeyMoves | pkgs/clients/tui/src/tui.rs:95-112 | What each key does to the phase, the questions, the composer and recall |
| Loops.KeyShows | pkgs/clients/tui/src/tui.rs:95-112 | What each key shows, most of them nothing |
| EventLoop.DrainRequests | pkgs/clients/tui/src/tui.rs:157-195 | The requests are served once, what they had to say is added to the transcript; a session that was asked for and made replaces it, and nothing else does; the cursor and both requests end as specified |
| Loops.ServingShows | pkgs/clients/tui/src/tui.rs:157-195 | A cancel's outcome, the notes and the new session or its failure are shown, in that order |
| EventLoop.HandleEnter | pkgs/clients/tui/src/tui.rs:113-145 | Enter sends the option marked, or the text typed or the default, or the follow-up, or the message that opens a stream if none is held, and shows exactly that and a refusal; a closed dialog is reopened and nothing answered blind |
| Loops.EnterDoes | pkgs/clients/tui/src/tui.rs:113-145 | All that Enter sends, shows and changes, case by case; an answer is the one marked or typed, and blank text is never sent |
| Loops.TurnAnswersAsMarked | pkgs/clients/tui/src/tui.rs:113-145 | Whatever answer a turn of the loop sends is the one that was marked or typed, for the front question as it stood |
| EventLoop.TakeTurn | pkgs/clients/tui/src/tui.rs:64-149 | One turn of the loop is the specified turn: what is held, the whole screen, the questions asked and the acts are exactly what the ready events, the requests and the input make of them; the client is quiet without a stream; unless a session is loaded, the entries stay and what was read stays word for word |
| Loops.TurnKeeps | pkgs/clients/tui/src/tui.rs:80-145 | Serving requests and taking the input changes no message that is shown, and of the tool calls only that running ones end and blocks unfold, unless a session is loaded, which happens exactly if one was asked for and made or is switched to while no turn runs |
| Loops.TurnsTakenIs | pkgs/clients/tui/src/tui.rs:64-114 | The loop takes exactly the turns up to the first tick that quits |
| Loops.ReadIs | pkgs/clients/tui/src/tui.rs:65-79 | What is read of a stream is everything up to the first event that ends the turn, and the stream stays held iff there is none |
| Loops.RunBegins | pkgs/clients/tui/src/tui.rs:41-63 | A run begins idle, with nothing held, asked or typed, and shows that it is connected |
| Loops.BracketedSnoc | pkgs/clients/tui/src/tui.rs:62-145 | One more act keeps streams from overlapping |
| EventLoop.Run | pkgs/clients/tui/src/tui.rs:41-150 | One turn for each tick up to one that quits; every head, before, between and after the turns, has exactly the stream, the front and the screen that the ticks so far lead to, and the acts are exactly those they give rise to. At every head without a stream the phase is idle, nothing waits, the dialog is closed and no tool runs; streams never overlap; the answers sent are replies to the questions read off the held streams, in ask order, at most one each, on their sessions, each the option marked or the text typed when it was sent; unless a session is loaded, what was read stays shown word for word, entries stay and a call that has ended never changes its status again |
| Turns.CancelledExactlyWhenStopStands | pkgs/host/agent/src/conductor.rs:291-351 | A pass is cancelled iff some stop in it has no terminating result hook after it |
| Stops.UndisturbedStopIsTold | pkgs/host/agent/src/conductor.rs:88-163 | In a turn in which no result hook terminates, every stop is told to finalize, whatever the sink answers later |
| Stops.StickyStopIsTold | pkgs/host/agent/src/conductor.rs:88-163 | With a sink that keeps answering stop, every stop is told to finalize, whatever the hooks do |
| Stops.StopIsToldExactlyIfItStands | pkgs/host/agent/src/conductor.rs:88-163 | In every world a stopped turn is answered, and its finalize text carries the note iff some stop has no terminating result hook after it |
| Stops.ForgetfulTurn | pkgs/host/agent/src/conductor.rs:310-343 | A given world loses the note in each of its turns with a limit of two or more: a stop at the tool, a terminating result hook, and a sink that goes on |
| Turns.ToolOrderAppend | pkgs/host/agent/src/conductor.rs:283-351 | Gated and answered tool events stay so when stretches of the log are put together |
| Conductor.Conductor.CompleteWithFallback | pkgs/host/agent/src/conductor.rs:398-419 | Providers are tried in chain order, each failure is announced with its provider and error, and the first success is returned; an error means all of them failed |
| Conductor.Conductor.CompleteValidated | pkgs/host/agent/src/conductor.rs:421-474 | At most four attempts, one after another: each but the last took the first provider that succeeded, was rejected for arguments that are not JSON, and the next asked the same with the correction appended; a completion has only valid arguments; a failure means that in the last attempt every provider failed or three corrections had not helped, and carries which |
| Conductor.Conductor.HandleNoToolCalls | pkgs/host/agent/src/conductor.rs:208-239 | No follow-up ends the loop; one goes on with the hook's request and the follow-up, or is cut short at the limit |
| Conductor.Conductor.RunToolCall | pkgs/host/agent/src/conductor.rs:292-348 | One call adds exactly its segment to the log: gate, denial or announcement and invocation, hook, result |
| Histories.CallComesTo | pkgs/host/agent/src/conductor.rs:292-348 | The result hook of a call is given the denial, the tool's own word or that there is no such tool, under the model's own id; a denied call invokes nothing, another runs as the gate left it, and the outcome is what the hook left |
| Conductor.Conductor.RunToolCalls | pkgs/host/agent/src/conductor.rs:283-351 | A pass is one segment per call in order, adds one message per call with its result under the model's id, and its verdict is the last signal in it |
| Conductor.Conductor.TakeReply | pkgs/host/agent/src/conductor.rs:100-113 | The reply goes through its hook into the request, and its text is shown unless it is empty |
| Conductor.Conductor.Cycle | pkgs/host/agent/src/conductor.rs:91-155 | A cycle completes its own request, shows the reply, then runs every requested call in order, or asks for a follow-up, or does neither, and ends as the signals since decide, also where it ends the loop; if it goes on, it is with the reply, and the answers or the follow-up, and nothing else |
| Conductor.Conductor.GiveUp | pkgs/host/agent/src/conductor.rs:93-99 | A cycle without a completion only announces the reason and fails with it |
| Conductor.Conductor.RunLoop | pkgs/host/agent/src/conductor.rs:89-155 | The cycles follow one another, at least one and at most the limit, each accounted for in full, with at most four calls per provider in each |
| Conductor.Conductor.BuildInitialRequest | pkgs/host/agent/src/conductor.rs:165-206 | The message as the opening hook left it is handed on once; the first request is the history with that message after it, for no model and with no tools |
| Conductor.Conductor.ShapeAll | pkgs/host/agent/src/conductor.rs:79-86 | The three shaping phases run in order, each on what the one before left, and nothing else is done; the first that is blocked or leaves the wrong case ends them, and the failure is its reason |
| Conductor.Conductor.RunShaped | pkgs/host/agent/src/conductor.rs:88-163 | After the cycles an answered turn closes with the finalize hook on the last cycle's text and the one `Done` with what it leaves; a failed one with neither |
| Conductor.Conductor.RunTurn | pkgs/host/agent/src/conductor.rs:56-163 | In every world, whose answers are all that the log holds: the opening; the select-model hook is given the history with the effective message after it, for no model and with no tools, and without shaping the first cycle runs on exactly that; if shaping fails, only its hooks and its reason; else the chained cycles on the shaped request with every requested call of each run once and in order, the closing, tool events in order, one or no `Done`, the limits; after a stop no provider is called, a failed turn has none, and the last cycle ends with the note iff some stop stands |
| Histories.HistoryIsSent | pkgs/host/agent/src/conductor.rs:165-206 | Where no hook changes a request, every provider call of a turn carries the whole history and the effective message after it |
| Histories.CycleEndsAsTold | pkgs/host/agent/src/conductor.rs:91-155 | A cycle with a reply ends by what its log shows: a standing stop and a used-up limit with their notes after the text, a terminating hook or nothing to follow with the bare text, and otherwise it goes on |
| Histories.GaveUpSays | pkgs/host/agent/src/conductor.rs:398-474 | The reason of a failed round: no provider, all failed, or the tool whose arguments stayed invalid |
| Histories.TurnWork | pkgs/host/agent/src/conductor.rs:56-163 | Counted on the log: one effective message, one `Done` or none, replies, tool passes and provider calls within the limit, zero counted as one |
| Cycles.OneMoreCycle | pkgs/host/agent/src/conductor.rs:91-155 | A cycle that begins where the last one ended extends the chain |
| Cycles.PassStep | pkgs/host/agent/src/conductor.rs:291-350 | One more call keeps a pass in order and its verdict right |
| Cycles.LoopStep | pkgs/host/agent/src/conductor.rs:89-155 | One more cycle keeps the loop's order and limits, or ends it with them kept |
| Cycles.CycleRespectsStops | pkgs/host/agent/src/conductor.rs:91-155 | A stop in a cycle ends the loop, no provider is called after it, and the cycle's text carries the note iff the stop stands |

## Left out

- Grapheme segmentation and width tables: a text is given as clusters that never merge, each with its byte length, width and a mark for whitespace.
- Non-ASCII letters and spaces where the program works on characters: lower-casing, trimming and splitting at whitespace know ASCII only.
- JSON parsing: permission arguments are given parsed or as not JSON, with distinct field names; for completions validity is a predicate on the argument text.
- Conductor.Conductor.RunTurn: the session and the principal inside the before-loop state and the sampling options of a request are not modelled apart; the options are one opaque field.
- Conductor.Conductor.CompleteValidated: the wording of the retry and fallback errors is shortened, and a truncated completion's warning too.
- Interceptor dispatch order, approvals inside tools and the session log: the conductor only sees what a dispatch or an invocation returns.
- Context.KeepIndices: sums are unbounded, while the program adds machine words; so is the conductor's cycle counter.
- Diff.Parse: line counters wrap at 2^64 as in a release build, where a debug build would panic.
- Walk.WalkTree: the lister is a function, so a directory that changes while it is walked is not covered.
- PermissionGate.Gate.Intercept: the store keeps what is written to it; failing reads and writes, logging and the wording of prompts and denials are not modelled.
- PermissionGate.Gate.Settle: a question and its answer are one step, so two questions that are open on one scope at the same time, the later of whose answers could change a verdict the earlier one left standing, are not covered.
- EventLoop.Run: a key may have any of its handlers' effects at any time, although open overlays hide some of them; what it states therefore holds for the program's own choices. The notes' wording is shortened.
- App.App.HistoryUp: the composer is plain text here, and whether the caret is on the first or last row is an input; its layout is the subject of module Composer.
- Word motion and line killing in the composer, the menu, path completion, the session switcher's list, help, sidebar, toasts, contributions and rendering: they touch no state the properties speak of.
- `to_text`'s tag stripping and whitespace collapse, output truncation, rendering of diffs and file views, and address vetting: each follows from one branch or from bounds.
- Transports, threads, provider and registry guests: outside calls with no logic of their own to prove.
