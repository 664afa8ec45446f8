// The terminal client's state (pkgs/clients/tui/src/app.rs).
module App {
  import opened Text
  import opened Wrappers

  datatype Who = You | Klod | Error | Status

  datatype ToolStatus =
    | Running
    | Done(content: string, failed: bool)
    | Interrupted

  datatype ToolBlock =
    ToolBlock(id: string, name: string, arguments: Option<string>, status: ToolStatus, expanded: bool)

  datatype Entry =
    | Message(who: Who, text: string)
    | Tool(block: ToolBlock)

  datatype Phase = Idle | Streaming | Cancelling

  /** Where the turn is; blocked is derived from the prompt queue, not stored. */
  datatype Turn = IdleTurn | StreamingTurn | CancellingTurn | BlockedTurn

  /** A question a running turn waits on, with the session it was asked on. */
  datatype Prompt = Prompt(session: string, question: string, options: seq<string>, default: string)

  datatype Pending = Pending(prompt: Prompt, selected: Option<nat>)

  /** A message of a stored session. */
  datatype SessionMessage = SessionMessage(role: string, content: string, toolCallId: Option<string>)

  /** One answer that left: which of the questions asked so far it answers, and what was sent. */
  datatype Reply = Reply(question: nat, session: string, answer: string)

  // ----- the transcript -----

  predicate IsOpen(e: Entry) {
    e.Tool? && e.block.status.Running?
  }

  predicate NothingRuns(transcript: seq<Entry>) {
    forall i :: 0 <= i < |transcript| ==> !IsOpen(transcript[i])
  }

  /** One entry may become the other: a message may change its text, a running call may end, a call may unfold. */
  predicate MayBecome(before: Entry, after: Entry) {
    match before
    case Message(who, _) => after.Message? && after.who == who
    case Tool(b) =>
      && after.Tool?
      && after.block.(status := b.status, expanded := b.expanded) == b
      && (!b.status.Running? ==> after.block.status == b.status)
  }

  /** Entries keep their place and kind, and a call that has ended never changes its status. */
  ghost predicate Grows(before: seq<Entry>, after: seq<Entry>) {
    && |before| <= |after|
    && forall i :: 0 <= i < |before| ==> MayBecome(before[i], after[i])
  }

  lemma {:induction false} GrowsStepByStep(a: seq<Entry>, b: seq<Entry>, c: seq<Entry>)
    requires Grows(a, b) && Grows(b, c)
    ensures Grows(a, c)
  {
    forall i | 0 <= i < |a| ensures MayBecome(a[i], c[i]) {
      assert MayBecome(a[i], b[i]) && MayBecome(b[i], c[i]);
    }
  }

  /** One entry stays as another: a message word for word; a running call may end, a call may unfold. */
  predicate StaysAs(before: Entry, after: Entry) {
    if before.Message? then after == before else MayBecome(before, after)
  }

  /** Everything shown stays shown, in place and word for word, but for calls that end or unfold. */
  ghost predicate Keeps(before: seq<Entry>, after: seq<Entry>) {
    && |before| <= |after|
    && forall i :: 0 <= i < |before| ==> StaysAs(before[i], after[i])
  }

  lemma {:induction false} KeepsStepByStep(a: seq<Entry>, b: seq<Entry>, c: seq<Entry>)
    requires Keeps(a, b) && Keeps(b, c)
    ensures Keeps(a, c)
  {
    forall i | 0 <= i < |a| ensures StaysAs(a[i], c[i]) {
      assert StaysAs(a[i], b[i]) && StaysAs(b[i], c[i]);
    }
  }

  lemma {:induction false} KeepsGrows(before: seq<Entry>, after: seq<Entry>)
    requires Keeps(before, after)
    ensures Grows(before, after)
  {
    forall i | 0 <= i < |before| ensures MayBecome(before[i], after[i]) {
      assert StaysAs(before[i], after[i]);
    }
  }

  lemma {:induction false} MoreKeeps(transcript: seq<Entry>, more: seq<Entry>)
    ensures Keeps(transcript, transcript + more)
  {
  }

  lemma {:induction false} InterruptKeeps(transcript: seq<Entry>)
    ensures Keeps(transcript, InterruptAll(transcript))
  {
  }

  // ----- the cursor over the tool blocks -----

  /** The newest tool block before `from`. */
  function BlockBefore(transcript: seq<Entry>, from: nat): (r: Option<nat>)
    requires from <= |transcript|
    ensures r.Some? ==> r.value < from && transcript[r.value].Tool?
    ensures forall i :: (if r.Some? then r.value else -1) < i < from ==> !transcript[i].Tool?
  {
    if from == 0 then None
    else if transcript[from - 1].Tool? then Some(from - 1)
    else BlockBefore(transcript, from - 1)
  }

  /** The oldest tool block from `from` on. */
  function BlockFrom(transcript: seq<Entry>, from: nat): (r: Option<nat>)
    ensures r.Some? ==> from <= r.value < |transcript| && transcript[r.value].Tool?
    ensures forall i :: from <= i < (if r.Some? then r.value else |transcript|) ==> !transcript[i].Tool?
    decreases |transcript| - from
  {
    if from >= |transcript| then None
    else if transcript[from].Tool? then Some(from)
    else BlockFrom(transcript, from + 1)
  }

  /** What is shown, where the cursor is, and what is asked of the transport. */
  datatype Screen = Screen(transcript: seq<Entry>, cursor: Option<nat>, cancelAsked: bool, newSession: bool)

  function CursorAbove(s: Screen): Option<nat> {
    var from := if s.cursor.Some? && s.cursor.value <= |s.transcript| then s.cursor.value else |s.transcript|;
    var above := BlockBefore(s.transcript, from);
    if above.Some? then above else s.cursor
  }

  function CursorBelow(s: Screen): Option<nat> {
    if s.cursor.None? then None else BlockFrom(s.transcript, s.cursor.value + 1)
  }

  /** The block under the cursor folded or unfolded. */
  function Toggled(s: Screen): seq<Entry> {
    if s.cursor.Some? && s.cursor.value < |s.transcript| && s.transcript[s.cursor.value].Tool? then
      var block := s.transcript[s.cursor.value].block;
      s.transcript[s.cursor.value := Tool(block.(expanded := !block.expanded))]
    else s.transcript
  }

  lemma {:induction false} ToggledKeeps(s: Screen)
    ensures Keeps(s.transcript, Toggled(s))
  {
  }

  function AnswerNote(prompt: Prompt, answer: string): Entry {
    Message(Status, prompt.question + " \U{2192} " + answer)
  }

  function Interrupt(e: Entry): Entry {
    if IsOpen(e) then Tool(e.block.(status := Interrupted)) else e
  }

  function InterruptAll(transcript: seq<Entry>): seq<Entry> {
    seq(|transcript|, i requires 0 <= i < |transcript| => Interrupt(transcript[i]))
  }

  /** The newest running call with this id, searching backwards from `from`. */
  function LastOpen(transcript: seq<Entry>, id: string, from: nat): (r: Option<nat>)
    requires from <= |transcript|
    ensures r.Some? ==> r.value < from && IsOpen(transcript[r.value]) && transcript[r.value].block.id == id
    ensures forall i :: (if r.Some? then r.value else -1) < i < from ==>
              !(IsOpen(transcript[i]) && transcript[i].block.id == id)
  {
    if from == 0 then None
    else if IsOpen(transcript[from - 1]) && transcript[from - 1].block.id == id then Some(from - 1)
    else LastOpen(transcript, id, from - 1)
  }

  // ----- what a running turn does to the transcript -----

  /** The newest entry is the answer in progress. */
  predicate AnswerInProgress(transcript: seq<Entry>) {
    transcript != [] && transcript[|transcript| - 1].Message? && transcript[|transcript| - 1].who == Klod
  }

  function WithDelta(transcript: seq<Entry>, text: string): seq<Entry> {
    var last := |transcript| - 1;
    if AnswerInProgress(transcript) then transcript[last := Message(Klod, transcript[last].text + text)]
    else transcript + [Message(Klod, text)]
  }

  function WithDeltas(transcript: seq<Entry>, texts: seq<string>): seq<Entry> {
    if texts == [] then transcript
    else WithDelta(WithDeltas(transcript, texts[..|texts| - 1]), texts[|texts| - 1])
  }

  function WithAnswer(transcript: seq<Entry>, answer: string): seq<Entry> {
    if AnswerInProgress(transcript) then transcript[|transcript| - 1 := Message(Klod, answer)]
    else transcript + [Message(Klod, answer)]
  }

  function WithResult(transcript: seq<Entry>, id: string, content: string, failed: bool): seq<Entry> {
    var open := LastOpen(transcript, id, |transcript|);
    if open.Some? then
      transcript[open.value := Tool(transcript[open.value].block.(expanded := failed, status := Done(content, failed)))]
    else transcript + [Message(Status, "tool result for an unknown call `" + id + "`")]
  }

  /** A result closes the newest running call with its id, unfolded if it failed; for no such call it is noted. */
  lemma {:induction false} ResultCloses(transcript: seq<Entry>, id: string, content: string, failed: bool, k: nat)
    ensures (forall i :: 0 <= i < |transcript| ==> !IsOpenCall(transcript[i], id)) ==>
              WithResult(transcript, id, content, failed)
              == transcript + [Message(Status, "tool result for an unknown call `" + id + "`")]
    ensures k < |transcript| && IsOpenCall(transcript[k], id)
            && (forall i :: k < i < |transcript| ==> !IsOpenCall(transcript[i], id)) ==>
              var b := transcript[k].block;
              WithResult(transcript, id, content, failed)
              == transcript[..k] + [Tool(ToolBlock(id, b.name, b.arguments, Done(content, failed), failed))]
                 + transcript[k + 1..]
  {
    var open := LastOpen(transcript, id, |transcript|);
    if k < |transcript| && IsOpenCall(transcript[k], id)
       && forall i :: k < i < |transcript| ==> !IsOpenCall(transcript[i], id)
    {
      assert open == Some(k);
    }
  }

  predicate IsOpenCall(e: Entry, id: string) {
    e.Tool? && e.block.status.Running? && e.block.id == id
  }

  function Joined(texts: seq<string>): string {
    if texts == [] then "" else Joined(texts[..|texts| - 1]) + texts[|texts| - 1]
  }

  /** Streamed text gathers in one entry, and the final answer takes that entry's place. */
  lemma {:induction false} AnswerReplacesTheStream(transcript: seq<Entry>, texts: seq<string>, answer: string)
    requires !AnswerInProgress(transcript)
    ensures texts != [] ==> WithDeltas(transcript, texts) == transcript + [Message(Klod, Joined(texts))]
    ensures WithAnswer(WithDeltas(transcript, texts), answer) == transcript + [Message(Klod, answer)]
  {
    if texts != [] {
      var before, last := texts[..|texts| - 1], texts[|texts| - 1];
      AnswerReplacesTheStream(transcript, before, answer);
      if before == [] {
        assert Joined(before) + last == last;
      } else {
        DeltaJoins(transcript, Joined(before), last);
      }
      AnswerTakesOver(transcript, Joined(before) + last, answer);
    }
  }

  lemma {:induction false} DeltaJoins(transcript: seq<Entry>, text: string, more: string)
    ensures WithDelta(transcript + [Message(Klod, text)], more) == transcript + [Message(Klod, text + more)]
  {
  }

  lemma {:induction false} AnswerTakesOver(transcript: seq<Entry>, text: string, answer: string)
    ensures WithAnswer(transcript + [Message(Klod, text)], answer) == transcript + [Message(Klod, answer)]
  {
  }

  /** Interrupting a call twice, or after its result, changes nothing more. */
  lemma {:induction false} InterruptIsFinal(transcript: seq<Entry>, id: string, content: string, failed: bool)
    ensures InterruptAll(InterruptAll(transcript)) == InterruptAll(transcript)
    ensures WithResult(InterruptAll(transcript), id, content, failed)
            == InterruptAll(transcript) + [Message(Status, "tool result for an unknown call `" + id + "`")]
  {
    assert LastOpen(InterruptAll(transcript), id, |transcript|).None?;
  }

  function SessionEntry(m: SessionMessage): Option<Entry> {
    if m.role == "user" then Some(Message(You, m.content))
    else if m.role == "assistant" then Some(Message(Klod, m.content))
    else if m.role == "tool" then
      var id := if m.toolCallId.Some? then m.toolCallId.value else "";
      Some(Tool(ToolBlock(id, id, None, Done(m.content, false), false)))
    else None
  }

  /** A stored session shows what was said and what the tools gave, in order, and nothing else. */
  lemma {:induction false} StoredMessageShows(before: seq<SessionMessage>, m: SessionMessage)
    ensures SessionEntries([]) == []
    ensures m.role == "user" ==> SessionEntries(before + [m]) == SessionEntries(before) + [Message(You, m.content)]
    ensures m.role == "assistant" ==>
              SessionEntries(before + [m]) == SessionEntries(before) + [Message(Klod, m.content)]
    ensures m.role == "tool" ==>
              var id := match m.toolCallId case Some(id) => id case None => "";
              SessionEntries(before + [m])
              == SessionEntries(before) + [Tool(ToolBlock(id, id, None, Done(m.content, false), false))]
    ensures m.role !in ["user", "assistant", "tool"] ==> SessionEntries(before + [m]) == SessionEntries(before)
  {
    if before == [] {
      assert [] + [m] == [m] && [m][1..] == [];
    } else {
      assert (before + [m])[1..] == before[1..] + [m];
      StoredMessageShows(before[1..], m);
    }
  }

  function SessionEntries(messages: seq<SessionMessage>): (entries: seq<Entry>)
    ensures forall i :: 0 <= i < |entries| ==> !IsOpen(entries[i])
  {
    if messages == [] then []
    else
      var first := SessionEntry(messages[0]);
      (if first.Some? then [first.value] else []) + SessionEntries(messages[1..])
  }

  // ----- prompts -----

  function IndexOf(options: seq<string>, s: string): (r: Option<nat>)
    ensures r.Some? ==> r.value < |options| && options[r.value] == s && s !in options[..r.value]
    ensures r.None? ==> s !in options
  {
    if options == [] then None
    else if options[0] == s then Some(0)
    else
      var rest := IndexOf(options[1..], s);
      if rest.Some? then Some(rest.value + 1) else None
  }

  /** Every marked option is one of the question's. */
  predicate SelectionsExist(prompts: seq<Pending>) {
    forall i :: 0 <= i < |prompts| && prompts[i].selected.Some? ==>
      prompts[i].selected.value < |prompts[i].prompt.options|
  }

  /** The waiting questions are the last ones asked, in order. */
  ghost predicate WaitingTail(prompts: seq<Pending>, asked: seq<Prompt>) {
    && |prompts| <= |asked|
    && forall i :: 0 <= i < |prompts| ==> prompts[i].prompt == asked[|asked| - |prompts| + i]
  }

  /** Replies went out in ask order, at most one to a question, on its own session, with one of its options. */
  ghost predicate RepliesInOrder(replies: seq<Reply>, asked: seq<Prompt>, open: nat) {
    && (forall i :: 0 <= i < |replies| ==>
          && replies[i].question < |asked|
          && replies[i].question + open < |asked|
          && var p := asked[replies[i].question];
             && replies[i].session == p.session
             && (p.options != [] ==> replies[i].answer in p.options))
    && (forall i, j :: 0 <= i < j < |replies| ==> replies[i].question < replies[j].question)
  }

  /** Answering the front question keeps the books. */
  lemma {:induction false} ReplyKeepsOrder(replies: seq<Reply>, asked: seq<Prompt>, prompts: seq<Pending>,
                                           answer: string)
    requires prompts != [] && WaitingTail(prompts, asked) && RepliesInOrder(replies, asked, |prompts|)
    requires var p := prompts[0].prompt; p.options != [] ==> answer in p.options
    requires SelectionsExist(prompts)
    ensures SelectionsExist(prompts[1..]) && WaitingTail(prompts[1..], asked)
    ensures var reply := Reply(|asked| - |prompts|, prompts[0].prompt.session, answer);
            RepliesInOrder(replies + [reply], asked, |prompts[1..]|)
  {
    assert asked[|asked| - |prompts|] == prompts[0].prompt;
    forall i | 0 <= i < |prompts[1..]|
      ensures prompts[1..][i].prompt == asked[|asked| - |prompts[1..]| + i]
    {
      assert prompts[i + 1].prompt == asked[|asked| - |prompts| + (i + 1)];
    }
  }

  // ----- what Enter depends on -----

  /** The part of the state that decides what Enter does and sends. */
  datatype Front = Front(phase: Phase, prompts: seq<Pending>, dialogOpen: bool, composer: string,
                         history: seq<string>, recall: Option<(nat, string)>, disconnected: bool)

  const START := Front(Idle, [], false, "", [], None, false)

  predicate WellFormed(f: Front) {
    SelectionsExist(f.prompts) && (f.recall.Some? ==> f.recall.value.0 < |f.history|)
  }

  function TurnFor(prompts: seq<Pending>, phase: Phase): Turn {
    if prompts != [] then BlockedTurn
    else match phase
      case Idle => IdleTurn
      case Streaming => StreamingTurn
      case Cancelling => CancellingTurn
  }

  /** The answer is the option that is marked; to an open question, the text typed, or the default for none. */
  predicate AsMarked(front: Pending, typed: string, answer: string) {
    if front.prompt.options != [] then
      front.selected.Some? && front.selected.value < |front.prompt.options| &&
      answer == front.prompt.options[front.selected.value]
    else answer == if typed != "" then typed else front.prompt.default
  }

  /** What the front question would be answered with now: the marked option, or typed text or the default. */
  function ReadyFor(prompts: seq<Pending>, composer: string): (r: Option<string>)
    requires SelectionsExist(prompts)
    ensures r.Some? ==> prompts != [] && (prompts[0].prompt.options != [] ==> r.value in prompts[0].prompt.options)
    ensures r.None? <==> prompts == [] || (prompts[0].prompt.options != [] && prompts[0].selected.None?)
    ensures r.Some? ==> AsMarked(prompts[0], composer, r.value)
  {
    if prompts == [] then None
    else if prompts[0].prompt.options == [] then Some(if composer == "" then prompts[0].prompt.default else composer)
    else if prompts[0].selected.None? then None
    else Some(prompts[0].prompt.options[prompts[0].selected.value])
  }

  function Quieted(f: Front): Front {
    f.(phase := Idle, prompts := [], dialogOpen := false)
  }

  function Moved(prompts: seq<Pending>, delta: int): (moved: seq<Pending>)
    requires SelectionsExist(prompts)
    ensures SelectionsExist(moved)
  {
    if prompts == [] || prompts[0].prompt.options == [] then prompts
    else
      var front := prompts[0];
      var current := if front.selected.Some? then front.selected.value else 0;
      [Pending(front.prompt, Some((current + delta) % |front.prompt.options|))] + prompts[1..]
  }

  function Jumped(prompts: seq<Pending>, oneBased: nat): (jumped: seq<Pending>)
    requires SelectionsExist(prompts)
    ensures SelectionsExist(jumped)
  {
    if prompts == [] || !(1 <= oneBased <= |prompts[0].prompt.options|) then prompts
    else [Pending(prompts[0].prompt, Some(oneBased - 1))] + prompts[1..]
  }

  /**
    Only the front selection changes, to an option of its question; it turns by `delta` and comes back the
    other way.
   */
  lemma {:induction false} MovedTurnsTheFront(prompts: seq<Pending>, delta: int)
    requires SelectionsExist(prompts)
    ensures |Moved(prompts, delta)| == |prompts|
    ensures prompts != [] ==>
              && Moved(prompts, delta)[1..] == prompts[1..]
              && Moved(prompts, delta)[0].prompt == prompts[0].prompt
    ensures prompts != [] && prompts[0].selected.Some? ==> Moved(Moved(prompts, delta), -delta) == prompts
    ensures prompts != [] && prompts[0].selected.Some? ==>
              Moved(prompts, delta + |prompts[0].prompt.options|) == Moved(prompts, delta)
  {
    if prompts != [] && prompts[0].selected.Some? {
      var n, at := |prompts[0].prompt.options|, prompts[0].selected.value;
      TurnsBack(at, delta, n);
      assert prompts == [prompts[0]] + prompts[1..];
    }
  }

  lemma {:induction false} TurnsBack(at: nat, delta: int, n: nat)
    requires at < n
    ensures ((at + delta) % n - delta) % n == at
    ensures (at + (delta + n)) % n == (at + delta) % n
  {
    var q := (at + delta) / n;
    assert (at + delta) % n - delta == at - q * n;
    ModOf(at - q * n, -q, n, at);
    ModOf(at + (delta + n), q + 1, n, (at + delta) % n);
  }

  lemma {:induction false} ModOf(x: int, q: int, n: nat, r: nat)
    requires r < n && x == q * n + r
    ensures x % n == r
  {
    var p := x / n;
    assert x == p * n + x % n;
    assert (q - p) * n == x % n - r;
    var m := q - p;
    assert m >= 1 ==> m * n >= n;
    assert m <= -1 ==> m * n + n <= 0;
  }

  /** The composer shows a recalled message that is not the oldest, or is empty with no message recalled. */
  predicate CanGoBack(f: Front) {
    match f.recall
    case None => f.composer == "" && f.history != []
    case Some((at, text)) =>
      0 < at < |f.history| && text == f.history[at] == f.composer && Trim(text) != ""
  }

  /** Recall goes back one message at a time, and what went back once comes forward again. */
  lemma {:induction false} DownUndoesUp(f: Front)
    requires WellFormed(f) && CanGoBack(f)
    ensures var up, at := FrontAfterUp(f, true), if f.recall.Some? then f.recall.value.0 else |f.history|;
            && up.composer == f.history[at - 1] && up.recall == Some((at - 1, up.composer))
            && FrontAfterDown(up, true) == f
  {
    assert Trim("") == "";
  }

  /** Recall applies while the text is blank or the recalled message itself. */
  predicate Recalling(f: Front) {
    Trim(f.composer) == "" || (f.recall.Some? && f.recall.value.1 == f.composer)
  }

  function Recalled(f: Front, at: nat): Front
    requires at < |f.history|
  {
    f.(recall := Some((at, f.history[at])), composer := f.history[at])
  }

  function FrontAfterUp(f: Front, onFirstRow: bool): (g: Front)
    requires WellFormed(f)
    ensures WellFormed(g)
  {
    if !(onFirstRow && Recalling(f)) || f.history == [] then f
    else
      var at := if Trim(f.composer) == "" || f.recall.None? then |f.history| else f.recall.value.0;
      if at == 0 then f else Recalled(f, at - 1)
  }

  function FrontAfterDown(f: Front, onLastRow: bool): (g: Front)
    requires WellFormed(f)
    ensures WellFormed(g)
  {
    if !(onLastRow && Recalling(f)) || f.recall.None? then f
    else if f.recall.value.0 + 1 < |f.history| then Recalled(f, f.recall.value.0 + 1)
    else f.(recall := None, composer := "")
  }

  /** The composer is emptied, and text that is not blank goes into the history. */
  function Submitted(f: Front): (g: Front)
    requires WellFormed(f)
    ensures WellFormed(g)
  {
    var text := Trim(f.composer);
    if text == "" then f.(composer := "") else f.(composer := "", history := f.history + [text], recall := None)
  }

  class App {
    /** What the composer holds; its caret and layout are modelled in module Composer. */
    var composer: string
    var transcript: seq<Entry>
    var history: seq<string>
    var recall: Option<(nat, string)>
    var cursor: Option<nat>
    var phase: Phase
    var cancelRequested: bool
    var prompts: seq<Pending>
    var dialogOpen: bool
    var disconnected: bool
    var session: string
    var shouldQuit: bool
    var newSessionRequested: bool
    /** Every question ever asked, and every reply that left. */
    ghost var asked: seq<Prompt>
    ghost var replies: seq<Reply>

    ghost predicate Valid()
      reads this
    {
      && (dialogOpen ==> prompts != [])
      && SelectionsExist(prompts)
      && (cursor.Some? ==> cursor.value < |transcript| && transcript[cursor.value].Tool?)
      && (recall.Some? ==> recall.value.0 < |history| && history[recall.value.0] == recall.value.1)
      && WaitingTail(prompts, asked)
      && RepliesInOrder(replies, asked, |prompts|)
    }

    /** No turn runs: nothing waits, nothing is open. */
    ghost predicate Quiet()
      reads this
    {
      phase.Idle? && prompts == [] && !dialogOpen && NothingRuns(transcript)
    }

    constructor (session: string)
      ensures Valid() && Quiet() && !shouldQuit && replies == [] && asked == []
      ensures this.session == session && transcript == [] && View() == START
      ensures Shown() == Screen([], None, false, false)
    {
      composer, transcript, history, recall, cursor := "", [], [], None, None;
      phase, cancelRequested, prompts, dialogOpen, disconnected := Idle, false, [], false, false;
      this.session, shouldQuit, newSessionRequested := session, false, false;
      asked, replies := [], [];
    }

    function View(): Front
      reads this
    {
      Front(phase, prompts, dialogOpen, composer, history, recall, disconnected)
    }

    function Shown(): Screen
      reads this
    {
      Screen(transcript, cursor, cancelRequested, newSessionRequested)
    }

    function TurnState(): Turn
      reads this`prompts, this`phase
    {
      TurnFor(prompts, phase)
    }

    // ----- the cursor -----

    method CursorUp() returns (moved: bool)
      requires Valid()
      modifies this`cursor
      ensures Valid()
      ensures moved <==> exists i :: 0 <= i < (if old(cursor).Some? then old(cursor).value else |transcript|)
                           && transcript[i].Tool?
      ensures moved ==>
                && cursor.Some? && cursor.value < (if old(cursor).Some? then old(cursor).value else |transcript|)
                && forall i :: cursor.value < i < (if old(cursor).Some? then old(cursor).value else |transcript|) ==>
                     !transcript[i].Tool?
      ensures !moved ==> cursor == old(cursor)
      ensures cursor == CursorAbove(old(Shown()))
    {
      var i := if cursor.Some? then cursor.value else |transcript|;
      ghost var limit := i;
      while i > 0
        invariant 0 <= i <= limit
        invariant forall j :: i <= j < limit ==> !transcript[j].Tool?
      {
        i := i - 1;
        if transcript[i].Tool? {
          cursor := Some(i);
          return true;
        }
      }
      return false;
    }

    method CursorDown() returns (moved: bool)
      requires Valid()
      modifies this`cursor
      ensures Valid()
      ensures moved <==> old(cursor).Some?
      ensures old(cursor).Some? && cursor.Some? ==>
                && cursor.value > old(cursor).value
                && forall i :: old(cursor).value < i < cursor.value ==> !transcript[i].Tool?
      ensures old(cursor).Some? && cursor.None? ==>
                forall i :: old(cursor).value < i < |transcript| ==> !transcript[i].Tool?
      ensures cursor == CursorBelow(old(Shown()))
    {
      if cursor.None? {
        return false;
      }
      var at := cursor.value;
      var i := at + 1;
      cursor := None;
      while i < |transcript|
        invariant at < i <= |transcript|
        invariant cursor.None?
        invariant forall j :: at < j < i ==> !transcript[j].Tool?
      {
        if transcript[i].Tool? {
          cursor := Some(i);
          return true;
        }
        i := i + 1;
      }
      return true;
    }

    method ToggleExpanded() returns (toggled: bool)
      requires Valid()
      modifies this`transcript
      ensures Valid() && Grows(old(transcript), transcript)
      ensures toggled <==> cursor.Some?
      ensures transcript == if cursor.None? then old(transcript)
                            else
                              var block := old(transcript)[cursor.value].block;
                              old(transcript)[cursor.value := Tool(block.(expanded := !block.expanded))]
      ensures NothingRuns(old(transcript)) ==> NothingRuns(transcript)
    {
      if cursor.None? {
        return false;
      }
      var block := transcript[cursor.value].block;
      transcript := transcript[cursor.value := Tool(block.(expanded := !block.expanded))];
      return true;
    }

    // ----- the transcript -----

    method Record(who: Who, text: string)
      requires Valid()
      modifies this`transcript
      ensures Valid() && transcript == old(transcript) + [Message(who, text)]
      ensures Grows(old(transcript), transcript)
      ensures NothingRuns(old(transcript)) ==> NothingRuns(transcript)
    {
      transcript := transcript + [Message(who, text)];
    }

    method RecordToolInvoked(id: string, name: string, arguments: Option<string>)
      requires Valid()
      modifies this`transcript
      ensures Valid() && transcript == old(transcript) + [Tool(ToolBlock(id, name, arguments, Running, false))]
      ensures Grows(old(transcript), transcript)
    {
      transcript := transcript + [Tool(ToolBlock(id, name, arguments, Running, false))];
    }

    /** Closes the newest running call with this id; a result for no such call is noted. */
    method RecordToolResult(id: string, content: string, failed: bool)
      requires Valid()
      modifies this`transcript
      ensures Valid() && Grows(old(transcript), transcript)
      ensures transcript == WithResult(old(transcript), id, content, failed)
    {
      var open := LastOpen(transcript, id, |transcript|);
      if open.Some? {
        var block := transcript[open.value].block;
        transcript := transcript[open.value := Tool(block.(expanded := failed, status := Done(content, failed)))];
      } else {
        Record(Status, "tool result for an unknown call `" + id + "`");
      }
    }

    method InterruptOpenTools()
      requires Valid()
      modifies this`transcript
      ensures Valid() && transcript == InterruptAll(old(transcript)) && |transcript| == |old(transcript)|
      ensures forall i :: 0 <= i < |transcript| ==>
                transcript[i] == if old(transcript)[i].Tool? && old(transcript)[i].block.status.Running?
                                 then Tool(old(transcript)[i].block.(status := Interrupted))
                                 else old(transcript)[i]
      ensures Grows(old(transcript), transcript) && NothingRuns(transcript)
    {
      var i := 0;
      ghost var before := transcript;
      while i < |transcript|
        invariant 0 <= i <= |transcript| == |before|
        invariant forall j :: 0 <= j < i ==> transcript[j] == Interrupt(before[j])
        invariant forall j :: i <= j < |before| ==> transcript[j] == before[j]
      {
        if IsOpen(transcript[i]) {
          transcript := transcript[i := Tool(transcript[i].block.(status := Interrupted))];
        }
        i := i + 1;
      }
    }

    /** Appends to the answer in progress, or starts one. */
    method ApplyDelta(text: string)
      requires Valid()
      modifies this`transcript
      ensures Valid() && Grows(old(transcript), transcript)
      ensures NothingRuns(old(transcript)) ==> NothingRuns(transcript)
      ensures transcript == WithDelta(old(transcript), text)
      ensures transcript
              == if old(transcript) != [] && old(transcript)[|old(transcript)| - 1].Message?
                    && old(transcript)[|old(transcript)| - 1].who == Klod
                 then old(transcript)[..|old(transcript)| - 1]
                      + [Message(Klod, old(transcript)[|old(transcript)| - 1].text + text)]
                 else old(transcript) + [Message(Klod, text)]
    {
      var last := |transcript| - 1;
      if last >= 0 && transcript[last].Message? && transcript[last].who == Klod {
        transcript := transcript[last := Message(Klod, transcript[last].text + text)];
      } else {
        Record(Klod, text);
      }
    }

    // ----- the turn -----

    method BeginTurn()
      modifies this`phase
      requires Valid()
      ensures Valid() && phase == Streaming
    {
      phase := Streaming;
    }

    method Cancel() returns (asking: bool)
      requires Valid()
      modifies this`phase, this`cancelRequested, this`prompts, this`dialogOpen, this`transcript
      ensures Valid() && Grows(old(transcript), transcript)
      ensures asking <==> old(phase).Streaming?
      ensures asking ==> phase == Cancelling && cancelRequested && prompts == [] && !dialogOpen
      ensures asking ==> transcript == InterruptAll(old(transcript)) && NothingRuns(transcript)
      ensures !asking ==> unchanged(this)
    {
      if !phase.Streaming? {
        return false;
      }
      phase := Cancelling;
      cancelRequested := true;
      prompts := [];
      dialogOpen := false;
      InterruptOpenTools();
      return true;
    }

    method EndTurn()
      requires Valid()
      modifies this`phase, this`prompts, this`dialogOpen, this`transcript
      ensures Valid() && Quiet() && Grows(old(transcript), transcript)
      ensures transcript == InterruptAll(old(transcript))
    {
      phase := Idle;
      prompts := [];
      dialogOpen := false;
      InterruptOpenTools();
    }

    /** Replaces the partial answer with the final one. */
    method FinishTurn(answer: string)
      requires Valid()
      modifies this`phase, this`transcript
      ensures Valid() && phase == Idle && Grows(old(transcript), transcript)
      ensures NothingRuns(old(transcript)) ==> NothingRuns(transcript)
      ensures transcript == WithAnswer(old(transcript), answer)
      ensures transcript
              == if old(transcript) != [] && old(transcript)[|old(transcript)| - 1].Message?
                    && old(transcript)[|old(transcript)| - 1].who == Klod
                 then old(transcript)[..|old(transcript)| - 1] + [Message(Klod, answer)]
                 else old(transcript) + [Message(Klod, answer)]
    {
      phase := Idle;
      var last := |transcript| - 1;
      if last >= 0 && transcript[last].Message? && transcript[last].who == Klod {
        transcript := transcript[last := Message(Klod, answer)];
      } else {
        Record(Klod, answer);
      }
    }

    method Disconnect(reason: string)
      requires Valid()
      modifies this`disconnected, this`phase, this`prompts, this`dialogOpen, this`transcript
      ensures Valid() && Quiet() && disconnected && Grows(old(transcript), transcript)
      ensures transcript
              == InterruptAll(old(transcript) + if old(disconnected) then [] else [Message(Error, reason)])
    {
      ghost var before := transcript;
      if !disconnected {
        disconnected := true;
        Record(Error, reason);
      }
      ghost var noted := transcript;
      assert noted == before + if old(disconnected) then [] else [Message(Error, reason)];
      phase := Idle;
      prompts := [];
      dialogOpen := false;
      InterruptOpenTools();
      GrowsStepByStep(before, noted, transcript);
    }

    // ----- prompts -----

    method Ask(prompt: Prompt)
      requires Valid()
      modifies this`prompts, this`dialogOpen, this`asked
      ensures Valid()
      ensures asked == old(asked) + [prompt]
      ensures prompts == old(prompts) + [Pending(prompt, IndexOf(prompt.options, prompt.default))]
      ensures dialogOpen == (old(dialogOpen) || old(prompts) == [])
    {
      var selected := IndexOf(prompt.options, prompt.default);
      var opening := prompts == [];
      prompts := prompts + [Pending(prompt, selected)];
      asked := asked + [prompt];
      if opening {
        dialogOpen := true;
      }
    }

    method OpenDialog()
      requires Valid()
      modifies this`dialogOpen
      ensures Valid() && dialogOpen == (old(dialogOpen) || prompts != [])
    {
      if prompts != [] {
        dialogOpen := true;
      }
    }

    method CloseDialog()
      requires Valid()
      modifies this`dialogOpen
      ensures Valid() && !dialogOpen
    {
      dialogOpen := false;
    }

    /** Moves the front selection, wrapping at both ends. */
    method PromptMove(delta: int)
      requires Valid()
      modifies this`prompts
      ensures Valid()
      ensures prompts == Moved(old(prompts), delta)
      ensures |prompts| == |old(prompts)| && (prompts != [] ==> prompts[1..] == old(prompts)[1..])
      ensures prompts != [] && prompts[0].prompt.options != [] ==>
                var before := if old(prompts)[0].selected.Some? then old(prompts)[0].selected.value else 0;
                prompts[0] == Pending(old(prompts)[0].prompt,
                                      Some((before + delta) % |old(prompts)[0].prompt.options|))
    {
      if prompts == [] || prompts[0].prompt.options == [] {
        return;
      }
      var front := prompts[0];
      var current := if front.selected.Some? then front.selected.value else 0;
      var next := (current + delta) % |front.prompt.options|;
      prompts := [Pending(front.prompt, Some(next))] + prompts[1..];
    }

    method PromptJump(oneBased: nat)
      requires Valid()
      modifies this`prompts
      ensures Valid()
      ensures prompts == Jumped(old(prompts), oneBased)
      ensures |prompts| == |old(prompts)| && (prompts != [] ==> prompts[1..] == old(prompts)[1..])
      ensures prompts != [] && 1 <= oneBased <= |old(prompts)[0].prompt.options| ==>
                prompts[0] == Pending(old(prompts)[0].prompt, Some(oneBased - 1))
    {
      if prompts == [] {
        return;
      }
      var front := prompts[0];
      if 1 <= oneBased <= |front.prompt.options| {
        prompts := [Pending(front.prompt, Some(oneBased - 1))] + prompts[1..];
      }
    }

    function ReadyAnswer(): Option<string>
      reads this`prompts, this`composer
      requires SelectionsExist(prompts)
    {
      ReadyFor(prompts, composer)
    }

    /** The answer to the front question, if it is ready, with the question's own session. */
    method TakeAnswer() returns (answer: Option<(string, string)>)
      requires Valid()
      modifies this`prompts, this`dialogOpen, this`composer, this`transcript, this`replies
      ensures Valid() && Grows(old(transcript), transcript)
      ensures NothingRuns(old(transcript)) ==> NothingRuns(transcript)
      ensures answer.None? <==> old(ReadyAnswer()).None?
      ensures answer.None? ==> unchanged(this)
      ensures answer.Some? ==> old(prompts) != [] && AsMarked(old(prompts)[0], old(composer), answer.value.1)
      ensures answer.Some? ==>
                && answer.value == (old(prompts)[0].prompt.session, old(ReadyAnswer()).value)
                && prompts == old(prompts)[1..] && dialogOpen == (prompts != []) && composer == ""
                && replies == old(replies) + [Reply(|asked| - |old(prompts)|, answer.value.0, answer.value.1)]
                && transcript == old(transcript) + [AnswerNote(old(prompts)[0].prompt, answer.value.1)]
    {
      var said := ReadyAnswer();
      if said.None? {
        return None;
      }
      var front := prompts[0].prompt;
      PopFront(said.value);
      answer := Some((front.session, said.value));
    }

    /** Takes the answered question off the queue and notes the answer. */
    method PopFront(said: string)
      requires Valid() && prompts != []
      requires var p := prompts[0].prompt; p.options != [] ==> said in p.options
      modifies this`prompts, this`dialogOpen, this`composer, this`transcript, this`replies
      ensures Valid()
      ensures prompts == old(prompts)[1..] && dialogOpen == (prompts != []) && composer == ""
      ensures replies == old(replies) + [Reply(|asked| - |old(prompts)|, old(prompts)[0].prompt.session, said)]
      ensures transcript == old(transcript) + [AnswerNote(old(prompts)[0].prompt, said)]
    {
      var front := prompts[0].prompt;
      ReplyKeepsOrder(replies, asked, prompts, said);
      replies := replies + [Reply(|asked| - |prompts|, front.session, said)];
      prompts := prompts[1..];
      composer := "";
      dialogOpen := prompts != [];
      transcript := transcript + [AnswerNote(front, said)];
    }

    // ----- the composer and its history -----

    /** Any edit of the text in the composer. */
    method Edit(text: string)
      requires Valid()
      modifies this`composer
      ensures Valid() && composer == text
    {
      composer := text;
    }

    /** Takes the trimmed message if there is one; blank text is dropped. */
    method TakeSubmission() returns (message: Option<string>)
      requires Valid()
      modifies this`composer, this`history, this`recall, this`transcript
      ensures Valid() && composer == "" && Grows(old(transcript), transcript)
      ensures NothingRuns(old(transcript)) ==> NothingRuns(transcript)
      ensures message == if Trim(old(composer)) == "" then None else Some(Trim(old(composer)))
      ensures message.None? ==> history == old(history) && recall == old(recall) && transcript == old(transcript)
      ensures message.Some? ==>
                && history == old(history) + [message.value] && recall.None?
                && transcript == old(transcript) + [Message(You, message.value)]
    {
      var text := Trim(composer);
      composer := "";
      if text == "" {
        return None;
      }
      history := history + [text];
      recall := None;
      Record(You, text);
      message := Some(text);
    }

    predicate ComposerUnmodified()
      reads this`composer, this`recall
    {
      Trim(composer) == "" || (recall.Some? && recall.value.1 == composer)
    }

    /** The previous message; off the first row, or over edited text, only the caret moves. */
    method HistoryUp(onFirstRow: bool)
      requires Valid()
      modifies this`composer, this`recall
      ensures Valid()
      ensures View() == FrontAfterUp(old(View()), onFirstRow)
      ensures !(onFirstRow && old(ComposerUnmodified())) || history == [] ==>
                composer == old(composer) && recall == old(recall)
      ensures onFirstRow && old(ComposerUnmodified()) && history != [] ==>
                var at := if Trim(old(composer)) == "" || old(recall).None? then |history|
                          else old(recall).value.0;
                if at == 0 then composer == old(composer) && recall == old(recall)
                else recall == Some((at - 1, history[at - 1])) && composer == history[at - 1]
    {
      if !(onFirstRow && ComposerUnmodified()) {
        return;
      }
      if Trim(composer) == "" {
        recall := None;
      }
      var next;
      if recall.Some? {
        if recall.value.0 == 0 {
          return;
        }
        next := recall.value.0 - 1;
      } else {
        if history == [] {
          return;
        }
        next := |history| - 1;
      }
      composer := history[next];
      recall := Some((next, composer));
    }

    /** The next message, or an empty composer after the last one. */
    method HistoryDown(onLastRow: bool)
      requires Valid()
      modifies this`composer, this`recall
      ensures Valid()
      ensures View() == FrontAfterDown(old(View()), onLastRow)
      ensures !(onLastRow && old(ComposerUnmodified())) || old(recall).None? ==>
                composer == old(composer) && recall == old(recall)
      ensures onLastRow && old(ComposerUnmodified()) && old(recall).Some? ==>
                var next := old(recall).value.0 + 1;
                if next < |history| then recall == Some((next, history[next])) && composer == history[next]
                else recall.None? && composer == ""
    {
      if !(onLastRow && ComposerUnmodified()) || recall.None? {
        return;
      }
      var next := recall.value.0 + 1;
      if next < |history| {
        composer := history[next];
        recall := Some((next, composer));
      } else {
        composer := "";
        recall := None;
      }
    }

    // ----- sessions -----

    /** Replaces the view with a stored session. */
    method LoadSession(id: string, messages: seq<SessionMessage>)
      requires Valid()
      modifies this`session, this`transcript, this`cursor
      ensures Valid() && session == id && transcript == SessionEntries(messages) && NothingRuns(transcript)
      ensures cursor.None?
    {
      session := id;
      transcript := SessionEntries(messages);
      cursor := None;
    }

    /** Asks for a fresh session, unless a question is on screen. */
    method RequestNewSession()
      requires Valid()
      modifies this`newSessionRequested
      ensures Valid() && newSessionRequested == (old(newSessionRequested) || !dialogOpen)
    {
      if !dialogOpen {
        newSessionRequested := true;
      }
    }

    method TakeNewSessionRequest() returns (asking: bool)
      requires Valid()
      modifies this`newSessionRequested
      ensures Valid() && asking == old(newSessionRequested) && !newSessionRequested
    {
      asking := newSessionRequested;
      newSessionRequested := false;
    }

    method TakeCancelRequest() returns (asking: bool)
      requires Valid()
      modifies this`cancelRequested
      ensures Valid() && asking == old(cancelRequested) && !cancelRequested
    {
      asking := cancelRequested;
      cancelRequested := false;
    }

    method Quit()
      requires Valid()
      modifies this`shouldQuit
      ensures Valid() && shouldQuit
    {
      shouldQuit := true;
    }
  }
}
