// The client's event loop as a function of what it reads, and what whole runs must look like
// (pkgs/clients/tui/src/tui.rs).
module Loops {
  import opened App
  import opened Text
  import opened Wrappers

  /** What arrives on the stream of a running turn. */
  datatype StreamEvent =
    | Delta(text: string)
    | Finished(answer: string)
    | ToolStarted(id: string, name: string, arguments: Option<string>)
    | ToolEnded(id: string, content: string, failed: bool)
    | Warning(message: string)
    | Question(prompt: Prompt)
    | Failed(error: string)
    | Contributions
    | Broken(reason: string)
    | HungUp

  /** What one turn of the loop reads from the keyboard, as the call its handlers make. */
  datatype Input =
    | Timeout(alive: bool)
    | Typed(text: string)
    | UpKey(onFirstRow: bool)
    | DownKey(onLastRow: bool)
    | PreviousBlock
    | NextBlock
    | ToggleBlock
    | DismissDialog
    | MoveSelection(delta: int)
    | JumpSelection(oneBased: nat)
    | CancelKey
    | NewSessionCommand
    | SwitchTo(stored: Option<(string, seq<SessionMessage>)>)
    | Note(text: string)
    | QuitKey
    | EnterKey

  /**
    One turn of the loop: the events the stream has ready, what the transport answers if asked (to a cancel, to the
    session list or a contributed command, to a new session, to a follow-up), and the input.
   */
  datatype Tick = Tick(ready: seq<StreamEvent>, cancelled: string, notes: seq<(Who, string)>, created: Option<string>,
                       refusal: Option<string>, input: Input)

  /** What the loop does to the transport. */
  datatype Act =
    | Opened(message: string)
    | Closed
    | Steered(message: string)
    | Answered(session: string, answer: string)

  datatype Enter = Answer | ReopenPrompt | Steer | Send | Nothing

  // ----- the stream -----

  /** A final answer, an error, a broken stream or a hang-up ends the turn. */
  predicate Ends(event: StreamEvent) {
    event.Finished? || event.Failed? || event.Broken? || event.HungUp?
  }

  /** The transcript after one event. */
  function AfterEvent(transcript: seq<Entry>, event: StreamEvent, disconnected: bool): seq<Entry> {
    match event
    case Delta(text) => WithDelta(transcript, text)
    case Finished(answer) => WithAnswer(InterruptAll(transcript), answer)
    case ToolStarted(id, name, arguments) => transcript + [Tool(ToolBlock(id, name, arguments, Running, false))]
    case ToolEnded(id, content, failed) => WithResult(transcript, id, content, failed)
    case Warning(message) => transcript + [Message(Status, "\U{26A0} " + message)]
    case Failed(error) => InterruptAll(transcript) + [Message(Error, error)]
    case Broken(reason) => InterruptAll(transcript + if disconnected then [] else [Message(Error, reason)])
    case _ => transcript
  }

  /** `after` shows what `before` does, with every running call interrupted. */
  ghost predicate AllInterrupted(before: seq<Entry>, after: seq<Entry>) {
    && |after| == |before|
    && forall i :: 0 <= i < |before| ==>
         after[i] == if before[i].Tool? && before[i].block.status.Running?
                     then Tool(before[i].block.(status := Interrupted)) else before[i]
  }

  /** What each event of the stream shows, and which of them end the turn. */
  lemma {:induction false} EventShows(transcript: seq<Entry>, event: StreamEvent, disconnected: bool)
    ensures var after := AfterEvent(transcript, event, disconnected);
            match event
            case Delta(text) =>
              && !Ends(event)
              && var last := |transcript| - 1;
                 if last >= 0 && transcript[last].Message? && transcript[last].who == Klod
                 then after == transcript[..last] + [Message(Klod, transcript[last].text + text)]
                 else after == transcript + [Message(Klod, text)]
            case Finished(answer) =>
              && Ends(event)
              && exists stopped: seq<Entry> ::
                   && AllInterrupted(transcript, stopped)
                   && if stopped != [] && stopped[|stopped| - 1].Message? && stopped[|stopped| - 1].who == Klod
                      then after == stopped[..|stopped| - 1] + [Message(Klod, answer)]
                      else after == stopped + [Message(Klod, answer)]
            case ToolStarted(id, name, arguments) =>
              !Ends(event) && after == transcript + [Tool(ToolBlock(id, name, arguments, Running, false))]
            case ToolEnded(id, content, failed) => !Ends(event) && after == WithResult(transcript, id, content, failed)
            case Warning(message) =>
              !Ends(event) && after == transcript + [Message(Status, "\U{26A0} " + message)]
            case Question(_) => !Ends(event) && after == transcript
            case Contributions => !Ends(event) && after == transcript
            case Failed(error) =>
              && Ends(event)
              && exists stopped: seq<Entry> ::
                   AllInterrupted(transcript, stopped) && after == stopped + [Message(Error, error)]
            case Broken(reason) =>
              && Ends(event)
              && AllInterrupted(transcript + (if disconnected then [] else [Message(Error, reason)]), after)
            case HungUp => Ends(event) && after == transcript
  {
    if event.Finished? || event.Failed? {
      assert AllInterrupted(transcript, InterruptAll(transcript));
    }
  }

  function AfterEvents(transcript: seq<Entry>, events: seq<StreamEvent>, disconnected: bool): seq<Entry> {
    if events == [] then transcript
    else AfterEvent(AfterEvents(transcript, events[..|events| - 1], disconnected), events[|events| - 1], disconnected)
  }

  /** The questions among the events. */
  function Questions(events: seq<StreamEvent>): seq<Prompt> {
    if events == [] then []
    else
      var last := events[|events| - 1];
      Questions(events[..|events| - 1]) + if last.Question? then [last.prompt] else []
  }

  /** What is read off a stream: everything up to the first event that ends the turn. */
  function Read(ready: seq<StreamEvent>): seq<StreamEvent> {
    if ready == [] then []
    else if Ends(ready[0]) then [ready[0]]
    else [ready[0]] + Read(ready[1..])
  }

  /** The stream is still held after that. */
  predicate StillHeld(ready: seq<StreamEvent>) {
    forall i :: 0 <= i < |ready| ==> !Ends(ready[i])
  }

  predicate NoneEnds(ready: seq<StreamEvent>, n: nat) {
    n <= |ready| && forall i :: 0 <= i < n ==> !Ends(ready[i])
  }

  lemma {:induction false} ReadIs(ready: seq<StreamEvent>, taken: nat)
    requires taken <= |ready| && NoneEnds(ready, if taken == 0 then 0 else taken - 1)
    requires if taken > 0 && Ends(ready[taken - 1]) then true else taken == |ready|
    ensures Read(ready) == ready[..taken]
    ensures StillHeld(ready) <==> !(taken > 0 && Ends(ready[taken - 1]))
  {
    if ready != [] {
      if Ends(ready[0]) {
        assert taken == 1;
      } else {
        var rest := ready[1..];
        assert forall i :: 0 <= i < |rest| ==> rest[i] == ready[i + 1];
        assert NoneEnds(rest, if taken <= 1 then 0 else taken - 2);
        ReadIs(rest, taken - 1);
        assert ready[..taken] == [ready[0]] + rest[..taken - 1];
        assert StillHeld(ready) <==> StillHeld(rest) by {
          assert ready == [ready[0]] + rest;
        }
      }
    }
  }

  // ----- what each part of a turn of the loop does to the front -----

  function FrontAfterEvent(f: Front, event: StreamEvent): (g: Front)
    requires WellFormed(f)
    ensures WellFormed(g)
  {
    match event
    case Question(p) =>
      f.(prompts := f.prompts + [Pending(p, IndexOf(p.options, p.default))],
         dialogOpen := f.dialogOpen || f.prompts == [])
    case Finished(_) => f.(phase := Idle)
    case Broken(_) => Quieted(f).(disconnected := true)
    case _ => f
  }

  function FrontAfterEvents(f: Front, events: seq<StreamEvent>): (g: Front)
    requires WellFormed(f)
    ensures WellFormed(g)
  {
    if events == [] then f
    else FrontAfterEvent(FrontAfterEvents(f, events[..|events| - 1]), events[|events| - 1])
  }

  function FrontAfterStream(f: Front, ready: seq<StreamEvent>): (g: Front)
    requires WellFormed(f)
    ensures WellFormed(g)
  {
    var after := FrontAfterEvents(f, Read(ready));
    if StillHeld(ready) then after else Quieted(after)
  }

  function FrontAfterKey(f: Front, input: Input): (g: Front)
    requires WellFormed(f)
    ensures WellFormed(g)
  {
    match input
    case Timeout(alive) => if !f.disconnected && !alive then Quieted(f).(disconnected := true) else f
    case Typed(text) => f.(composer := text)
    case UpKey(first) => FrontAfterUp(f, first)
    case DownKey(last) => FrontAfterDown(f, last)
    case DismissDialog => f.(dialogOpen := false)
    case MoveSelection(delta) => f.(prompts := Moved(f.prompts, delta))
    case JumpSelection(n) => f.(prompts := Jumped(f.prompts, n))
    case CancelKey => if f.phase.Streaming? then Quieted(f).(phase := Cancelling) else f
    case _ => f
  }

  /** What each event does to the phase, the questions and the dialog. */
  lemma {:induction false} EventMoves(f: Front, event: StreamEvent)
    requires WellFormed(f)
    ensures var g := FrontAfterEvent(f, event);
            && g.composer == f.composer && g.history == f.history && g.recall == f.recall
            && match event
               case Question(p) =>
                 && |g.prompts| == |f.prompts| + 1 && g.prompts[..|f.prompts|] == f.prompts
                 && g.prompts[|f.prompts|].prompt == p && g.dialogOpen == (f.dialogOpen || f.prompts == [])
                 && g.phase == f.phase && g.disconnected == f.disconnected
                 && (match g.prompts[|f.prompts|].selected
                     case None => p.default !in p.options
                     case Some(k) => p.options[k] == p.default && p.default !in p.options[..k])
               case Finished(_) => g == f.(phase := Idle)
               case Broken(_) => g.phase == Idle && g.prompts == [] && !g.dialogOpen && g.disconnected
               case _ => g == f
  {
    if event.Question? {
      var g := FrontAfterEvent(f, event);
      assert g.prompts[..|f.prompts|] == f.prompts;
    }
  }

  /** What each key does to what Enter depends on. */
  lemma {:induction false} KeyMoves(f: Front, input: Input)
    requires WellFormed(f)
    ensures var g := FrontAfterKey(f, input);
            match input
            case Timeout(alive) =>
              if f.disconnected || alive then g == f
              else g == Front(Idle, [], false, f.composer, f.history, f.recall, true)
            case Typed(text) => g == f.(composer := text)
            case DismissDialog => g == f.(dialogOpen := false)
            case CancelKey =>
              if f.phase == Streaming then
                g == Front(Cancelling, [], false, f.composer, f.history, f.recall, f.disconnected)
              else g == f
            case MoveSelection(_) => g.(prompts := f.prompts) == f
            case JumpSelection(_) => g.(prompts := f.prompts) == f
            case UpKey(_) => g.(composer := f.composer, recall := f.recall) == f
            case DownKey(_) => g.(composer := f.composer, recall := f.recall) == f
            case _ => g == f
  {
  }

  // ----- Enter -----

  function EnterMeans(f: Front): Enter {
    match TurnFor(f.prompts, f.phase)
    case BlockedTurn => if f.dialogOpen then Answer else ReopenPrompt
    case StreamingTurn => Steer
    case IdleTurn => Send
    case CancellingTurn => Nothing
  }

  /** What Enter sends: the ready answer, the follow-up, or the message that opens a stream if none is held. */
  function EnterSends(f: Front, holding: bool): (sent: seq<Act>)
    requires WellFormed(f)
    ensures |sent| <= 1
  {
    var text := Trim(f.composer);
    match EnterMeans(f)
    case Answer =>
      var said := ReadyFor(f.prompts, f.composer);
      if said.Some? then [Answered(f.prompts[0].prompt.session, said.value)] else []
    case Steer => if text == "" then [] else [Steered(text)]
    case Send => if holding || text == "" then [] else [Opened(text)]
    case _ => []
  }

  function FrontAfterEnter(f: Front, holding: bool): (g: Front)
    requires WellFormed(f)
    ensures WellFormed(g)
  {
    match EnterMeans(f)
    case Answer =>
      if ReadyFor(f.prompts, f.composer).None? then f
      else f.(prompts := f.prompts[1..], dialogOpen := f.prompts[1..] != [], composer := "")
    case ReopenPrompt => f.(dialogOpen := true)
    case Steer => Submitted(f)
    case Send =>
      if holding then f
      else if Trim(f.composer) == "" then Submitted(f)
      else Submitted(f).(phase := Streaming)
    case Nothing => f
  }

  // ----- what each part of a turn of the loop does to what is shown -----

  /** What is shown once a stream has been read: the events' effects, and interrupted calls if it ended. */
  function Streamed(transcript: seq<Entry>, ready: seq<StreamEvent>, disconnected: bool): seq<Entry> {
    var after := AfterEvents(transcript, Read(ready), disconnected);
    if StillHeld(ready) then after else InterruptAll(after)
  }

  function NotesShown(notes: seq<(Who, string)>): seq<Entry> {
    seq(|notes|, i requires 0 <= i < |notes| => Message(notes[i].0, notes[i].1))
  }

  function CancelNoted(s: Screen, said: string, notes: seq<(Who, string)>): seq<Entry> {
    s.transcript + (if s.cancelAsked then [Message(Status, said)] else []) + NotesShown(notes)
  }

  /** What was asked of the transport is served: notes are added, and a session that was asked for and made is shown. */
  function Served(s: Screen, said: string, notes: seq<(Who, string)>, created: Option<string>): Screen {
    var noted := CancelNoted(s, said, notes);
    if !s.newSession then Screen(noted, s.cursor, false, false)
    else if created.Some? then Screen([], None, false, false)
    else Screen(noted + [Message(Error, "session/create")], s.cursor, false, false)
  }

  /** A stored session is shown, while no turn runs. */
  function Switched(s: Screen, f: Front, stored: Option<(string, seq<SessionMessage>)>): Screen {
    if !TurnFor(f.prompts, f.phase).IdleTurn? then
      s.(transcript := s.transcript + [Message(Status, "cannot switch sessions while a turn is running")])
    else if stored.Some? then s.(transcript := SessionEntries(stored.value.1), cursor := None)
    else s.(transcript := s.transcript + [Message(Error, "session/get")])
  }

  function ScreenAfterKey(s: Screen, f: Front, input: Input): Screen {
    match input
    case Timeout(alive) =>
      if !f.disconnected && !alive then s.(transcript := InterruptAll(s.transcript + [Message(Error, "exited")]))
      else s
    case PreviousBlock => s.(cursor := CursorAbove(s))
    case NextBlock => s.(cursor := CursorBelow(s))
    case ToggleBlock => s.(transcript := Toggled(s))
    case CancelKey =>
      if f.phase.Streaming? then s.(transcript := InterruptAll(s.transcript), cancelAsked := true) else s
    case NewSessionCommand => s.(newSession := s.newSession || !f.dialogOpen)
    case SwitchTo(stored) => Switched(s, f, stored)
    case Note(text) => s.(transcript := s.transcript + [Message(Status, text)])
    case _ => s
  }

  /** Enter shows the answer given or the message sent, and why a follow-up was refused. */
  function ShownByEnter(f: Front, holding: bool, refusal: Option<string>): seq<Entry>
    requires WellFormed(f)
  {
    var text := Trim(f.composer);
    match EnterMeans(f)
    case Answer =>
      var said := ReadyFor(f.prompts, f.composer);
      if said.Some? then [AnswerNote(f.prompts[0].prompt, said.value)] else []
    case Steer =>
      if text == "" then []
      else [Message(You, text)] + if refusal.Some? then [Message(Status, refusal.value)] else []
    case Send => if holding || text == "" then [] else [Message(You, text)]
    case _ => []
  }

  /** What each key shows: most of them nothing. */
  lemma {:induction false} KeyShows(s: Screen, f: Front, input: Input)
    ensures var t := ScreenAfterKey(s, f, input);
            match input
            case Timeout(alive) =>
              if f.disconnected || alive then t == s
              else
                && t.(transcript := s.transcript) == s
                && AllInterrupted(s.transcript + [Message(Error, "exited")], t.transcript)
            case PreviousBlock => t.transcript == s.transcript && t.(cursor := s.cursor) == s
            case NextBlock => t.transcript == s.transcript && t.(cursor := s.cursor) == s
            case ToggleBlock => t.(transcript := s.transcript) == s
            case CancelKey =>
              if f.phase == Streaming then
                && t.cancelAsked && AllInterrupted(s.transcript, t.transcript)
                && t.(transcript := s.transcript, cancelAsked := s.cancelAsked) == s
              else t == s
            case NewSessionCommand => t == s.(newSession := if f.dialogOpen then s.newSession else true)
            case SwitchTo(stored) =>
              if f.prompts != [] || f.phase != Idle then
                t == s.(transcript :=
                          s.transcript + [Message(Status, "cannot switch sessions while a turn is running")])
              else if stored.None? then t == s.(transcript := s.transcript + [Message(Error, "session/get")])
              else t == s.(transcript := SessionEntries(stored.value.1), cursor := None)
            case Note(text) => t == s.(transcript := s.transcript + [Message(Status, text)])
            case _ => t == s
  {
  }

  /** Serving: a cancel's outcome and the notes are shown, in that order, then the new session or why there is none. */
  lemma {:induction false} ServingShows(s: Screen, said: string, notes: seq<(Who, string)>, created: Option<string>)
    ensures var t := Served(s, said, notes, created);
            && !t.cancelAsked && !t.newSession
            && if s.newSession && created.Some? then t.transcript == [] && t.cursor == None
               else
                 && t.cursor == s.cursor && s.transcript <= t.transcript
                 && var more := t.transcript[|s.transcript|..];
                    var first := if s.cancelAsked then 1 else 0;
                    && |more| == first + |notes| + (if s.newSession then 1 else 0)
                    && (s.cancelAsked ==> more[0] == Message(Status, said))
                    && (forall i :: 0 <= i < |notes| ==> more[first + i] == Message(notes[i].0, notes[i].1))
                    && (s.newSession ==> more[|more| - 1] == Message(Error, "session/create"))
  {
  }

  /**
    What Enter does: with a question waiting it answers it as marked, or reopens its dialog and sends nothing; else
    it steers a running turn, or sends a message if none runs and no stream is held; blank text is never sent.
   */
  lemma {:induction false} EnterDoes(f: Front, holding: bool, refusal: Option<string>)
    requires WellFormed(f)
    ensures var sent, g := EnterSends(f, holding), FrontAfterEnter(f, holding);
            var shown := ShownByEnter(f, holding, refusal);
            var text := Trim(f.composer);
            if f.prompts != [] then
              var p := f.prompts[0];
              if !f.dialogOpen then sent == [] && shown == [] && g == f.(dialogOpen := true)
              else if p.prompt.options != [] && p.selected.None? then sent == [] && shown == [] && g == f
              else
                exists answer ::
                  && AsMarked(p, f.composer, answer) && sent == [Answered(p.prompt.session, answer)]
                  && shown == [Message(Status, p.prompt.question + " \U{2192} " + answer)]
                  && g == f.(prompts := f.prompts[1..], dialogOpen := |f.prompts| > 1, composer := "")
            else if f.phase == Cancelling || (f.phase == Idle && holding) then sent == [] && shown == [] && g == f
            else if text == "" then sent == [] && shown == [] && g == f.(composer := "")
            else
              && sent == [if f.phase == Streaming then Steered(text) else Opened(text)]
              && shown == [Message(You, text)]
                          + (if f.phase == Streaming && refusal.Some? then [Message(Status, refusal.value)] else [])
              && g == f.(composer := "", history := f.history + [text], recall := None, phase := Streaming)
  {
    if f.prompts != [] && f.dialogOpen && ReadyFor(f.prompts, f.composer).Some? {
      assert AsMarked(f.prompts[0], f.composer, ReadyFor(f.prompts, f.composer).value);
    }
  }

  lemma {:induction false} ServedKeeps(s: Screen, said: string, notes: seq<(Who, string)>, created: Option<string>)
    requires !(s.newSession && created.Some?)
    ensures Keeps(s.transcript, Served(s, said, notes, created).transcript)
  {
    var cancelled: seq<Entry> := if s.cancelAsked then [Message(Status, said)] else [];
    MoreKeeps(s.transcript, cancelled);
    MoreKeeps(s.transcript + cancelled, NotesShown(notes));
    KeepsStepByStep(s.transcript, s.transcript + cancelled, CancelNoted(s, said, notes));
    MoreKeeps(CancelNoted(s, said, notes), [Message(Error, "session/create")]);
    if s.newSession {
      KeepsStepByStep(s.transcript, CancelNoted(s, said, notes), Served(s, said, notes, created).transcript);
    }
  }

  lemma {:induction false} KeyKeeps(s: Screen, f: Front, input: Input)
    requires !(input.SwitchTo? && input.stored.Some? && TurnFor(f.prompts, f.phase).IdleTurn?)
    ensures Keeps(s.transcript, ScreenAfterKey(s, f, input).transcript)
  {
    MoreKeeps(s.transcript, []);
    assert s.transcript + [] == s.transcript;
    match input
    case Timeout(_) =>
      var noted := s.transcript + [Message(Error, "exited")];
      MoreKeeps(s.transcript, [Message(Error, "exited")]);
      InterruptKeeps(noted);
      KeepsStepByStep(s.transcript, noted, InterruptAll(noted));
    case ToggleBlock => ToggledKeeps(s);
    case CancelKey => InterruptKeeps(s.transcript);
    case _ =>
  }

  // ----- whole runs -----

  /** The loop between turns: whether a stream is held, the front, what is shown, and all that was sent and asked. */
  datatype Loop = Loop(held: bool, front: Front, screen: Screen, acts: seq<Act>, asked: seq<Prompt>)

  /** A held stream is read; if it ends, it is closed. */
  function AfterStream(l: Loop, ready: seq<StreamEvent>): (next: Loop)
    requires WellFormed(l.front)
    ensures WellFormed(next.front)
  {
    if !l.held then l
    else
      var closed: seq<Act> := if StillHeld(ready) then [] else [Closed];
      Loop(StillHeld(ready), FrontAfterStream(l.front, ready),
           l.screen.(transcript := Streamed(l.screen.transcript, ready, l.front.disconnected)),
           l.acts + closed, l.asked + Questions(Read(ready)))
  }

  function AfterRequests(l: Loop, tick: Tick): Loop {
    l.(screen := Served(l.screen, tick.cancelled, tick.notes, tick.created))
  }

  /** The input; Enter may send something. */
  function AfterInput(l: Loop, input: Input, refusal: Option<string>): (next: Loop)
    requires WellFormed(l.front)
    ensures WellFormed(next.front)
  {
    if !input.EnterKey? then
      l.(front := FrontAfterKey(l.front, input), screen := ScreenAfterKey(l.screen, l.front, input))
    else
      var sent := EnterSends(l.front, l.held);
      Loop(l.held || sent != [], FrontAfterEnter(l.front, l.held),
           l.screen.(transcript := l.screen.transcript + ShownByEnter(l.front, l.held, refusal)),
           l.acts + sent, l.asked)
  }

  /** One turn of the loop. */
  function NextTurn(l: Loop, tick: Tick): (next: Loop)
    requires WellFormed(l.front)
    ensures WellFormed(next.front)
  {
    AfterInput(AfterRequests(AfterStream(l, tick.ready), tick), tick.input, tick.refusal)
  }

  /** Whether a turn of the loop shows another session: a new one was asked for and made, or one is switched to. */
  predicate Loads(l: Loop, tick: Tick)
    requires WellFormed(l.front)
  {
    var f := AfterStream(l, tick.ready).front;
    || (l.screen.newSession && tick.created.Some?)
    || (tick.input.SwitchTo? && tick.input.stored.Some? && TurnFor(f.prompts, f.phase).IdleTurn?)
  }

  /**
    Unless a session is loaded, `after` keeps the entries shown before the turn, and all that was shown once the
    stream had been read word for word.
   */
  ghost predicate Kept(l: Loop, tick: Tick, after: seq<Entry>)
    requires WellFormed(l.front)
  {
    !Loads(l, tick) ==>
      Grows(l.screen.transcript, after) && Keeps(AfterStream(l, tick.ready).screen.transcript, after)
  }

  lemma {:induction false} InputKeeps(l: Loop, input: Input, refusal: Option<string>)
    requires WellFormed(l.front)
    requires !(input.SwitchTo? && input.stored.Some? && TurnFor(l.front.prompts, l.front.phase).IdleTurn?)
    ensures Keeps(l.screen.transcript, AfterInput(l, input, refusal).screen.transcript)
  {
    if input.EnterKey? {
      MoreKeeps(l.screen.transcript, ShownByEnter(l.front, l.held, refusal));
    } else {
      KeyKeeps(l.screen, l.front, input);
    }
  }

  /** A turn that loads no session keeps what was shown, if reading the stream did. */
  lemma {:induction false} TurnKeeps(l: Loop, tick: Tick)
    requires WellFormed(l.front)
    requires Grows(l.screen.transcript, AfterStream(l, tick.ready).screen.transcript)
    ensures Kept(l, tick, NextTurn(l, tick).screen.transcript)
  {
    if !Loads(l, tick) {
      var read := AfterStream(l, tick.ready);
      var served := AfterRequests(read, tick);
      var next := NextTurn(l, tick);
      ServedKeeps(read.screen, tick.cancelled, tick.notes, tick.created);
      InputKeeps(served, tick.input, tick.refusal);
      KeepsStepByStep(read.screen.transcript, served.screen.transcript, next.screen.transcript);
      KeepsGrows(read.screen.transcript, next.screen.transcript);
      GrowsStepByStep(l.screen.transcript, read.screen.transcript, next.screen.transcript);
    }
  }

  /** What is shown before the first turn. */
  const CONNECTED := Screen([Message(Status, "connected")], None, false, false)

  function LoopAfter(ticks: seq<Tick>): (l: Loop)
    ensures WellFormed(l.front)
  {
    if ticks == [] then Loop(false, START, CONNECTED, [], [])
    else NextTurn(LoopAfter(ticks[..|ticks| - 1]), ticks[|ticks| - 1])
  }

  lemma {:induction false} LoopAfterOne(ticks: seq<Tick>, i: nat)
    requires i < |ticks|
    ensures LoopAfter(ticks[..i + 1]) == NextTurn(LoopAfter(ticks[..i]), ticks[i])
  {
    var more := ticks[..i + 1];
    assert more[..i] == ticks[..i] && more[i] == ticks[i];
  }

  /** How many turns the loop takes: one for each tick, up to the one that quits. */
  function TurnsTaken(ticks: seq<Tick>): nat {
    if ticks == [] then 0
    else if ticks[0].input.QuitKey? then 1
    else 1 + TurnsTaken(ticks[1..])
  }

  /** None of the first `n` ticks quits, but perhaps the last of them. */
  predicate NoQuitBefore(ticks: seq<Tick>, n: nat, quit: bool) {
    && n <= |ticks| && (quit <==> n > 0 && ticks[n - 1].input.QuitKey?)
    && forall i :: 0 <= i < n - 1 ==> !ticks[i].input.QuitKey?
  }

  lemma {:induction false} TurnsTakenIs(ticks: seq<Tick>, n: nat)
    requires n <= |ticks| && exists quit :: NoQuitBefore(ticks, n, quit) && (n < |ticks| ==> quit)
    ensures TurnsTaken(ticks) == n
  {
    if ticks != [] && !ticks[0].input.QuitKey? {
      var rest := ticks[1..];
      assert forall i :: 0 <= i < |rest| ==> rest[i] == ticks[i + 1];
      assert NoQuitBefore(rest, n - 1, n > 1 && rest[n - 2].input.QuitKey?);
      TurnsTakenIs(rest, n - 1);
    }
  }

  /** The loop and the state as they stand at the head of the loop, where it goes on or ends. */
  datatype Head = Head(held: bool, front: Front, screen: Screen)

  predicate StreamOpen(acts: seq<Act>) {
    if acts == [] then false
    else
      var last := acts[|acts| - 1];
      if last.Opened? then true
      else if last.Closed? then false
      else StreamOpen(acts[..|acts| - 1])
  }

  /** A stream is opened only when none is, and steered, answered or closed only while it is open. */
  ghost predicate Bracketed(acts: seq<Act>) {
    forall i :: 0 <= i < |acts| ==> (acts[i].Opened? <==> !StreamOpen(acts[..i]))
  }

  /** With no stream held, no turn runs. */
  predicate QuietUnlessHeld(h: Head) {
    var f := h.front;
    !h.held ==> f.phase.Idle? && f.prompts == [] && !f.dialogOpen && NothingRuns(h.screen.transcript)
  }

  predicate IsHead(h: Head, l: Loop) {
    h.held == l.held && h.front == l.front && h.screen == l.screen && QuietUnlessHeld(h)
  }

  ghost predicate KeptAt(heads: seq<Head>, ticks: seq<Tick>, i: nat)
    requires |heads| <= |ticks| + 1
  {
    i + 1 < |heads| ==> Kept(LoopAfter(ticks[..i]), ticks[i], heads[i + 1].screen.transcript)
  }

  ghost predicate IsHeadAt(heads: seq<Head>, ticks: seq<Tick>, i: nat)
    requires |heads| <= |ticks| + 1
  {
    i < |heads| ==> IsHead(heads[i], LoopAfter(ticks[..i]))
  }

  /** The heads before and after each of the first turns: as the ticks before them left the loop. */
  ghost predicate HeadsOf(heads: seq<Head>, ticks: seq<Tick>) {
    && 1 <= |heads| <= |ticks| + 1
    && (forall i: nat :: IsHeadAt(heads, ticks, i))
    && forall i: nat :: KeptAt(heads, ticks, i)
  }

  lemma {:induction false} OneMoreHeadAt(heads: seq<Head>, ticks: seq<Tick>, head: Head, i: nat)
    requires 1 <= |heads| <= |ticks| && IsHeadAt(heads, ticks, i) && KeptAt(heads, ticks, i)
    requires IsHead(head, LoopAfter(ticks[..|heads|]))
    requires Kept(LoopAfter(ticks[..|heads| - 1]), ticks[|heads| - 1], head.screen.transcript)
    ensures IsHeadAt(heads + [head], ticks, i) && KeptAt(heads + [head], ticks, i)
  {
    var more := heads + [head];
    if i < |heads| {
      assert more[i] == heads[i];
    } else {
      assert i == |heads| ==> more[i] == head;
    }
    OneMoreKept(heads, ticks, head, i);
  }

  lemma {:induction false} OneMoreKept(heads: seq<Head>, ticks: seq<Tick>, head: Head, i: nat)
    requires 1 <= |heads| <= |ticks| && KeptAt(heads, ticks, i)
    requires Kept(LoopAfter(ticks[..|heads| - 1]), ticks[|heads| - 1], head.screen.transcript)
    ensures KeptAt(heads + [head], ticks, i)
  {
    var more := heads + [head];
    if i + 1 < |heads| {
      assert more[i + 1] == heads[i + 1];
    } else {
      assert i + 1 == |heads| ==> more[i + 1] == head && i == |heads| - 1;
    }
  }

  lemma {:induction false} OneMoreHead(heads: seq<Head>, ticks: seq<Tick>, head: Head)
    requires HeadsOf(heads, ticks) && |heads| <= |ticks|
    requires IsHead(head, LoopAfter(ticks[..|heads|]))
    requires Kept(LoopAfter(ticks[..|heads| - 1]), ticks[|heads| - 1], head.screen.transcript)
    ensures HeadsOf(heads + [head], ticks)
  {
    forall i: nat ensures IsHeadAt(heads + [head], ticks, i) && KeptAt(heads + [head], ticks, i) {
      assert IsHeadAt(heads, ticks, i) && KeptAt(heads, ticks, i);
      OneMoreHeadAt(heads, ticks, head, i);
    }
  }

  /** Where the loop stands at the last of these heads. */
  ghost predicate HasTurned(now: Loop, quit: bool, heads: seq<Head>, ticks: seq<Tick>) {
    && HeadsOf(heads, ticks)
    && now == LoopAfter(ticks[..|heads| - 1])
    && NoQuitBefore(ticks, |heads| - 1, quit)
  }

  lemma {:induction false} FirstHead(head: Head, ticks: seq<Tick>)
    requires IsHead(head, LoopAfter([]))
    ensures HasTurned(LoopAfter([]), false, [head], ticks)
  {
    assert ticks[..0] == [];
    forall i: nat ensures IsHeadAt([head], ticks, i) && KeptAt([head], ticks, i) {
    }
  }

  lemma {:induction false} Turned(now: Loop, heads: seq<Head>, ticks: seq<Tick>, head: Head, next: Loop, quit: bool)
    requires HasTurned(now, false, heads, ticks) && |heads| <= |ticks|
    requires next == NextTurn(now, ticks[|heads| - 1]) && quit == ticks[|heads| - 1].input.QuitKey?
    requires IsHead(head, next) && Kept(now, ticks[|heads| - 1], head.screen.transcript)
    ensures HasTurned(next, quit, heads + [head], ticks)
  {
    var t := |heads| - 1;
    LoopAfterOne(ticks, t);
    assert next == LoopAfter(ticks[..|heads|]);
    OneMoreHead(heads, ticks, head);
    OneMoreQuit(ticks, t);
    assert |heads + [head]| - 1 == |heads|;
  }

  lemma {:induction false} OneMoreQuit(ticks: seq<Tick>, n: nat)
    requires n < |ticks| && NoQuitBefore(ticks, n, false)
    ensures NoQuitBefore(ticks, n + 1, ticks[n].input.QuitKey?)
  {
  }

  /** The answers sent to the transport, in order. */
  function SentAnswers(acts: seq<Act>): seq<(string, string)> {
    if acts == [] then []
    else
      var last := acts[|acts| - 1];
      SentAnswers(acts[..|acts| - 1]) + (if last.Answered? then [(last.session, last.answer)] else [])
  }

  function ReplyTexts(replies: seq<Reply>): seq<(string, string)> {
    seq(|replies|, i requires 0 <= i < |replies| => (replies[i].session, replies[i].answer))
  }

  /** The answers sent are replies to these questions: in ask order, at most one each, on their sessions. */
  ghost predicate AnswersInOrder(acts: seq<Act>, asked: seq<Prompt>) {
    exists replies: seq<Reply> :: SentAnswers(acts) == ReplyTexts(replies) && RepliesInOrder(replies, asked, 0)
  }

  /** Every answer sent in turn `t` is the option marked, or the text typed, when the key was pressed. */
  ghost predicate AnswersAsMarkedAt(ticks: seq<Tick>, t: nat) {
    t < |ticks| ==>
      var before, after := LoopAfter(ticks[..t]), LoopAfter(ticks[..t + 1]).acts;
      var front := AfterStream(before, ticks[t].ready).front;
      && before.acts <= after
      && forall k :: |before.acts| <= k < |after| && after[k].Answered? ==>
           && ticks[t].input.EnterKey? && front.prompts != [] && front.dialogOpen
           && after[k].session == front.prompts[0].prompt.session
           && AsMarked(front.prompts[0], front.composer, after[k].answer)
  }

  lemma {:induction false} TurnAnswersAsMarked(ticks: seq<Tick>, t: nat)
    requires t < |ticks|
    ensures AnswersAsMarkedAt(ticks, t)
  {
    LoopAfterOne(ticks, t);
    var before, tick := LoopAfter(ticks[..t]), ticks[t];
    var served := AfterRequests(AfterStream(before, tick.ready), tick);
    EnterDoes(served.front, served.held, tick.refusal);
    var after := NextTurn(before, tick).acts;
    forall k | |before.acts| <= k < |after| && after[k].Answered?
      ensures tick.input.EnterKey? && k >= |served.acts| && after[k] == EnterSends(served.front, served.held)[0]
    {
    }
  }

  lemma {:induction false} AnswersAsMarked(ticks: seq<Tick>)
    ensures forall t: nat :: AnswersAsMarkedAt(ticks, t)
  {
    forall t: nat ensures AnswersAsMarkedAt(ticks, t) {
      if t < |ticks| {
        TurnAnswersAsMarked(ticks, t);
      }
    }
  }

  /** A whole run: one turn for each tick up to one that quits, and what was shown, sent and answered in them. */
  ghost predicate RunOf(ticks: seq<Tick>, acts: seq<Act>, heads: seq<Head>) {
    var turns := TurnsTaken(ticks);
    && |heads| == turns + 1 && turns <= |ticks|
    && HeadsOf(heads, ticks)
    && acts == LoopAfter(ticks[..turns]).acts && Bracketed(acts)
    && AnswersInOrder(acts, LoopAfter(ticks[..turns]).asked)
    && forall t: nat :: AnswersAsMarkedAt(ticks, t)
  }

  /** At the last head the run is what it has to be. */
  lemma {:induction false} RunEnds(now: Loop, quit: bool, heads: seq<Head>, ticks: seq<Tick>, replies: seq<Reply>,
                                   open: nat)
    requires HasTurned(now, quit, heads, ticks) && (quit || |heads| > |ticks|)
    requires Account(now.acts, now.held, replies) && RepliesInOrder(replies, now.asked, open)
    ensures RunOf(ticks, now.acts, heads)
  {
    TurnsTakenIs(ticks, |heads| - 1);
    AnswersAsMarked(ticks);
    LessOpen(replies, now.asked, open);
  }

  lemma {:induction false} LessOpen(replies: seq<Reply>, asked: seq<Prompt>, open: nat)
    requires RepliesInOrder(replies, asked, open)
    ensures RepliesInOrder(replies, asked, 0)
  {
  }

  /** A run begins idle, with nothing held, asked or typed, and shows that it is connected. */
  lemma {:induction false} RunBegins(ticks: seq<Tick>, acts: seq<Act>, heads: seq<Head>)
    requires RunOf(ticks, acts, heads)
    ensures heads[0] == Head(false, Front(Idle, [], false, "", [], None, false),
                             Screen([Message(Status, "connected")], None, false, false))
  {
    assert IsHeadAt(heads, ticks, 0);
    assert ticks[..0] == [];
  }

  /** The acts so far: well bracketed, a stream open or not, and the answers sent those that left the state. */
  ghost predicate Account(acts: seq<Act>, held: bool, replies: seq<Reply>) {
    Bracketed(acts) && StreamOpen(acts) == held && SentAnswers(acts) == ReplyTexts(replies)
  }

  lemma {:induction false} OneMoreAct(acts: seq<Act>, held: bool, replies: seq<Reply>, act: Act)
    requires Account(acts, held, replies) && !act.Answered? && (act.Opened? <==> !held)
    ensures Account(acts + [act], if act.Opened? then true else if act.Closed? then false else held, replies)
  {
    BracketedSnoc(acts, act);
  }

  lemma {:induction false} OneMoreAnswer(acts: seq<Act>, held: bool, replies: seq<Reply>, reply: Reply)
    requires Account(acts, held, replies) && held
    ensures Account(acts + [Answered(reply.session, reply.answer)], held, replies + [reply])
  {
    BracketedSnoc(acts, Answered(reply.session, reply.answer));
    assert ReplyTexts(replies + [reply]) == ReplyTexts(replies) + [(reply.session, reply.answer)];
  }

  lemma {:induction false} BracketedSnoc(acts: seq<Act>, act: Act)
    requires Bracketed(acts) && (act.Opened? <==> !StreamOpen(acts))
    ensures Bracketed(acts + [act])
    ensures StreamOpen(acts + [act]) == if act.Opened? then true else if act.Closed? then false else StreamOpen(acts)
    ensures SentAnswers(acts + [act]) == SentAnswers(acts) + if act.Answered? then [(act.session, act.answer)] else []
  {
    var more := acts + [act];
    assert more[..|acts|] == acts;
    forall i | 0 <= i < |more| ensures more[i].Opened? <==> !StreamOpen(more[..i]) {
      if i < |acts| {
        assert more[..i] == acts[..i];
      }
    }
  }
}
