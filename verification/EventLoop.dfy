// The client's event loop over its state and one answer stream (pkgs/clients/tui/src/tui.rs).
module EventLoop {
  import opened App
  import opened Loops
  import opened Text
  import opened Wrappers

  /** What events have made of the transcript, of the questions asked and of the front. */
  ghost predicate Applied(transcript: seq<Entry>, asked: seq<Prompt>, front: Front, events: seq<StreamEvent>,
                          after: seq<Entry>, askedAfter: seq<Prompt>, frontAfter: Front)
    requires WellFormed(front)
  {
    && Grows(transcript, after)
    && after == AfterEvents(transcript, events, front.disconnected)
    && askedAfter == asked + Questions(events)
    && frontAfter == FrontAfterEvents(front, events)
  }

  lemma {:induction false} OneMoreEvent(transcript: seq<Entry>, asked: seq<Prompt>, front: Front,
                                        events: seq<StreamEvent>, i: nat,
                                        sofar: seq<Entry>, askedSoFar: seq<Prompt>, frontSoFar: Front,
                                        after: seq<Entry>)
    requires i < |events| && WellFormed(front)
    requires Applied(transcript, asked, front, events[..i], sofar, askedSoFar, frontSoFar)
    requires after == AfterEvent(sofar, events[i], front.disconnected) && Grows(sofar, after)
    ensures WellFormed(frontSoFar)
    ensures Applied(transcript, asked, front, events[..i + 1], after,
                    askedSoFar + if events[i].Question? then [events[i].prompt] else [],
                    FrontAfterEvent(frontSoFar, events[i]))
  {
    var more := events[..i + 1];
    assert more[..i] == events[..i] && more[i] == events[i];
    GrowsStepByStep(transcript, sofar, after);
  }

  /** The final answer: running calls are interrupted, the partial answer is replaced. */
  method TakeFinal(app: App, answer: string)
    requires app.Valid()
    modifies app`phase, app`transcript
    ensures app.Valid() && Grows(old(app.transcript), app.transcript) && app.phase == Idle
    ensures app.transcript == WithAnswer(InterruptAll(old(app.transcript)), answer)
  {
    app.InterruptOpenTools();
    ghost var interrupted := app.transcript;
    app.FinishTurn(answer);
    GrowsStepByStep(old(app.transcript), interrupted, app.transcript);
  }

  method TakeError(app: App, error: string)
    requires app.Valid()
    modifies app`transcript
    ensures app.Valid() && Grows(old(app.transcript), app.transcript)
    ensures app.transcript == InterruptAll(old(app.transcript)) + [Message(Error, error)]
  {
    app.InterruptOpenTools();
    ghost var interrupted := app.transcript;
    app.Record(Error, error);
    GrowsStepByStep(old(app.transcript), interrupted, app.transcript);
  }

  /** Applies an event after which the turn goes on. */
  method ApplyOngoing(app: App, event: StreamEvent)
    requires app.Valid() && !Ends(event)
    modifies app`transcript, app`prompts, app`dialogOpen, app`asked
    ensures app.Valid() && Grows(old(app.transcript), app.transcript)
    ensures app.transcript == AfterEvent(old(app.transcript), event, app.disconnected)
    ensures app.asked == old(app.asked) + if event.Question? then [event.prompt] else []
    ensures app.View() == FrontAfterEvent(old(app.View()), event)
  {
    if event.Delta? {
      app.ApplyDelta(event.text);
    } else if event.ToolStarted? {
      app.RecordToolInvoked(event.id, event.name, event.arguments);
    } else if event.ToolEnded? {
      app.RecordToolResult(event.id, event.content, event.failed);
    } else if event.Warning? {
      app.Record(Status, "\U{26A0} " + event.message);
    } else if event.Question? {
      app.Ask(event.prompt);
    }
  }

  /** Applies an event that ends the turn. */
  method ApplyEnding(app: App, event: StreamEvent)
    requires app.Valid() && Ends(event)
    modifies app`transcript, app`phase, app`prompts, app`dialogOpen, app`disconnected
    ensures app.Valid() && Grows(old(app.transcript), app.transcript)
    ensures app.transcript == AfterEvent(old(app.transcript), event, old(app.disconnected))
    ensures app.View() == FrontAfterEvent(old(app.View()), event)
  {
    if event.Finished? {
      TakeFinal(app, event.answer);
    } else if event.Failed? {
      TakeError(app, event.error);
    } else if event.Broken? {
      app.Disconnect(event.reason);
    }
  }

  /** Applies one event of the stream. */
  method ApplyEvent(app: App, event: StreamEvent) returns (ended: bool)
    requires app.Valid()
    modifies app`transcript, app`phase, app`prompts, app`dialogOpen, app`asked, app`disconnected
    ensures app.Valid() && Grows(old(app.transcript), app.transcript)
    ensures ended <==> Ends(event)
    ensures app.transcript == AfterEvent(old(app.transcript), event, old(app.disconnected))
    ensures app.asked == old(app.asked) + if event.Question? then [event.prompt] else []
    ensures app.View() == FrontAfterEvent(old(app.View()), event)
  {
    ended := Ends(event);
    if ended {
      ApplyEnding(app, event);
    } else {
      ApplyOngoing(app, event);
    }
  }

  /** Applies the next of several events; `transcript`, `asked` and `front` are what there was before the first. */
  method ApplyNext(app: App, ready: seq<StreamEvent>, i: nat, ghost transcript: seq<Entry>, ghost asked: seq<Prompt>,
                   ghost front: Front)
    returns (ended: bool)
    requires app.Valid() && i < |ready| && WellFormed(front) && app.disconnected == front.disconnected
    requires Applied(transcript, asked, front, ready[..i], app.transcript, app.asked, app.View())
    modifies app`transcript, app`phase, app`prompts, app`dialogOpen, app`asked, app`disconnected
    ensures app.Valid() && ended == Ends(ready[i])
    ensures Applied(transcript, asked, front, ready[..i + 1], app.transcript, app.asked, app.View())
    ensures !ended ==> app.disconnected == front.disconnected
  {
    ghost var before, askedBefore, was := app.transcript, app.asked, app.View();
    ended := ApplyEvent(app, ready[i]);
    OneMoreEvent(transcript, asked, front, ready, i, before, askedBefore, was, app.transcript);
    assert !ended ==> FrontAfterEvent(was, ready[i]).disconnected == was.disconnected;
  }

  /** Applies the events one by one, until one ends the turn. */
  method ApplyAll(app: App, ready: seq<StreamEvent>) returns (ended: bool)
    requires app.Valid()
    modifies app`transcript, app`phase, app`prompts, app`dialogOpen, app`asked, app`disconnected
    ensures app.Valid() && ended == !StillHeld(ready)
    ensures Applied(old(app.transcript), old(app.asked), old(app.View()), Read(ready),
                    app.transcript, app.asked, app.View())
  {
    ghost var transcript, allAsked, front := app.transcript, app.asked, app.View();
    var i := 0;
    while i < |ready|
      invariant 0 <= i <= |ready| && app.Valid() && NoneEnds(ready, i)
      invariant Applied(transcript, allAsked, front, ready[..i], app.transcript, app.asked, app.View())
      invariant app.disconnected == front.disconnected
    {
      ended := ApplyNext(app, ready, i, transcript, allAsked, front);
      i := i + 1;
      if ended {
        ReadIs(ready, i);
        return true;
      }
    }
    ReadIs(ready, i);
    ended := false;
  }

  /** Applies what the stream has ready; when the turn ends the stream is dropped and the state is quiet. */
  method DrainStream(app: App, ready: seq<StreamEvent>) returns (held: bool)
    requires app.Valid()
    modifies app`transcript, app`phase, app`prompts, app`dialogOpen, app`asked, app`disconnected
    ensures app.Valid() && Grows(old(app.transcript), app.transcript)
    ensures held == StillHeld(ready) && (!held ==> app.Quiet())
    ensures var after := AfterEvents(old(app.transcript), Read(ready), old(app.disconnected));
            app.transcript == if held then after else InterruptAll(after)
    ensures app.Shown() == old(app.Shown()).(transcript := Streamed(old(app.transcript), ready, old(app.disconnected)))
    ensures app.asked == old(app.asked) + Questions(Read(ready))
    ensures app.View() == FrontAfterStream(old(app.View()), ready)
  {
    var ended := ApplyAll(app, ready);
    held := !ended;
    if ended {
      ghost var applied := app.transcript;
      app.EndTurn();
      GrowsStepByStep(old(app.transcript), applied, app.transcript);
    }
  }

  /** Tells the transport to cancel, if that was asked for, and notes how that went. */
  method ServeCancel(app: App, said: string)
    requires app.Valid()
    modifies app`cancelRequested, app`transcript
    ensures app.Valid() && (old(app.Quiet()) ==> app.Quiet())
    ensures !app.cancelRequested
    ensures app.transcript == old(app.transcript) + if old(app.cancelRequested) then [Message(Status, said)] else []
  {
    var cancelling := app.TakeCancelRequest();
    if cancelling {
      app.Record(Status, said);
    }
  }

  /** Notes what serving the session list and a contributed command had to say. */
  method RecordNotes(app: App, notes: seq<(Who, string)>)
    requires app.Valid()
    modifies app`transcript
    ensures app.Valid() && (old(app.Quiet()) ==> app.Quiet())
    ensures app.transcript == old(app.transcript) + NotesShown(notes)
  {
    var i := 0;
    while i < |notes|
      invariant 0 <= i <= |notes|
      invariant app.Valid() && (old(app.Quiet()) ==> app.Quiet())
      invariant app.transcript == old(app.transcript) + NotesShown(notes[..i])
    {
      app.Record(notes[i].0, notes[i].1);
      OneMoreNote(notes, i);
      i := i + 1;
    }
    assert notes[..i] == notes;
  }

  lemma {:induction false} OneMoreNote(notes: seq<(Who, string)>, i: nat)
    requires i < |notes|
    ensures NotesShown(notes[..i + 1]) == NotesShown(notes[..i]) + [Message(notes[i].0, notes[i].1)]
  {
  }

  /** Shows the new session, if one was asked for and made. */
  method ServeNewSession(app: App, created: Option<string>)
    requires app.Valid()
    modifies app`newSessionRequested, app`session, app`transcript, app`cursor
    ensures app.Valid() && (old(app.Quiet()) ==> app.Quiet())
    ensures !app.newSessionRequested
    ensures app.session == if old(app.newSessionRequested) && created.Some? then created.value else old(app.session)
    ensures app.Shown().(cancelAsked := false) == Served(old(app.Shown()).(cancelAsked := false), "", [], created)
  {
    assert old(app.transcript) + [] + NotesShown([]) == old(app.transcript);
    var starting := app.TakeNewSessionRequest();
    if starting {
      if created.Some? {
        app.LoadSession(created.value, []);
      } else {
        app.Record(Error, "session/create");
      }
    }
  }

  /** Serves what the state asked of the transport. */
  method DrainRequests(app: App, said: string, notes: seq<(Who, string)>, created: Option<string>)
    requires app.Valid()
    modifies app`cancelRequested, app`newSessionRequested, app`session, app`transcript, app`cursor
    ensures app.Valid() && (old(app.Quiet()) ==> app.Quiet())
    ensures app.session == if old(app.newSessionRequested) && created.Some? then created.value else old(app.session)
    ensures app.Shown() == Served(old(app.Shown()), said, notes, created)
  {
    ServeCancel(app, said);
    RecordNotes(app, notes);
    ServeNewSession(app, created);
  }

  predicate Recalls(input: Input) {
    input.Typed? || input.UpKey? || input.DownKey?
  }

  predicate MovesCursor(input: Input) {
    input.PreviousBlock? || input.NextBlock? || input.ToggleBlock?
  }

  predicate WorksDialog(input: Input) {
    input.DismissDialog? || input.MoveSelection? || input.JumpSelection?
  }

  /** The keys that write or recall messages. */
  method Recall(app: App, input: Input)
    requires app.Valid()
    modifies app`composer, app`recall
    ensures app.Valid() && (old(app.Quiet()) ==> app.Quiet())
    ensures Recalls(input) ==> app.View() == FrontAfterKey(old(app.View()), input)
    ensures Recalls(input) ==> app.Shown() == ScreenAfterKey(old(app.Shown()), old(app.View()), input)
  {
    match input
    case Typed(text) => app.Edit(text);
    case UpKey(first) => app.HistoryUp(first);
    case DownKey(last) => app.HistoryDown(last);
    case _ =>
  }

  /** The keys that move through the tool blocks. */
  method MoveCursor(app: App, input: Input)
    requires app.Valid()
    modifies app`cursor, app`transcript
    ensures app.Valid() && (old(app.Quiet()) ==> app.Quiet())
    ensures MovesCursor(input) ==> app.View() == FrontAfterKey(old(app.View()), input)
    ensures MovesCursor(input) ==> app.Shown() == ScreenAfterKey(old(app.Shown()), old(app.View()), input)
  {
    match input
    case PreviousBlock => var _ := app.CursorUp();
    case NextBlock => var _ := app.CursorDown();
    case ToggleBlock => var _ := app.ToggleExpanded();
    case _ =>
  }

  method MoveSelected(app: App, delta: int)
    requires app.Valid()
    modifies app`prompts
    ensures app.Valid() && (old(app.Quiet()) ==> app.Quiet())
    ensures app.View() == old(app.View()).(prompts := Moved(old(app.prompts), delta))
  {
    app.PromptMove(delta);
  }

  method JumpSelected(app: App, oneBased: nat)
    requires app.Valid()
    modifies app`prompts
    ensures app.Valid() && (old(app.Quiet()) ==> app.Quiet())
    ensures app.View() == old(app.View()).(prompts := Jumped(old(app.prompts), oneBased))
  {
    app.PromptJump(oneBased);
  }

  /** The keys that work the dialog. */
  method WorkDialog(app: App, input: Input)
    requires app.Valid()
    modifies app`dialogOpen, app`prompts
    ensures app.Valid() && (old(app.Quiet()) ==> app.Quiet())
    ensures WorksDialog(input) ==> app.View() == FrontAfterKey(old(app.View()), input)
    ensures WorksDialog(input) ==> app.Shown() == ScreenAfterKey(old(app.Shown()), old(app.View()), input)
  {
    match input
    case DismissDialog => app.CloseDialog();
    case MoveSelection(delta) => MoveSelected(app, delta);
    case JumpSelection(n) => JumpSelected(app, n);
    case _ =>
  }

  /** Switches to a stored session, while no turn runs. */
  method SwitchSession(app: App, stored: Option<(string, seq<SessionMessage>)>)
    requires app.Valid()
    modifies app
    ensures app.Valid() && (old(app.Quiet()) ==> app.Quiet())
    ensures app.replies == old(app.replies) && app.asked == old(app.asked) && app.shouldQuit == old(app.shouldQuit)
    ensures app.View() == old(app.View())
    ensures old(app.TurnState()).IdleTurn? && stored.Some? ==>
              app.session == stored.value.0 && app.transcript == SessionEntries(stored.value.1)
    ensures !(old(app.TurnState()).IdleTurn? && stored.Some?) ==>
              app.session == old(app.session) && Keeps(old(app.transcript), app.transcript)
    ensures app.Shown() == Switched(old(app.Shown()), app.View(), stored)
  {
    if !app.TurnState().IdleTurn? {
      app.Record(Status, "cannot switch sessions while a turn is running");
    } else if stored.Some? {
      app.LoadSession(stored.value.0, stored.value.1);
    } else {
      app.Record(Error, "session/get");
    }
  }

  /** Every key but Enter. Without a stream a quiet state stays quiet. */
  method HandleKey(app: App, input: Input)
    requires app.Valid()
    modifies app
    ensures app.Valid() && (old(app.Quiet()) ==> app.Quiet())
    ensures app.replies == old(app.replies) && app.asked == old(app.asked)
    ensures app.shouldQuit == (old(app.shouldQuit) || input.QuitKey?)
    ensures app.View() == FrontAfterKey(old(app.View()), input)
    ensures app.Shown() == ScreenAfterKey(old(app.Shown()), old(app.View()), input)
  {
    if Recalls(input) {
      Recall(app, input);
    } else if MovesCursor(input) {
      MoveCursor(app, input);
    } else if WorksDialog(input) {
      WorkDialog(app, input);
    } else {
      Command(app, input);
    }
  }

  /** What happens when there was no key. */
  method Watch(app: App, alive: bool)
    requires app.Valid()
    modifies app`disconnected, app`phase, app`prompts, app`dialogOpen, app`transcript
    ensures app.Valid() && (old(app.Quiet()) ==> app.Quiet())
    ensures app.View() == FrontAfterKey(old(app.View()), Timeout(alive))
    ensures app.Shown() == ScreenAfterKey(old(app.Shown()), old(app.View()), Timeout(alive))
  {
    if !app.disconnected && !alive {
      app.Disconnect("exited");
    }
  }

  method CancelTurn(app: App)
    requires app.Valid()
    modifies app`phase, app`cancelRequested, app`prompts, app`dialogOpen, app`transcript
    ensures app.Valid() && (old(app.Quiet()) ==> app.Quiet())
    ensures app.View() == FrontAfterKey(old(app.View()), CancelKey)
    ensures app.Shown() == ScreenAfterKey(old(app.Shown()), old(app.View()), CancelKey)
  {
    var _ := app.Cancel();
  }

  /** The other keys, and what happens when there was none. */
  method Command(app: App, input: Input)
    requires app.Valid() && !Recalls(input) && !MovesCursor(input) && !WorksDialog(input)
    modifies app
    ensures app.Valid() && (old(app.Quiet()) ==> app.Quiet())
    ensures app.replies == old(app.replies) && app.asked == old(app.asked)
    ensures app.shouldQuit == (old(app.shouldQuit) || input.QuitKey?)
    ensures app.View() == FrontAfterKey(old(app.View()), input)
    ensures app.Shown() == ScreenAfterKey(old(app.Shown()), old(app.View()), input)
  {
    if input.Timeout? {
      Watch(app, input.alive);
    } else if input.CancelKey? {
      CancelTurn(app);
    } else if input.NewSessionCommand? {
      app.RequestNewSession();
    } else if input.SwitchTo? {
      SwitchSession(app, input.stored);
    } else if input.Note? {
      app.Record(Status, input.text);
    } else if input.QuitKey? {
      app.Quit();
    }
  }

  /** What Enter shows is added to what was shown, and nothing else changes. */
  predicate EnterShows(before: Screen, after: Screen, more: seq<Entry>) {
    after == before.(transcript := before.transcript + more)
  }

  /** Enter: answers, reopens the question, steers, or starts a turn when no stream is held. */
  method HandleEnter(app: App, holding: bool, actsSoFar: seq<Act>, refusal: Option<string>)
    returns (held: bool, acts: seq<Act>)
    requires app.Valid() && (!holding ==> app.Quiet())
    requires Account(actsSoFar, holding, app.replies)
    modifies app
    ensures app.Valid() && (!held ==> app.Quiet())
    ensures Account(acts, held, app.replies)
    ensures acts == actsSoFar + EnterSends(old(app.View()), holding)
    ensures held <==> holding || EnterSends(old(app.View()), holding) != []
    ensures app.View() == FrontAfterEnter(old(app.View()), holding)
    ensures EnterShows(old(app.Shown()), app.Shown(), ShownByEnter(old(app.View()), holding, refusal))
    ensures app.asked == old(app.asked) && app.shouldQuit == old(app.shouldQuit)
  {
    held, acts := holding, actsSoFar;
    match EnterMeans(app.View())
    case Answer =>
      acts := SendAnswer(app, acts);
    case ReopenPrompt =>
      app.OpenDialog();
    case Steer =>
      acts := SendSteer(app, acts, refusal);
    case Send =>
      if !held {
        held, acts := SendMessage(app, acts);
      }
    case Nothing =>
  }

  /** At rest, Enter submits the message and, unless it is blank, starts a turn. */
  lemma {:induction false} AtRest(f: Front)
    requires WellFormed(f) && f.phase.Idle? && f.prompts == []
    ensures var sent := Submitted(f);
            FrontAfterEnter(f, false) == if Trim(f.composer) == "" then sent else sent.(phase := Streaming)
    ensures ShownByEnter(f, false, None)
            == if Trim(f.composer) == "" then [] else [Message(You, Trim(f.composer))]
  {
  }

  method SendMessage(app: App, actsSoFar: seq<Act>) returns (held: bool, acts: seq<Act>)
    requires app.Valid() && app.Quiet() && Account(actsSoFar, false, app.replies)
    modifies app
    ensures app.Valid() && Account(acts, held, app.replies) && (!held ==> app.Quiet())
    ensures held <==> Trim(old(app.composer)) != ""
    ensures acts == actsSoFar + if held then [Opened(Trim(old(app.composer)))] else []
    ensures app.View() == FrontAfterEnter(old(app.View()), false)
    ensures EnterShows(old(app.Shown()), app.Shown(), ShownByEnter(old(app.View()), false, None))
    ensures app.asked == old(app.asked) && app.shouldQuit == old(app.shouldQuit)
  {
    held, acts := false, actsSoFar;
    AtRest(app.View());
    var message := Submit(app);
    if message.Some? {
      app.BeginTurn();
      OneMoreAct(acts, held, app.replies, Opened(message.value));
      acts := acts + [Opened(message.value)];
      held := true;
    }
  }

  method SendAnswer(app: App, actsSoFar: seq<Act>) returns (acts: seq<Act>)
    requires app.Valid() && EnterMeans(app.View()).Answer? && Account(actsSoFar, true, app.replies)
    modifies app
    ensures app.Valid() && Account(acts, true, app.replies)
    ensures acts == actsSoFar + EnterSends(old(app.View()), true)
    ensures app.View() == FrontAfterEnter(old(app.View()), true)
    ensures EnterShows(old(app.Shown()), app.Shown(), ShownByEnter(old(app.View()), true, None))
    ensures app.asked == old(app.asked) && app.shouldQuit == old(app.shouldQuit)
  {
    acts := actsSoFar;
    var answer := app.TakeAnswer();
    if answer.Some? {
      OneMoreAnswer(acts, true, old(app.replies), app.replies[|old(app.replies)|]);
      acts := acts + [Answered(answer.value.0, answer.value.1)];
    }
  }

  method SendSteer(app: App, actsSoFar: seq<Act>, refusal: Option<string>) returns (acts: seq<Act>)
    requires app.Valid() && EnterMeans(app.View()).Steer? && Account(actsSoFar, true, app.replies)
    modifies app
    ensures app.Valid() && Account(acts, true, app.replies)
    ensures acts == actsSoFar + EnterSends(old(app.View()), true)
    ensures app.View() == FrontAfterEnter(old(app.View()), true)
    ensures EnterShows(old(app.Shown()), app.Shown(), ShownByEnter(old(app.View()), true, refusal))
    ensures app.asked == old(app.asked) && app.shouldQuit == old(app.shouldQuit)
  {
    acts := actsSoFar;
    InTurn(app.View(), refusal);
    var message := Submit(app);
    if message.Some? {
      OneMoreAct(acts, true, app.replies, Steered(message.value));
      acts := acts + [Steered(message.value)];
      NoteRefusal(app, refusal);
    }
  }

  /** While a turn runs, Enter submits the message and, unless it is blank, sends it as a follow-up. */
  lemma {:induction false} InTurn(f: Front, refusal: Option<string>)
    requires WellFormed(f) && EnterMeans(f).Steer?
    ensures FrontAfterEnter(f, true) == Submitted(f)
    ensures ShownByEnter(f, true, refusal)
            == if Trim(f.composer) == "" then []
               else
                 [Message(You, Trim(f.composer))]
                 + if refusal.Some? then [Message(Status, refusal.value)] else []
  {
  }

  /** Takes what the composer holds; a message that is not blank is shown. */
  method Submit(app: App) returns (message: Option<string>)
    requires app.Valid()
    modifies app`composer, app`history, app`recall, app`transcript
    ensures app.Valid() && (old(app.Quiet()) ==> app.Quiet())
    ensures message == if Trim(old(app.composer)) == "" then None else Some(Trim(old(app.composer)))
    ensures app.View() == Submitted(old(app.View()))
    ensures EnterShows(old(app.Shown()), app.Shown(), if message.Some? then [Message(You, message.value)] else [])
  {
    message := app.TakeSubmission();
  }

  method NoteRefusal(app: App, refusal: Option<string>)
    requires app.Valid()
    modifies app`transcript
    ensures app.Valid()
    ensures EnterShows(old(app.Shown()), app.Shown(),
                       if refusal.Some? then [Message(Status, refusal.value)] else [])
  {
    if refusal.Some? {
      app.Record(Status, refusal.value);
    }
  }

  /**
    Between the parts of a turn: the state holds, is quiet without a stream, and all that was sent is
    accounted for.
   */
  ghost predicate Standing(app: App, held: bool, acts: seq<Act>)
    reads app
  {
    app.Valid() && (!held ==> app.Quiet()) && Account(acts, held, app.replies)
  }

  ghost function Now(app: App, held: bool, acts: seq<Act>): Loop
    reads app
  {
    Loop(held, app.View(), app.Shown(), acts, app.asked)
  }

  /** Reads the stream, if one is held, and closes it if it ends. */
  method ReadStream(app: App, holding: bool, actsSoFar: seq<Act>, ready: seq<StreamEvent>)
    returns (held: bool, acts: seq<Act>)
    requires Standing(app, holding, actsSoFar)
    modifies app
    ensures Standing(app, held, acts)
    ensures Now(app, held, acts) == AfterStream(old(Now(app, holding, actsSoFar)), ready)
    ensures app.shouldQuit == old(app.shouldQuit)
    ensures Grows(old(app.transcript), app.transcript)
  {
    held, acts := holding, actsSoFar;
    if held {
      held := DrainStream(app, ready);
      if !held {
        OneMoreAct(acts, true, app.replies, Closed);
        acts := acts + [Closed];
      }
    }
  }

  /** Serves what the state asked of the transport. */
  method Serve(app: App, ghost held: bool, ghost acts: seq<Act>, tick: Tick)
    requires Standing(app, held, acts)
    modifies app`cancelRequested, app`newSessionRequested, app`session, app`transcript, app`cursor
    ensures Standing(app, held, acts)
    ensures Now(app, held, acts) == AfterRequests(old(Now(app, held, acts)), tick)
  {
    DrainRequests(app, tick.cancelled, tick.notes, tick.created);
  }

  method HandleInput(app: App, holding: bool, actsSoFar: seq<Act>, input: Input, refusal: Option<string>)
    returns (held: bool, acts: seq<Act>)
    requires Standing(app, holding, actsSoFar)
    modifies app
    ensures Standing(app, held, acts)
    ensures Now(app, held, acts) == AfterInput(old(Now(app, holding, actsSoFar)), input, refusal)
    ensures app.shouldQuit == (old(app.shouldQuit) || input.QuitKey?)
  {
    held, acts := holding, actsSoFar;
    if input.EnterKey? {
      held, acts := HandleEnter(app, held, acts, refusal);
    } else {
      HandleKey(app, input);
    }
  }

  /** One turn of the loop: the stream, the requests, the input. */
  method TakeTurn(app: App, holding: bool, actsSoFar: seq<Act>, tick: Tick) returns (held: bool, acts: seq<Act>)
    requires Standing(app, holding, actsSoFar)
    modifies app
    ensures Standing(app, held, acts)
    ensures Now(app, held, acts) == NextTurn(old(Now(app, holding, actsSoFar)), tick)
    ensures Now(app, held, acts)
            == AfterInput(AfterRequests(AfterStream(old(Now(app, holding, actsSoFar)), tick.ready), tick),
                          tick.input, tick.refusal)
    ensures app.shouldQuit == (old(app.shouldQuit) || tick.input.QuitKey?)
    ensures Kept(old(Now(app, holding, actsSoFar)), tick, app.transcript)
  {
    ghost var before := Now(app, holding, actsSoFar);
    held, acts := ReadStream(app, holding, actsSoFar, tick.ready);
    TurnKeeps(before, tick);
    Serve(app, held, acts, tick);
    held, acts := HandleInput(app, held, acts, tick.input, tick.refusal);
  }

  /** At the last of these heads. */
  ghost predicate Midway(app: App, held: bool, acts: seq<Act>, heads: seq<Head>, ticks: seq<Tick>)
    reads app
  {
    Standing(app, held, acts) && HasTurned(Now(app, held, acts), app.shouldQuit, heads, ticks)
  }

  /** One more turn, and the head after it. */
  method OneMoreTurn(app: App, holding: bool, actsSoFar: seq<Act>, headsSoFar: seq<Head>, ticks: seq<Tick>)
    returns (held: bool, acts: seq<Act>, heads: seq<Head>)
    requires Midway(app, holding, actsSoFar, headsSoFar, ticks) && |headsSoFar| <= |ticks| && !app.shouldQuit
    modifies app
    ensures Midway(app, held, acts, heads, ticks) && |heads| == |headsSoFar| + 1
  {
    ghost var now := Now(app, holding, actsSoFar);
    held, acts := TakeTurn(app, holding, actsSoFar, ticks[|headsSoFar| - 1]);
    var head := Head(held, app.View(), app.Shown());
    heads := headsSoFar + [head];
    Turned(now, headsSoFar, ticks, head, Now(app, held, acts), app.shouldQuit);
  }

  /**
    The whole loop takes one turn for each tick, up to one that quits, and is the function `LoopAfter` of the ticks:
    at every head what is held, shown and asked, and in the end what was sent. Whenever no stream is held at a
    head, nothing runs; streams never overlap; the answers sent are in ask order, at most one to a question, on
    the question's session. Unless a session is loaded, what was shown stays, and what was read off the stream is
    shown word for word.
   */
  method Run(session: string, ticks: seq<Tick>)
    returns (acts: seq<Act>, heads: seq<Head>)
    ensures RunOf(ticks, acts, heads)
  {
    var app := new App(session);
    app.Record(Status, "connected");
    var held := false;
    acts, heads := [], [Head(held, app.View(), app.Shown())];
    FirstHead(heads[0], ticks);
    while |heads| <= |ticks| && !app.shouldQuit
      invariant fresh(app) && Midway(app, held, acts, heads, ticks)
      decreases |ticks| - |heads|
    {
      held, acts, heads := OneMoreTurn(app, held, acts, heads, ticks);
    }
    RunEnds(Now(app, held, acts), app.shouldQuit, heads, ticks, app.replies, |app.prompts|);
  }
}
