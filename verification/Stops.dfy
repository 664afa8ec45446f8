// What becomes of a stop in a turn (pkgs/host/agent/src/conductor.rs).
module Stops {
  import opened Cycles
  import opened Sequences
  import opened Turns
  import opened Wrappers

  /** The text that goes to finalize carries the note that the turn was stopped. */
  ghost predicate ToldToFinalize(log: Log, runs: seq<CycleRun>) {
    && runs != [] && |log| >= 2
    && var last := runs[|runs| - 1];
       && log[|log| - 2].Dispatched? && log[|log| - 2].phase.Finalize?
       && log[|log| - 2].given == FinalizeState(Noted(ReplyText(last.called, last.after), CANCEL_NOTE))
  }

  /** In every world: a turn that was stopped is answered, and finalize is told of it exactly if some stop stands. */
  lemma {:induction false} StopIsToldExactlyIfItStands(world: World, log: Log, session: string, userMessage: string,
                                                       history: seq<Message>, runs: seq<CycleRun>, result: RunResult,
                                                       limit: nat)
    requires TurnOf(world, log, session, userMessage, history, runs, result, limit)
    ensures !StopFree(log) ==> result.Answered?
    ensures result.Answered? ==> (ToldToFinalize(log, runs) <==> StandingStop(log))
  {
  }

  /** If no result hook terminates, every sink's stop is told. */
  lemma {:induction false} UndisturbedStopIsTold(world: World, log: Log, session: string, userMessage: string,
                                                 history: seq<Message>, runs: seq<CycleRun>, result: RunResult,
                                                 limit: nat, i: nat)
    requires TurnOf(world, log, session, userMessage, history, runs, result, limit)
    requires i < |log| && IsStop(log[i]) && forall j :: 0 <= j < |log| ==> !IsTermination(log[j])
    ensures ToldToFinalize(log, runs)
  {
    StopIsToldExactlyIfItStands(world, log, session, userMessage, history, runs, result, limit);
    assert StandsAt(log, i);
  }

  /** A sink that keeps answering stop is told of whatever the hooks do. */
  lemma {:induction false} StickyStopIsTold(world: World, log: Log, session: string, userMessage: string,
                                            history: seq<Message>, runs: seq<CycleRun>, result: RunResult,
                                            limit: nat, i: nat)
    requires TurnOf(world, log, session, userMessage, history, runs, result, limit)
    requires Sticky(world) && i < |log| && IsStop(log[i])
    ensures ToldToFinalize(log, runs)
  {
    StopIsToldExactlyIfItStands(world, log, session, userMessage, history, runs, result, limit);
    StickyStopStands(world, log, i);
  }

  // ----- a world whose turns lose the note -----

  const PARTIAL := "so far"

  const ASKED := ToolCall("c1", "tool", "{}")

  /** The opening hook short-circuits, the result hook terminates, and the sink stops at the tool alone. */
  const FORGETFUL := World(
    (log: Log, phase: Phase, state: HookState) =>
      (if phase.BeforeLoop? || phase.AfterTool? then Blocked("enough") else Proceeded, state),
    (log: Log, provider: nat, request: Request) => Ok(Completion(PARTIAL, [ASKED], "stop")),
    (log: Log, call: ToolCall) => Some(ToolInvocation("done", false)),
    (log: Log) => None,
    (log: Log, event: Event) => if event.ToolInvoked? then Stop else Continue,
    (arguments: string) => true,
    ["only"])

  /** What such a world answers. */
  predicate Forgets(a: Act) {
    match a
    case Dispatched(phase, given, outcome, left) =>
      left == given && (outcome.Blocked? <==> phase.BeforeLoop? || phase.AfterTool?)
    case Emitted(event, flow) => flow == Stop <==> event.ToolInvoked?
    case Called(_, _, result) => result == Ok(Completion(PARTIAL, [ASKED], "stop"))
    case _ => true
  }

  ghost predicate AllForgotten(world: World, log: Log) {
    && |world.providers| == 1 && (forall arguments :: world.validJson(arguments))
    && forall i :: 0 <= i < |log| ==> Forgets(log[i])
  }

  lemma {:induction false} ForgetfulLog(log: Log)
    requires Genuine(FORGETFUL, log)
    ensures AllForgotten(FORGETFUL, log)
  {
    forall i | 0 <= i < |log| ensures Forgets(log[i]) {
      GenuineAt(FORGETFUL, log, i);
    }
  }

  lemma {:induction false} SomeoneAnswers(world: World, log: Log, from: Log, called: Log, attempt: Request)
    requires AllForgotten(world, log) && called <= log
    ensures !AllFailed(world, from, called, attempt)
  {
    if from <= called && |called| == |from| + 2 {
      assert Forgets(log[|from|]);
      assert !FailedAt(world, called, |from| + 2 * 0, 0, attempt);
    }
  }

  lemma {:induction false} NeverGivesUp(world: World, log: Log, before: Log, called: Log, request: Request)
    requires AllForgotten(world, log) && called <= log
    ensures forall reason :: !GaveUp(world, before, called, request, reason)
  {
    forall from: Log, attempt: Request, retries: nat, reason: string
      ensures !LastAttemptFailed(world, from, called, attempt, retries, reason)
    {
      SomeoneAnswers(world, log, from, called, attempt);
    }
  }

  lemma {:induction false} AlwaysAsks(world: World, log: Log, before: Log, called: Log, request: Request, c: Completion)
    requires AllForgotten(world, log) && called <= log
    requires CameFrom(world, before, called, request, c)
    ensures c == Completion(PARTIAL, [ASKED], "stop")
  {
    var retries: seq<Retry> :|
      && Retried(world, before, request, retries)
      && ActedOn(world, StartOf(before, retries, |retries|), called, AskedBy(world, request, retries, |retries|), c)
      && Corrected(request, AskedBy(world, request, retries, |retries|));
    AnswerIsAsked(world, log, StartOf(before, retries, |retries|), called,
                  AskedBy(world, request, retries, |retries|), c);
  }

  lemma {:induction false} AnswerIsAsked(world: World, log: Log, from: Log, called: Log, attempt: Request,
                                         c: Completion)
    requires AllForgotten(world, log) && called <= log && ActedOn(world, from, called, attempt, c)
    ensures c == Completion(PARTIAL, [ASKED], "stop")
  {
    var to: Log :|
      && FirstSuccess(world, from, to, attempt, c)
      && if c.finishReason in ["length", "max_tokens"] then Warned(to, called) else to == called;
    var k: nat :|
      && k < |world.providers|
      && |to| == |from| + 2 * k + 1
      && FirstFailed(world, from, to, k, attempt)
      && to[|from| + 2 * k] == Called(k, attempt, Ok(c));
    assert log[|from| + 2 * k] == to[|from| + 2 * k];
    assert Forgets(log[|from| + 2 * k]);
  }

  /** The one call's segment: let through, stopped by the sink, run, and terminated by the result hook. */
  lemma {:induction false} SegmentIsTerminated(s: Log, outcome: ToolOutcome)
    requires IsCallSegment(ASKED, s, outcome) && forall k :: 0 <= k < |s| ==> Forgets(s[k])
    ensures |s| == 5 && PassVerdict(s) == Terminated && IsStop(s[1])
  {
    assert Forgets(s[0]) && Forgets(s[1]);
    var hook, report := s[3], s[4];
    assert Forgets(hook) && Forgets(report);
    assert IsTermination(hook) && !IsStop(report) && !IsTermination(report);
    PassVerdictSnoc(s[..3], hook);
    PassVerdictSnoc(s[..4], report);
    assert s[..3] + [hook] == s[..4] && s[..4] + [report] == s;
  }

  lemma {:induction false} PassIsTerminated(acts: Log, told: Request, next: Request)
    requires ToolsRan(acts, [ASKED], told, next) && forall k :: 0 <= k < |acts| ==> Forgets(acts[k])
    ensures |acts| == 5 && PassVerdict(acts) == Terminated && IsStop(acts[1])
  {
    var segments: seq<Log>, outcomes: seq<ToolOutcome> :|
      PassOf(acts, [ASKED], segments, outcomes) && AnswersEachCall(told, next, [ASKED], outcomes);
    var s := segments[0];
    ConcatSnoc([], s);
    assert segments == [] + [s];
    assert Concat<Act>([]) == [] && acts == s;
    SegmentIsTerminated(s, outcomes[0]);
  }

  /** The reply is shown, undisturbed. */
  lemma {:induction false} ReplyIsShown(called: Log, after: Log, text: string)
    requires Replied(called, after, PARTIAL, text) && forall i :: 0 <= i < |after| ==> Forgets(after[i])
    ensures text == PARTIAL && |after| >= |called| + 2
    ensures var shown := after[|called|..|called| + 2];
            PassVerdict(shown) == GoOn && !IsStop(after[|called| + 1])
  {
    var hook, delta := after[|called|], after[|called| + 1];
    assert Forgets(hook) && Forgets(delta);
    PassVerdictSnoc([], hook);
    PassVerdictSnoc([] + [hook], delta);
    assert after[|called|..|called| + 2] == [] + [hook] + [delta];
  }

  /** The reply, a pass that was terminated, and perhaps a note: terminated. */
  lemma {:induction false} VerdictIsTerminated(called: Log, after: Log, acts: Log, noted: bool)
    requires called <= after && |after| == |called| + 2 + |acts| + (if noted then 1 else 0)
    requires PassVerdict(after[|called|..|called| + 2]) == GoOn && PassVerdict(acts) == Terminated
    requires after[|called| + 2..|called| + 2 + |acts|] == acts
    requires noted ==> after[|after| - 1].Emitted? && after[|after| - 1].event.Warning?
    ensures VerdictSince(called, after) == Terminated
  {
    var shown := after[|called|..|called| + 2];
    PassVerdictAppend(shown, acts);
    if noted {
      PassVerdictSnoc(shown + acts, after[|after| - 1]);
      assert after[|called|..] == shown + acts + [after[|after| - 1]];
    } else {
      assert after[|called|..] == shown + acts;
    }
  }

  /** The first cycle answers with the partial text and runs the tool; the hook's word comes after the sink's. */
  lemma {:induction false} StopForgotten(world: World, log: Log, run: CycleRun, limit: nat)
    requires AllForgotten(world, log) && run.after <= log
    requires Accounted(world, run, 0, limit) && limit >= 2
    ensures run.end == Finishing(PARTIAL) && ReplyText(run.called, run.after) == PARTIAL && !StopFree(log)
  {
    NeverGivesUp(world, log, run.before, run.called, run.request);
    AlwaysAsks(world, log, run.before, run.called, run.request, run.completion);
    ReplyForgetsStop(log, run, limit);
  }

  lemma {:induction false} ReplyForgetsStop(log: Log, run: CycleRun, limit: nat)
    requires run.called <= run.after && run.after <= log && forall i :: 0 <= i < |log| ==> Forgets(log[i])
    requires AnsweredInCycle(run, 0, limit) && run.completion == Completion(PARTIAL, [ASKED], "stop") && limit >= 2
    ensures run.end == Finishing(PARTIAL) && ReplyText(run.called, run.after) == PARTIAL && !StopFree(log)
  {
    ReplyIsShown(run.called, run.after, ReplyText(run.called, run.after));
    var told := Push(run.request, Message(Assistant, PARTIAL, None));
    var note := NoteFor(VerdictSince(run.called, run.after), true, 0, limit);
    PassForgetsStop(log, run.called, run.after, note, told, run.next, run.end, limit);
  }

  lemma {:induction false} PassForgetsStop(log: Log, called: Log, after: Log, note: Option<string>, told: Request,
                                           next: Request, end: CycleEnd, limit: nat)
    requires called <= after && after <= log && forall i :: 0 <= i < |log| ==> Forgets(log[i])
    requires |after| >= |called| + 2 && PassVerdict(after[|called|..|called| + 2]) == GoOn
    requires !IsStop(after[|called| + 1])
    requires Does(after, |called| + 2, note, [ASKED], told, next, true)
    requires end == EndOf(VerdictSince(called, after), true, PARTIAL, 0, limit)
    ensures end == Finishing(PARTIAL) && !StopFree(log)
  {
    var at := |called| + 2;
    var acts := after[at..if note.Some? then |after| - 1 else |after|];
    forall k | 0 <= k < |acts| ensures Forgets(acts[k]) {
      assert acts[k] == log[at + k];
    }
    PassIsTerminated(acts, told, next);
    assert log[at + 1] == acts[1];
    VerdictIsTerminated(called, after, acts, note.Some?);
  }

  /** Whatever the turn is about, this world stops it and finalize is never told. */
  lemma {:induction false} ForgetfulTurn(log: Log, session: string, userMessage: string, history: seq<Message>,
                                         runs: seq<CycleRun>, result: RunResult, limit: nat)
    requires TurnOf(FORGETFUL, log, session, userMessage, history, runs, result, limit) && limit >= 2
    ensures !StopFree(log) && result == Answered(PARTIAL, false) && !ToldToFinalize(log, runs)
  {
    ForgetfulLog(log);
    assert Forgets(log[1]);
    NoteIsLost(FORGETFUL, log, history, runs, result, limit);
  }

  /** There is but the one cycle. */
  lemma {:induction false} OneCycle(world: World, log: Log, start: Log, request: Request, runs: seq<CycleRun>,
                                    limit: nat)
    requires AllForgotten(world, log) && limit >= 2
    requires runs != [] && Chained(world, start, request, runs, limit) && runs[|runs| - 1].after <= log
    ensures |runs| == 1 && runs[0].end == Finishing(PARTIAL) && !StopFree(log)
    ensures ReplyText(runs[0].called, runs[0].after) == PARTIAL
  {
    ChainWithin(world, start, request, runs, limit, 0);
    FirstIsAccounted(world, start, request, runs, limit);
    StopForgotten(world, log, runs[0], limit);
  }

  lemma {:induction false} FirstIsAccounted(world: World, start: Log, request: Request, runs: seq<CycleRun>, limit: nat)
    requires runs != [] && Chained(world, start, request, runs, limit)
    ensures Accounted(world, runs[0], 0, limit)
    ensures |runs| > 1 ==> runs[0].end.Repeating?
  {
    assert Linked(world, start, request, runs, 0, limit);
    if |runs| > 1 {
      assert Linked(world, start, request, runs, 1, limit);
    }
  }

  lemma {:induction false} ClosingKeepsAll(log: Log, last: CycleRun, agentic: bool, result: RunResult)
    requires EndsWithRun(log, last, agentic, result)
    ensures last.after <= log
  {
  }

  lemma {:induction false} NoteIsLost(world: World, log: Log, history: seq<Message>, runs: seq<CycleRun>,
                                      result: RunResult, limit: nat)
    requires AllForgotten(world, log) && limit >= 2
    requires RunsOf(world, log, history, runs, result, limit) && log[1].outcome.Blocked?
    ensures !StopFree(log) && result == Answered(PARTIAL, false) && !ToldToFinalize(log, runs)
  {
    ClosingKeepsAll(log, runs[|runs| - 1], false, result);
    OneCycle(world, log, runs[0].before, runs[0].request, runs, limit);
    FinalizesPartial(log, runs, result, limit);
  }

  lemma {:induction false} FinalizesPartial(log: Log, runs: seq<CycleRun>, result: RunResult, limit: nat)
    requires |runs| == 1 && runs[0].end == Finishing(PARTIAL) && ReplyText(runs[0].called, runs[0].after) == PARTIAL
    requires EndsWithRun(log, runs[0], false, result) && forall i :: 0 <= i < |log| ==> Forgets(log[i])
    ensures result == Answered(PARTIAL, false) && !ToldToFinalize(log, runs)
  {
    assert Forgets(log[|log| - 2]);
    NotesDiffer(PARTIAL, limit);
  }
}
