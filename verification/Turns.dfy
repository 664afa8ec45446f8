// The vocabulary of a turn, and what its recorded log must look like
// (pkgs/host/agent/src/conductor.rs; types from pkgs/host/protocol/src/turn.rs and intercept.rs).
module Turns {
  import opened Text
  import opened Wrappers

  datatype Role = System | User | Assistant | ToolRole

  datatype Message = Message(role: Role, content: string, toolCallId: Option<string>)

  datatype ToolCall = ToolCall(id: string, name: string, arguments: string)

  datatype ToolOutcome = ToolOutcome(toolCallId: string, content: string, failed: bool)

  datatype ToolInvocation = ToolInvocation(content: string, failed: bool)

  /** A request to a provider; the sampling options are one opaque field. */
  datatype Request = Request(model: Option<string>, messages: seq<Message>, tools: seq<string>, options: string)

  datatype Completion = Completion(text: string, toolCalls: seq<ToolCall>, finishReason: string)

  datatype Event =
    | TextDelta(text: string)
    | ToolInvoked(call: ToolCall)
    | ToolResult(outcome: ToolOutcome)
    | Warning(note: string)
    | Done(answer: string, agentic: bool)

  datatype Flow = Continue | Stop

  datatype Phase =
    | BeforeLoop | SelectModel | SelectContext | SelectTools | AfterResponse
    | BeforeTool | AfterTool | Finalize | PrepareNextTurn

  datatype HookState =
    | BeforeLoopState(userMessage: string)
    | SelectModelState(request: Request)
    | SelectContextState(request: Request)
    | SelectToolsState(request: Request)
    | AfterResponseState(text: string)
    | ToolCallState(call: ToolCall)
    | ToolResultState(outcome: ToolOutcome)
    | FinalizeState(text: string)
    | PrepareNextTurnState(request: Request)

  datatype Outcome = Proceeded | Blocked(message: string)

  /** Everything the conductor does to the world around it, in order. */
  datatype Act =
    | Bound(session: string)
    | Dispatched(phase: Phase, given: HookState, outcome: Outcome, left: HookState)
    | Effective(message: string)
    | Emitted(event: Event, flow: Flow)
    | Called(provider: nat, request: Request, result: Result<Completion, string>)
    | Invoked(call: ToolCall, invocation: Option<ToolInvocation>)
    | AskedFollowUp(followUp: Option<string>)

  type Log = seq<Act>

  /** The world: each part answers from everything that has happened so far, so it may keep any state. */
  datatype World = World(
    dispatch: (Log, Phase, HookState) -> (Outcome, HookState),
    complete: (Log, nat, Request) -> Result<Completion, string>,
    invoke: (Log, ToolCall) -> Option<ToolInvocation>,
    followUp: Log -> Option<string>,
    emit: (Log, Event) -> Flow,
    validJson: string -> bool,
    providers: seq<string>)

  // ----- what the world answered -----

  /** The act carries what the world answers to everything before it. */
  ghost predicate AnsweredBy(world: World, before: Log, a: Act) {
    match a
    case Dispatched(phase, given, outcome, left) => (outcome, left) == world.dispatch(before, phase, given)
    case Emitted(event, flow) => flow == world.emit(before, event)
    case Called(provider, request, result) =>
      provider < |world.providers| && result == world.complete(before, provider, request)
    case Invoked(call, invocation) => invocation == world.invoke(before, call)
    case AskedFollowUp(followUp) => followUp == world.followUp(before)
    case _ => true
  }

  /** Every act of the log carries what the world answered when it was made. */
  ghost predicate Genuine(world: World, log: Log) {
    log == [] || (Genuine(world, log[..|log| - 1]) && AnsweredBy(world, log[..|log| - 1], log[|log| - 1]))
  }

  lemma {:induction false} GenuineSnoc(world: World, log: Log, a: Act)
    requires Genuine(world, log) && AnsweredBy(world, log, a)
    ensures Genuine(world, log + [a])
  {
    assert (log + [a])[..|log|] == log;
  }

  lemma {:induction false} GenuineAt(world: World, log: Log, i: nat)
    requires Genuine(world, log) && i < |log|
    ensures AnsweredBy(world, log[..i], log[i])
  {
    if i < |log| - 1 {
      GenuineAt(world, log[..|log| - 1], i);
      assert log[..|log| - 1][..i] == log[..i];
    }
  }

  // ----- counting -----

  predicate IsReply(a: Act) {
    a.Dispatched? && a.phase.AfterResponse?
  }

  predicate IsDone(a: Act) {
    a.Emitted? && a.event.Done?
  }

  predicate IsToolDispatch(a: Act) {
    a.Dispatched? && a.phase.BeforeTool?
  }

  predicate IsResultHook(a: Act) {
    a.Dispatched? && a.phase.AfterTool?
  }

  /**
    Provider calls, completions acted on, tool passes, final answers and effective messages. A pass begins
    with the first tool dispatch after a completion.
   */
  datatype Tally = Tally(calls: nat, replies: nat, passes: nat, inPass: bool, dones: nat, effectives: nat)

  function Counted(t: Tally, a: Act): Tally {
    if a.Called? then t.(calls := t.calls + 1)
    else if a.Effective? then t.(effectives := t.effectives + 1)
    else if IsDone(a) then t.(dones := t.dones + 1)
    else if IsReply(a) then t.(replies := t.replies + 1, inPass := false)
    else if IsToolDispatch(a) then t.(passes := t.passes + (if t.inPass then 0 else 1), inPass := true)
    else t
  }

  function TallyOf(log: Log): Tally {
    if log == [] then Tally(0, 0, 0, false, 0, 0)
    else Counted(TallyOf(log[..|log| - 1]), log[|log| - 1])
  }

  lemma {:induction false} TallySnoc(log: Log, a: Act)
    ensures TallyOf(log + [a]) == Counted(TallyOf(log), a)
  {
    assert (log + [a])[..|log|] == log;
  }

  // ----- quiet stretches -----

  /** Provider calls and warnings: all a completion round does. */
  predicate IsCallOrWarning(a: Act) {
    a.Called? || (a.Emitted? && a.event.Warning?)
  }

  /** Acts the order of tool events, the answer and the effective message do not depend on. */
  predicate IsPlain(a: Act) {
    && !IsDone(a) && !a.Effective? && !IsToolDispatch(a) && !IsResultHook(a)
    && !a.Invoked? && !(a.Emitted? && a.event.ToolInvoked?)
  }

  predicate IsNoCall(a: Act) {
    !a.Called?
  }

  ghost predicate AddsOnly(before: Log, after: Log, p: Act -> bool) {
    && before <= after
    && forall i :: |before| <= i < |after| ==> p(after[i])
  }

  lemma {:induction false} AddsOnlyOne(before: Log, after: Log, a: Act, p: Act -> bool)
    requires AddsOnly(before, after, p) && p(a)
    ensures AddsOnly(before, after + [a], p)
  {
  }

  // ----- the order of tool events -----

  /**
    An invocation at `i` comes right after its own event, which comes right after the gate let the call through; it
    runs the call as the gate left it.
   */
  ghost predicate GatedAt(log: Log, i: nat) {
    i < |log| && log[i].Invoked? ==>
      && i >= 2
      && log[i - 1].Emitted? && log[i - 1].event == ToolInvoked(log[i].call)
      && IsToolDispatch(log[i - 2]) && log[i - 2].outcome.Proceeded?
      && log[i - 2].given.ToolCallState?
      && log[i].call == match log[i - 2].left case ToolCallState(changed) => changed case _ => log[i - 2].given.call
  }

  /** An invocation event at `i` is followed by the invocation, the result hook, and at once by the result event. */
  ghost predicate AnsweredAt(log: Log, i: nat) {
    i < |log| && log[i].Emitted? && log[i].event.ToolInvoked? ==>
      && i + 3 < |log|
      && log[i + 1].Invoked? && log[i + 1].call == log[i].event.call
      && log[i + 2].Dispatched? && log[i + 2].phase.AfterTool?
      && log[i + 3].Emitted? && log[i + 3].event.ToolResult?
  }

  /** A tool dispatch at `i` is about a call whose arguments are JSON; if blocked, nothing is invoked for it. */
  ghost predicate VettedAt(world: World, log: Log, i: nat) {
    i < |log| && IsToolDispatch(log[i]) ==>
      && log[i].given.ToolCallState? && world.validJson(log[i].given.call.arguments)
      && (log[i].outcome.Blocked? ==>
            && i + 2 < |log|
            && log[i + 1].Emitted? && log[i + 1].event.Warning?
            && log[i + 2].Dispatched? && log[i + 2].phase.AfterTool?)
  }

  /** A result hook at `i` is followed at once by the result event. */
  ghost predicate ReportedAt(log: Log, i: nat) {
    i < |log| && IsResultHook(log[i]) ==> i + 1 < |log| && log[i + 1].Emitted? && log[i + 1].event.ToolResult?
  }

  ghost predicate InOrderAt(world: World, log: Log, i: nat) {
    GatedAt(log, i) && AnsweredAt(log, i) && VettedAt(world, log, i) && ReportedAt(log, i)
  }

  ghost predicate ToolOrder(world: World, log: Log) {
    forall i: nat :: InOrderAt(world, log, i)
  }

  lemma {:induction false} ToolOrderAppend(world: World, a: Log, b: Log)
    requires ToolOrder(world, a) && ToolOrder(world, b)
    ensures ToolOrder(world, a + b)
  {
    var all := a + b;
    forall i: nat ensures InOrderAt(world, all, i) {
      if i < |a| {
        assert InOrderAt(world, a, i);
      } else {
        assert InOrderAt(world, b, i - |a|);
      }
    }
  }

  lemma {:induction false} ToolOrderPlain(world: World, before: Log, after: Log)
    requires ToolOrder(world, before) && AddsOnly(before, after, IsPlain)
    ensures ToolOrder(world, after)
  {
    var tail := after[|before|..];
    assert after == before + tail;
    forall i: nat ensures InOrderAt(world, tail, i) {
      assert i < |tail| ==> IsPlain(after[|before| + i]);
    }
    ToolOrderAppend(world, before, tail);
  }

  // ----- stopping -----

  const CANCEL_NOTE: string := "stopped before " + "the turn finished \U{2014} the client disconnected or cancelled"

  /** A stop answered to streamed text, to a starting tool, or to its result. */
  predicate IsStop(a: Act) {
    a.Emitted? && a.flow.Stop? && (a.event.TextDelta? || a.event.ToolInvoked? || a.event.ToolResult?)
  }

  ghost predicate StopFree(log: Log) {
    forall i :: 0 <= i < |log| ==> !IsStop(log[i])
  }

  /** No provider is called after such a stop. */
  ghost predicate NoCallAfterStop(log: Log) {
    forall i, j :: 0 <= i < j < |log| && IsStop(log[i]) ==> !log[j].Called?
  }

  lemma {:induction false} StopsAfterCalls(mid: Log, log: Log)
    requires StopFree(mid) && AddsOnly(mid, log, IsNoCall)
    ensures NoCallAfterStop(log)
  {
    forall i, j | 0 <= i < j < |log| ensures IsStop(log[i]) ==> !log[j].Called? {
      if j >= |mid| {
        assert IsNoCall(log[j]);
      } else {
        assert log[i] == mid[i];
      }
    }
  }

  lemma {:induction false} StopFreePlain(before: Log, after: Log)
    requires StopFree(before) && AddsOnly(before, after, IsCallOrWarning)
    ensures StopFree(after)
  {
    forall i | 0 <= i < |after| ensures !IsStop(after[i]) {
      if i < |before| {
        assert after[i] == before[i];
      } else {
        assert IsCallOrWarning(after[i]);
      }
    }
  }

  /** The sink has answered stop to something. */
  ghost predicate HasStopped(log: Log) {
    exists i :: 0 <= i < |log| && log[i].Emitted? && log[i].flow.Stop?
  }

  /** Once the sink has answered stop, it keeps answering stop. */
  ghost predicate Sticky(world: World) {
    forall log: Log, e: Event :: HasStopped(log) ==> world.emit(log, e) == Stop
  }

  // ----- what a tool pass ends with -----

  datatype ToolPass = GoOn | Terminated | Cancelled

  predicate IsTermination(a: Act) {
    IsResultHook(a) && a.outcome.Blocked?
  }

  /** The last signal of a pass decides it: a stop cancels, a blocked result hook terminates. */
  function PassVerdict(acts: Log): ToolPass {
    if acts == [] then GoOn
    else
      var last := acts[|acts| - 1];
      if IsStop(last) then Cancelled
      else if IsTermination(last) then Terminated
      else PassVerdict(acts[..|acts| - 1])
  }

  lemma {:induction false} PassVerdictSnoc(acts: Log, a: Act)
    ensures PassVerdict(acts + [a])
            == if IsStop(a) then Cancelled else if IsTermination(a) then Terminated else PassVerdict(acts)
  {
    assert (acts + [a])[..|acts|] == acts;
  }

  /** The stop at `i` has no terminating result hook after it. */
  ghost predicate StandsAt(acts: Log, i: nat) {
    i < |acts| && IsStop(acts[i]) && forall j :: i < j < |acts| ==> !IsTermination(acts[j])
  }

  ghost predicate StandingStop(acts: Log) {
    exists i: nat :: StandsAt(acts, i)
  }

  /** Acts are cancelled exactly when some stop among them stands. */
  lemma {:induction false} CancelledExactlyWhenStopStands(acts: Log)
    ensures PassVerdict(acts) == Cancelled <==> StandingStop(acts)
  {
    if acts != [] {
      var last := |acts| - 1;
      var before := acts[..last];
      CancelledExactlyWhenStopStands(before);
      if IsStop(acts[last]) {
        assert StandsAt(acts, last);
      } else if PassVerdict(acts) == Cancelled {
        var i: nat :| StandsAt(before, i);
        StandsLonger(before, acts, i);
      }
      if i: nat :| StandsAt(acts, i) {
        StoodBefore(acts, i);
      }
    }
  }

  lemma {:induction false} StandsLonger(before: Log, acts: Log, i: nat)
    requires |acts| == |before| + 1 && acts[..|before|] == before && !IsTermination(acts[|before|])
    requires StandsAt(before, i)
    ensures StandsAt(acts, i)
  {
    forall j | i < j < |acts| ensures !IsTermination(acts[j]) {
      assert j < |before| ==> acts[j] == before[j];
    }
  }

  lemma {:induction false} StoodBefore(acts: Log, i: nat)
    requires StandsAt(acts, i)
    ensures i < |acts| - 1 ==> StandsAt(acts[..|acts| - 1], i) && !IsTermination(acts[|acts| - 1])
  {
    var before := acts[..|acts| - 1];
    if i < |before| {
      forall j | i < j < |before| ensures !IsTermination(before[j]) {
        assert before[j] == acts[j];
      }
    }
  }

  /** Later acts decide the verdict, unless they raise no signal. */
  lemma {:induction false} PassVerdictAppend(a: Log, b: Log)
    ensures PassVerdict(a + b) == if PassVerdict(b) == GoOn then PassVerdict(a) else PassVerdict(b)
    decreases |b|
  {
    if b == [] {
      assert a + b == a;
    } else {
      var before, last := b[..|b| - 1], b[|b| - 1];
      PassVerdictAppend(a, before);
      PassVerdictSnoc(a + before, last);
      PassVerdictSnoc(before, last);
      assert a + before + [last] == a + b && before + [last] == b;
    }
  }

  lemma {:induction false} GoOnHasNoStop(acts: Log)
    requires PassVerdict(acts) == GoOn
    ensures StopFree(acts)
    decreases |acts|
  {
    if acts != [] {
      var before := acts[..|acts| - 1];
      GoOnHasNoStop(before);
      forall i | 0 <= i < |acts| ensures !IsStop(acts[i]) {
        assert i < |before| ==> acts[i] == before[i];
      }
    }
  }

  lemma {:induction false} StopFreeAppend(a: Log, b: Log)
    requires StopFree(a) && StopFree(b)
    ensures StopFree(a + b)
  {
    forall i | 0 <= i < |a + b| ensures !IsStop((a + b)[i]) {
      assert (a + b)[i] == if i < |a| then a[i] else b[i - |a|];
    }
  }

  /** With a sink that keeps answering stop, every stop stands or is followed by one that does. */
  lemma {:induction false} StickyStopStands(world: World, log: Log, i: nat)
    requires Sticky(world) && Genuine(world, log) && ToolOrder(world, log)
    requires i < |log| && IsStop(log[i])
    ensures StandingStop(log)
    decreases |log| - i
  {
    if j: nat :| i < j < |log| && IsTermination(log[j]) {
      assert InOrderAt(world, log, j);
      var next := j + 1;
      GenuineAt(world, log, next);
      assert log[..next][i] == log[i];
      assert HasStopped(log[..next]);
      StickyStopStands(world, log, next);
    } else {
      assert StandsAt(log, i);
    }
  }
}
