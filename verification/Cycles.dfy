// What the log of a turn shows: completions, tool passes, cycles and whole turns
// (pkgs/host/agent/src/conductor.rs).
module Cycles {
  import opened Decimal
  import opened Sequences
  import opened Text
  import opened Turns
  import opened Wrappers

  const MAX_RETRIES: nat := 3

  datatype RunResult = Answered(text: string, agentic: bool) | Failed(reason: string)

  datatype Step = Again | Break(text: string)

  // ----- requests -----

  function Push(request: Request, m: Message): Request {
    request.(messages := request.messages + [m])
  }

  function Correction(tool: string): string {
    "Your previous response was invalid: tool `" + tool + "` arguments are not valid JSON. Reply again, correctly."
  }

  /** `attempt` is `request` with at most three pairs of correction messages after its own. */
  ghost predicate Corrected(request: Request, attempt: Request) {
    && attempt.(messages := request.messages) == request
    && request.messages <= attempt.messages
    && |attempt.messages| <= |request.messages| + 2 * MAX_RETRIES
  }

  /** The tool messages of a pass: one for each requested call, in order, under the model's own ids. */
  ghost predicate AnswersEachCall(before: Request, after: Request, calls: seq<ToolCall>, outcomes: seq<ToolOutcome>) {
    && |outcomes| == |calls|
    && after.(messages := before.messages) == before
    && after.messages
       == before.messages
          + seq(|calls|, i requires 0 <= i < |calls| => Message(ToolRole, outcomes[i].content, Some(calls[i].id)))
  }

  /** An attempt with the invalid reply and what is wrong with it. */
  function AskingAgain(attempt: Request, reply: string, tool: string): Request {
    Push(Push(attempt, Message(Assistant, reply, None)), Message(User, Correction(tool), None))
  }

  lemma {:induction false} StaysCorrected(request: Request, attempt: Request, reply: string, tool: string)
    requires Corrected(request, attempt) && |attempt.messages| + 2 <= |request.messages| + 2 * MAX_RETRIES
    ensures Corrected(request, AskingAgain(attempt, reply, tool))
    ensures |AskingAgain(attempt, reply, tool).messages| == |attempt.messages| + 2
  {
  }

  lemma {:induction false} AnswerPushed(before: Request, request: Request, calls: seq<ToolCall>, i: nat,
                                        outcomes: seq<ToolOutcome>, outcome: ToolOutcome)
    requires i < |calls| && AnswersEachCall(before, request, calls[..i], outcomes)
    ensures AnswersEachCall(before, Push(request, Message(ToolRole, outcome.content, Some(calls[i].id))),
                            calls[..i + 1], outcomes + [outcome])
  {
    var called, more := calls[..i + 1], outcomes + [outcome];
    var messages := seq(i, k requires 0 <= k < i => Message(ToolRole, outcomes[k].content, Some(calls[..i][k].id)));
    assert seq(i + 1, k requires 0 <= k < i + 1 => Message(ToolRole, more[k].content, Some(called[k].id)))
        == messages + [Message(ToolRole, outcome.content, Some(calls[i].id))];
  }

  // ----- completions -----

  /** Provider `k` was tried on `request` and failed, and the failure was announced. */
  ghost predicate FailedAt(world: World, log: Log, at: nat, k: nat, request: Request) {
    && at + 1 < |log|
    && log[at].Called? && log[at].provider == k && log[at].request == request && log[at].result.Err?
    && log[at + 1].Emitted? && k < |world.providers|
    && log[at + 1].event
       == Warning("provider " + world.providers[k] + ": " + log[at].result.error + "; falling back")
  }

  ghost predicate FirstFailed(world: World, before: Log, after: Log, k: nat, request: Request) {
    forall j: nat :: j < k ==> FailedAt(world, after, |before| + 2 * j, j, request)
  }

  /** From `before` to `after`, providers were tried in chain order and the first that succeeded gave `c`. */
  ghost predicate FirstSuccess(world: World, before: Log, after: Log, request: Request, c: Completion) {
    && before <= after
    && exists k: nat ::
         && k < |world.providers|
         && |after| == |before| + 2 * k + 1
         && FirstFailed(world, before, after, k, request)
         && after[|before| + 2 * k] == Called(k, request, Ok(c))
  }

  ghost predicate AllJson(world: World, calls: seq<ToolCall>) {
    forall i :: 0 <= i < |calls| ==> world.validJson(calls[i].arguments)
  }

  /** The call at `i` is the first whose arguments are no JSON. */
  ghost predicate FirstBadAt(world: World, calls: seq<ToolCall>, i: nat) {
    i < |calls| && !world.validJson(calls[i].arguments) && AllJson(world, calls[..i])
  }

  function BadCall(world: World, calls: seq<ToolCall>): (bad: Option<ToolCall>)
    ensures bad.None? <==> AllJson(world, calls)
    ensures bad.Some? ==> exists i: nat :: FirstBadAt(world, calls, i) && bad.value == calls[i]
  {
    if calls == [] then None
    else if !world.validJson(calls[0].arguments) then
      assert FirstBadAt(world, calls, 0);
      Some(calls[0])
    else
      assert calls == [calls[0]] + calls[1..];
      assert forall i: nat :: FirstBadAt(world, calls[1..], i) ==> FirstBadAt(world, calls, i + 1) by {
        forall i: nat | FirstBadAt(world, calls[1..], i) ensures FirstBadAt(world, calls, i + 1) {
          assert calls[..i + 1] == [calls[0]] + calls[1..][..i];
        }
      }
      BadCall(world, calls[1..])
  }

  /** What every run between two points of the log does when it only calls providers and warns. */
  ghost predicate OnlyCalls(before: Log, after: Log, most: nat) {
    && AddsOnly(before, after, IsCallOrWarning)
    && TallyOf(after).(calls := TallyOf(before).calls) == TallyOf(before)
    && TallyOf(before).calls <= TallyOf(after).calls <= TallyOf(before).calls + most
  }

  lemma {:induction false} OnlyCallsOne(before: Log, after: Log, most: nat, a: Act)
    requires OnlyCalls(before, after, most) && IsCallOrWarning(a)
    ensures OnlyCalls(before, after + [a], if a.Called? then most + 1 else most)
  {
    TallySnoc(after, a);
  }

  lemma {:induction false} OnlyCallsTwice(a: Log, b: Log, c: Log, most: nat, more: nat)
    requires OnlyCalls(a, b, most) && OnlyCalls(b, c, more)
    ensures OnlyCalls(a, c, most + more)
  {
    forall i | |a| <= i < |c| ensures IsCallOrWarning(c[i]) {
      assert i < |b| ==> c[i] == b[i];
    }
  }

  datatype Attempted =
    | NoProvider(reason: string)
    | Malformed(completion: Completion, tool: string)
    | Good(completion: Completion)

  ghost predicate BeginsWithCall(before: Log, after: Log, request: Request) {
    before <= after && |before| < |after| && after[|before|].Called? && after[|before|].request == request
  }

  /** One warning and nothing else. */
  predicate Warned(before: Log, after: Log) {
    before <= after && |after| == |before| + 1 && after[|before|].Emitted? && after[|before|].event.Warning?
  }

  /** `c` came from the first provider that succeeded on `request`; a notice followed exactly if it was cut off. */
  ghost predicate ActedOn(world: World, before: Log, after: Log, request: Request, c: Completion) {
    exists to: Log ::
      && FirstSuccess(world, before, to, request, c)
      && if c.finishReason in ["length", "max_tokens"] then Warned(to, after) else to == after
  }

  /** `c` asked for a tool with arguments that are no JSON, and so it is not acted on. */
  ghost predicate Rejected(world: World, before: Log, after: Log, request: Request, c: Completion) {
    ActedOn(world, before, after, request, c) && !AllJson(world, c.toolCalls)
  }

  // ----- attempts -----

  /** An attempt that was rejected: its request, what came of it, and the log with the retry announced. */
  datatype Retry = Retry(request: Request, completion: Completion, after: Log)

  /** Where attempt number `i` starts. */
  function StartOf(before: Log, retries: seq<Retry>, i: nat): Log
    requires i <= |retries|
  {
    if i == 0 then before else retries[i - 1].after
  }

  /**
    What attempt number `i` asks: the first one the request itself, each other one what the one before asked,
    with its correction.
   */
  function AskedBy(world: World, request: Request, retries: seq<Retry>, i: nat): Request
    requires i <= |retries|
  {
    if i == 0 then request
    else
      var last := retries[i - 1];
      var bad := BadCall(world, last.completion.toolCalls);
      AskingAgain(last.request, last.completion.text, if bad.Some? then bad.value.name else "")
  }

  ghost predicate RetriedAt(world: World, before: Log, request: Request, retries: seq<Retry>, i: nat) {
    i < |retries| ==>
      && retries[i].request == AskedBy(world, request, retries, i)
      && exists to: Log ::
           && Rejected(world, StartOf(before, retries, i), to, retries[i].request, retries[i].completion)
           && Warned(to, retries[i].after)
  }

  /** Each of the attempts was rejected, and the next one began where it ended. */
  ghost predicate Retried(world: World, before: Log, request: Request, retries: seq<Retry>) {
    |retries| <= MAX_RETRIES && forall i: nat :: RetriedAt(world, before, request, retries, i)
  }

  lemma {:induction false} OneMoreRetry(world: World, before: Log, request: Request, retries: seq<Retry>,
                                        to: Log, next: Retry)
    requires Retried(world, before, request, retries) && |retries| < MAX_RETRIES
    requires next.request == AskedBy(world, request, retries, |retries|)
    requires Rejected(world, StartOf(before, retries, |retries|), to, next.request, next.completion)
    requires Warned(to, next.after)
    ensures Retried(world, before, request, retries + [next])
  {
    var more := retries + [next];
    forall i: nat ensures RetriedAt(world, before, request, more, i) {
      if i < |retries| {
        assert RetriedAt(world, before, request, retries, i);
        assert more[i] == retries[i] && (i > 0 ==> more[i - 1] == retries[i - 1]);
      }
    }
  }

  /** `c` came out of the last attempt, and every attempt before that was rejected and corrected. */
  ghost predicate CameFrom(world: World, before: Log, after: Log, request: Request, c: Completion) {
    exists retries: seq<Retry> ::
      && Retried(world, before, request, retries)
      && ActedOn(world, StartOf(before, retries, |retries|), after, AskedBy(world, request, retries, |retries|), c)
      && Corrected(request, AskedBy(world, request, retries, |retries|))
  }

  lemma {:induction false} FirstFailedStays(world: World, before: Log, log: Log, more: Log, k: nat, request: Request)
    requires FirstFailed(world, before, log, k, request) && log <= more
    ensures FirstFailed(world, before, more, k, request)
  {
    forall j: nat | j < k ensures FailedAt(world, more, |before| + 2 * j, j, request) {
      assert FailedAt(world, log, |before| + 2 * j, j, request);
    }
  }

  lemma {:induction false} OneMoreFailed(world: World, before: Log, log: Log, more: Log, k: nat, request: Request)
    requires FirstFailed(world, before, log, k, request) && log <= more
    requires |log| == |before| + 2 * k && FailedAt(world, more, |log|, k, request)
    ensures FirstFailed(world, before, more, k + 1, request)
  {
    FirstFailedStays(world, before, log, more, k, request);
    forall j: nat | j < k + 1 ensures FailedAt(world, more, |before| + 2 * j, j, request) {
      if j < k {
        assert FailedAt(world, more, |before| + 2 * j, j, request);
      }
    }
  }

  lemma {:induction false} FirstCallIs(world: World, before: Log, after: Log, request: Request, c: Completion)
    requires FirstSuccess(world, before, after, request, c)
    ensures |before| < |after| && after[|before|].Called? && after[|before|].request == request
  {
    var k: nat :|
      && k < |world.providers|
      && |after| == |before| + 2 * k + 1
      && FirstFailed(world, before, after, k, request)
      && after[|before| + 2 * k] == Called(k, request, Ok(c));
    if k > 0 {
      assert FailedAt(world, after, |before| + 2 * 0, 0, request);
    }
  }

  /**
    Before an attempt: the ones that were rejected so far, the calls and corrections in them, and the first
    call made.
   */
  ghost predicate Attempting(world: World, before: Log, log: Log, request: Request, attemptRequest: Request,
                             retries: seq<Retry>) {
    var attempt, n := |retries|, |world.providers|;
    && OnlyCalls(before, log, Times(attempt, n))
    && Retried(world, before, request, retries) && StartOf(before, retries, attempt) == log
    && AskedBy(world, request, retries, attempt) == attemptRequest
    && Corrected(request, attemptRequest) && |attemptRequest.messages| == |request.messages| + 2 * attempt
    && (if attempt == 0 then log == before && attemptRequest == request else BeginsWithCall(before, log, request))
  }

  /** What one attempt gives. */
  ghost predicate Tried(world: World, before: Log, after: Log, request: Request, t: Attempted) {
    && OnlyCalls(before, after, |world.providers|)
    && match t
       case NoProvider(reason) => AllFailed(world, before, after, request) && reason == NoProviderReason(world)
       case Good(completion) =>
         && AllJson(world, completion.toolCalls)
         && ActedOn(world, before, after, request, completion) && BeginsWithCall(before, after, request)
       case Malformed(completion, tool) =>
         && Rejected(world, before, after, request, completion) && BeginsWithCall(before, after, request)
         && BadCall(world, completion.toolCalls).value.name == tool
  }

  /** What completing a request has to give. */
  ghost predicate Completed(world: World, before: Log, after: Log, request: Request, r: Result<Completion, string>) {
    && OnlyCalls(before, after, (MAX_RETRIES + 1) * |world.providers|)
    && (r.Ok? ==>
          && AllJson(world, r.value.toolCalls)
          && CameFrom(world, before, after, request, r.value)
          && BeginsWithCall(before, after, request))
    && (r.Err? ==> GaveUp(world, before, after, request, r.error))
  }

  /** An attempt that settles the completion. */
  lemma {:induction false} AttemptSettles(world: World, before: Log, from: Log, after: Log, request: Request,
                                          attemptRequest: Request, retries: seq<Retry>, tried: Attempted,
                                          r: Result<Completion, string>)
    requires Attempting(world, before, from, request, attemptRequest, retries)
    requires Tried(world, from, after, attemptRequest, tried)
    requires match tried
             case NoProvider(reason) => r == Err(reason)
             case Good(completion) => r == Ok(completion)
             case Malformed(_, tool) => r == Err(RetriesReason(tool)) && |retries| == MAX_RETRIES
    ensures Completed(world, before, after, request, r)
  {
    AttemptCounted(before, from, after, |retries|, |world.providers|);
    if r.Err? {
      assert LastAttemptFailed(world, from, after, attemptRequest, |retries|, r.error);
    }
  }

  lemma {:induction false} NextAttempt(world: World, before: Log, from: Log, to: Log, request: Request,
                                       attemptRequest: Request, retries: seq<Retry>, warning: Act, c: Completion,
                                       tool: string)
    requires Attempting(world, before, from, request, attemptRequest, retries) && |retries| < MAX_RETRIES
    requires Tried(world, from, to, attemptRequest, Malformed(c, tool))
    requires warning.Emitted? && warning.event.Warning?
    ensures Attempting(world, before, to + [warning], request, AskingAgain(attemptRequest, c.text, tool),
                       retries + [Retry(attemptRequest, c, to + [warning])])
  {
    var n, next := |world.providers|, Retry(attemptRequest, c, to + [warning]);
    AttemptCounted(before, from, to, |retries|, n);
    OnlyCallsOne(before, to, Times(|retries| + 1, n), warning);
    OneMoreRetry(world, before, request, retries, to, next);
    StaysCorrected(request, attemptRequest, c.text, tool);
  }

  function Times(attempts: nat, n: nat): nat {
    if attempts == 0 then 0 else Times(attempts - 1, n) + n
  }

  lemma {:induction false} AttemptCounted(before: Log, from: Log, after: Log, attempts: nat, n: nat)
    requires OnlyCalls(before, from, Times(attempts, n)) && OnlyCalls(from, after, n)
    requires attempts <= MAX_RETRIES
    ensures OnlyCalls(before, after, Times(attempts + 1, n))
    ensures OnlyCalls(before, after, (MAX_RETRIES + 1) * n)
  {
    OnlyCallsTwice(before, from, after, Times(attempts, n), n);
    TimesGrows(attempts + 1, n);
  }

  lemma {:induction false} TimesGrows(attempts: nat, n: nat)
    ensures Times(attempts, n) == attempts * n
    ensures attempts <= MAX_RETRIES + 1 ==> Times(attempts, n) <= (MAX_RETRIES + 1) * n
  {
    if attempts > 0 {
      TimesGrows(attempts - 1, n);
      assert attempts * n == (attempts - 1) * n + n;
    }
    if attempts <= MAX_RETRIES + 1 {
      assert attempts * n <= (MAX_RETRIES + 1) * n;
    }
  }

  /** Every provider in the chain was tried on `request` and failed. */
  ghost predicate AllFailed(world: World, before: Log, after: Log, request: Request) {
    && before <= after && |after| == |before| + 2 * |world.providers|
    && FirstFailed(world, before, after, |world.providers|, request)
  }

  function NoProviderReason(world: World): string {
    if world.providers == [] then "no providers configured" else "all providers failed"
  }

  function RetriesReason(tool: string): string {
    "malformed output after 3 retries: tool `" + tool + "`"
  }

  /** The last attempt failed: no provider answered, or three corrections had not helped. */
  ghost predicate LastAttemptFailed(world: World, from: Log, after: Log, attempt: Request, retries: nat,
                                    reason: string) {
    || (AllFailed(world, from, after, attempt) && reason == NoProviderReason(world))
    || (retries == MAX_RETRIES
        && exists c: Completion ::
             && Rejected(world, from, after, attempt, c)
             && reason == RetriesReason(BadCall(world, c.toolCalls).value.name))
  }

  /** Why there is no completion: every attempt was rejected and corrected, and the last one failed. */
  ghost predicate GaveUp(world: World, before: Log, after: Log, request: Request, reason: string) {
    exists retries: seq<Retry> ::
      && Retried(world, before, request, retries)
      && LastAttemptFailed(world, StartOf(before, retries, |retries|), after,
                           AskedBy(world, request, retries, |retries|), |retries|, reason)
      && Corrected(request, AskedBy(world, request, retries, |retries|))
  }

  // ----- hooks and tools -----

  /** A partial answer with a note, so it is not taken for a whole one. */
  function Noted(text: string, note: string): (noted: string)
    ensures EndsWith(noted, "[" + note + "]")
  {
    var mark := "[" + note + "]";
    var noted := if Trim(text) == "" then mark else text + "\n\n" + mark;
    assert noted[|noted| - |mark|..] == mark;
    noted
  }

  function CutNote(limit: nat): string {
    "stopped after " + Digits(limit) + " tool cycles \U{2014} the task was not finished. "
      + "Raise `limits.max-iterations` if it needs more room."
  }

  predicate IsShaping(phase: Phase) {
    phase.SelectModel? || phase.SelectContext? || phase.SelectTools?
  }

  function ShapeState(phase: Phase, request: Request): HookState
    requires IsShaping(phase)
  {
    if phase.SelectModel? then SelectModelState(request)
    else if phase.SelectContext? then SelectContextState(request)
    else SelectToolsState(request)
  }

  /** `state` is `request` in the case of its phase. */
  predicate IsShapeOf(state: HookState, phase: Phase, request: Request) {
    match phase
    case SelectModel => state == SelectModelState(request)
    case SelectContext => state == SelectContextState(request)
    case SelectTools => state == SelectToolsState(request)
    case _ => false
  }

  /** `a` is the hook of a shaping phase that was given one request and, unblocked, left another. */
  predicate ShapedAs(a: Act, phase: Phase, given: Request, shaped: Request) {
    && a.Dispatched? && a.phase == phase && IsShapeOf(a.given, phase, given) && a.outcome.Proceeded?
    && (|| a.left == SelectModelState(shaped) || a.left == SelectContextState(shaped)
        || a.left == SelectToolsState(shaped))
  }

  /** From `at` on, the three shaping phases in their order, each given what the one before it left. */
  ghost predicate ShapedBy(log: Log, at: nat, request: Request, shaped: Request) {
    && at + 3 <= |log|
    && var first, second, third := log[at], log[at + 1], log[at + 2];
       exists model: Request, context: Request ::
         && ShapedAs(first, SelectModel, request, model)
         && ShapedAs(second, SelectContext, model, context)
         && ShapedAs(third, SelectTools, context, shaped)
  }

  /** `a` is the hook of a shaping phase that was given one request and failed: blocked, or the wrong case left. */
  predicate UnshapedAs(a: Act, phase: Phase, given: Request, reason: string) {
    && a.Dispatched? && a.phase == phase && IsShapeOf(a.given, phase, given)
    && match a.outcome
       case Blocked(message) => reason == message
       case Proceeded =>
         && !a.left.SelectModelState? && !a.left.SelectContextState? && !a.left.SelectToolsState?
         && reason == "interceptor replaced shaping state with the wrong case"
  }

  /**
    From `at` on, and to the end, the first shaping phases in their order, each given what the one before it left;
    the last of them failed, and nothing came of it but the reason.
   */
  ghost predicate UnshapedBy(log: Log, at: nat, request: Request, reason: string) {
    && at < |log| <= at + 3
    && var first, last := log[at], log[|log| - 1];
       if |log| == at + 1 then UnshapedAs(last, SelectModel, request, reason)
       else if |log| == at + 2 then
         exists model: Request ::
           ShapedAs(first, SelectModel, request, model) && UnshapedAs(last, SelectContext, model, reason)
       else
         var second := log[at + 1];
         exists model: Request, context: Request ::
           && ShapedAs(first, SelectModel, request, model)
           && ShapedAs(second, SelectContext, model, context)
           && UnshapedAs(last, SelectTools, context, reason)
  }

  function TextLeft(left: HookState): string {
    match left
    case AfterResponseState(t) => t
    case FinalizeState(t) => t
    case _ => ""
  }

  function ShapedRequest(left: HookState): Option<Request> {
    match left
    case SelectModelState(r) => Some(r)
    case SelectContextState(r) => Some(r)
    case SelectToolsState(r) => Some(r)
    case _ => None
  }

  /** What came of a call: the denial, the tool's own word, or that there is no such tool. */
  function InvocationOf(s: Log): ToolInvocation
    requires |s| >= 1 && s[0].Dispatched? && (s[0].outcome.Proceeded? ==> |s| >= 3 && s[2].Invoked?)
  {
    match s[0].outcome
    case Blocked(message) => ToolInvocation("tool call denied: " + message, true)
    case Proceeded =>
      if s[2].invocation.Some? then s[2].invocation.value
      else ToolInvocation("no tool named `" + s[2].call.name + "`", true)
  }

  /** What one requested call adds to the log: denied and announced, or announced and invoked; then hook and result. */
  ghost predicate IsCallSegment(call: ToolCall, s: Log, outcome: ToolOutcome) {
    && |s| >= 4
    && s[0].Dispatched? && s[0].phase.BeforeTool? && s[0].given == ToolCallState(call)
    && (s[0].outcome.Blocked? ==>
          && |s| == 4 && s[1].Emitted?
          && s[1].event == Warning("tool `" + call.name + "` denied: " + s[0].outcome.message))
    && (s[0].outcome.Proceeded? ==>
          && |s| == 5
          && s[1].Emitted? && s[2].Invoked? && s[1].event == ToolInvoked(s[2].call)
          && s[2].call == match s[0].left case ToolCallState(changed) => changed case _ => call)
    && s[|s| - 1].Emitted? && s[|s| - 1].event == ToolResult(outcome)
    && var said, hook := InvocationOf(s), s[|s| - 2];
       && hook.Dispatched? && hook.phase.AfterTool?
       && hook.given == ToolResultState(ToolOutcome(call.id, said.content, said.failed))
       && outcome == match hook.left case ToolResultState(o) => o case _ => ToolOutcome(call.id, "", true)
  }

  /** The first part of it: the gate, and the denial or the invocation. */
  ghost predicate IsGated(call: ToolCall, s: Log) {
    && |s| >= 2
    && s[0].Dispatched? && s[0].phase.BeforeTool? && s[0].given == ToolCallState(call)
    && (s[0].outcome.Blocked? ==>
          && |s| == 2 && s[1].Emitted?
          && s[1].event == Warning("tool `" + call.name + "` denied: " + s[0].outcome.message))
    && (s[0].outcome.Proceeded? ==>
          && |s| == 3
          && s[1].Emitted? && s[2].Invoked? && s[1].event == ToolInvoked(s[2].call)
          && s[2].call == match s[0].left case ToolCallState(changed) => changed case _ => call)
  }

  lemma {:induction false} SegmentCloses(call: ToolCall, s: Log, hook: Act, result: Act, outcome: ToolOutcome)
    requires IsGated(call, s)
    requires var said := InvocationOf(s);
             && hook.Dispatched? && hook.phase.AfterTool?
             && hook.given == ToolResultState(ToolOutcome(call.id, said.content, said.failed))
             && outcome == match hook.left case ToolResultState(o) => o case _ => ToolOutcome(call.id, "", true)
    requires result.Emitted? && result.event == ToolResult(outcome)
    ensures IsCallSegment(call, s + [hook] + [result], outcome)
  {
  }

  /** A pass: one segment for each requested call, in order. */
  ghost predicate PassOf(acts: Log, calls: seq<ToolCall>, segments: seq<Log>, outcomes: seq<ToolOutcome>) {
    && |segments| == |calls| == |outcomes|
    && Concat(segments) == acts
    && forall i :: 0 <= i < |calls| ==> IsCallSegment(calls[i], segments[i], outcomes[i])
  }

  lemma {:induction false} OneMoreSegment(acts: Log, calls: seq<ToolCall>, i: nat, segments: seq<Log>,
                                          outcomes: seq<ToolOutcome>, s: Log, outcome: ToolOutcome)
    requires i < |calls| && PassOf(acts, calls[..i], segments, outcomes) && IsCallSegment(calls[i], s, outcome)
    ensures PassOf(acts + s, calls[..i + 1], segments + [s], outcomes + [outcome])
  {
    ConcatSnoc(segments, s);
    var called, all, results := calls[..i + 1], segments + [s], outcomes + [outcome];
    forall k | 0 <= k < |called| ensures IsCallSegment(called[k], all[k], results[k]) {
      if k < i {
        assert called[k] == calls[..i][k] && all[k] == segments[k] && results[k] == outcomes[k];
      }
    }
  }

  /** The requested calls ran, all of them and in order, and each one's result answers it in the next request. */
  ghost predicate ToolsRan(acts: Log, calls: seq<ToolCall>, request: Request, next: Request) {
    exists segments: seq<Log>, outcomes: seq<ToolOutcome> ::
      PassOf(acts, calls, segments, outcomes) && AnswersEachCall(request, next, calls, outcomes)
  }

  /** From `before` to `after` at most tool calls ran: in gated order, calling no provider, as one pass. */
  ghost predicate InToolPass(world: World, before: Log, after: Log, begun: bool) {
    && AddsOnly(before, after, IsNoCall)
    && (ToolOrder(world, before) ==> ToolOrder(world, after))
    && TallyOf(after) == if begun then Passing(TallyOf(before)) else TallyOf(before)
  }

  function Passing(t: Tally): Tally {
    t.(passes := t.passes + (if t.inPass then 0 else 1), inPass := true)
  }

  lemma {:induction false} CallInPass(world: World, before: Log, log: Log, s: Log, call: ToolCall,
                                      outcome: ToolOutcome, begun: bool)
    requires InToolPass(world, before, log, begun)
    requires IsCallSegment(call, s, outcome) && world.validJson(call.arguments)
    ensures InToolPass(world, before, log + s, true)
  {
    SegmentTally(log, s, call, outcome);
    SegmentOrder(world, s, call, outcome);
    if ToolOrder(world, before) {
      ToolOrderAppend(world, log, s);
    }
    forall i | |before| <= i < |log + s| ensures IsNoCall((log + s)[i]) {
      if i < |log| {
        assert IsNoCall(log[i]);
      } else {
        SegmentHasNoCall(s, call, outcome, i - |log|);
      }
    }
  }

  lemma {:induction false} SegmentHasNoCall(s: Log, call: ToolCall, outcome: ToolOutcome, i: nat)
    requires IsCallSegment(call, s, outcome) && i < |s|
    ensures !s[i].Called?
  {
  }

  lemma {:induction false} SegmentTally(log: Log, s: Log, call: ToolCall, outcome: ToolOutcome)
    requires IsCallSegment(call, s, outcome)
    ensures TallyOf(log + s) == Passing(TallyOf(log))
  {
    var l1 := log + [s[0]];
    var l2 := l1 + [s[1]];
    var l3 := l2 + [s[2]];
    var l4 := l3 + [s[3]];
    TallySnoc(log, s[0]);
    assert TallyOf(l1) == Passing(TallyOf(log));
    TallySnoc(l1, s[1]);
    assert TallyOf(l2) == TallyOf(l1);
    TallySnoc(l2, s[2]);
    assert TallyOf(l3) == TallyOf(l2);
    TallySnoc(l3, s[3]);
    assert TallyOf(l4) == TallyOf(l3);
    if |s| == 4 {
      assert log + s == l4;
    } else {
      TallySnoc(l4, s[4]);
      assert log + s == l4 + [s[4]];
    }
  }

  lemma {:induction false} SegmentOrder(world: World, s: Log, call: ToolCall, outcome: ToolOutcome)
    requires IsCallSegment(call, s, outcome) && world.validJson(call.arguments)
    ensures ToolOrder(world, s)
  {
  }

  lemma {:induction false} VerdictOneMore(acts: Log, s: Log, a: Act)
    ensures PassVerdict(acts + (s + [a]))
            == if IsStop(a) then Cancelled else if IsTermination(a) then Terminated else PassVerdict(acts + s)
  {
    PassVerdictSnoc(acts + s, a);
    assert acts + s + [a] == acts + (s + [a]);
  }

  /** Half-way through a pass: what was done in it, in order, and its verdict so far. */
  ghost predicate InPass(world: World, before: Log, log: Log, acts: Log, begun: bool, pass: ToolPass) {
    && log == before + acts && pass == PassVerdict(acts)
    && InToolPass(world, before, log, begun)
  }

  lemma {:induction false} PassStep(world: World, before: Log, log: Log, acts: Log, begun: bool,
                                    s: Log, call: ToolCall, outcome: ToolOutcome)
    requires InPass(world, before, log, acts, begun, PassVerdict(acts))
    requires IsCallSegment(call, s, outcome) && world.validJson(call.arguments)
    ensures InPass(world, before, log + s, acts + s, true, PassVerdict(acts + s))
  {
    CallInPass(world, before, log, s, call, outcome, begun);
    assert log + s == before + (acts + s);
  }

  // ----- cycles -----

  datatype CycleEnd = Repeating | Finishing(text: string) | Failing(reason: string)

  /** One cycle on record: `called` is the log when its completion was in. */
  datatype CycleRun = CycleRun(before: Log, request: Request, called: Log, completion: Completion,
                               after: Log, next: Request, end: CycleEnd)

  /** The verdict on everything that was done since `from`. */
  function VerdictSince(from: Log, log: Log): ToolPass
    requires from <= log
  {
    PassVerdict(log[|from|..])
  }

  lemma {:induction false} VerdictSinceOne(from: Log, log: Log, a: Act)
    requires from <= log
    ensures VerdictSince(from, log + [a])
            == if IsStop(a) then Cancelled else if IsTermination(a) then Terminated else VerdictSince(from, log)
  {
    PassVerdictSnoc(log[|from|..], a);
    assert (log + [a])[|from|..] == log[|from|..] + [a];
  }

  lemma {:induction false} VerdictSinceAsides(from: Log, log: Log, after: Log)
    requires from <= log && AddsOnly(log, after, IsAside)
    ensures VerdictSince(from, after) == VerdictSince(from, log)
    decreases |after|
  {
    if |after| > |log| {
      var before, last := after[..|after| - 1], after[|after| - 1];
      VerdictSinceAsides(from, log, before);
      VerdictSinceOne(from, before, last);
      assert before + [last] == after;
    } else {
      assert after == log;
    }
  }

  /** After a stretch that raised no signal, the verdict is that of what came since. */
  lemma {:induction false} VerdictSinceLater(from: Log, told: Log, log: Log)
    requires from <= told && told <= log && VerdictSince(from, told) == GoOn
    ensures VerdictSince(from, log) == VerdictSince(told, log)
    decreases |log|
  {
    if |log| > |told| {
      var before, last := log[..|log| - 1], log[|log| - 1];
      VerdictSinceLater(from, told, before);
      VerdictSinceOne(from, before, last);
      VerdictSinceOne(told, before, last);
      assert before + [last] == log;
    } else {
      assert told == log;
    }
  }

  /** The reply went through its hook, and the text the hook left is shown, unless it is empty. */
  ghost predicate Replied(called: Log, log: Log, reply: string, text: string) {
    && called <= log && |called| < |log|
    && var hook := log[|called|];
       && hook.Dispatched? && hook.phase.AfterResponse? && hook.given == AfterResponseState(reply)
       && text == TextLeft(hook.left)
       && (text != "" ==>
             && |called| + 1 < |log|
             && log[|called| + 1].Emitted? && log[|called| + 1].event == TextDelta(text))
  }

  /** Where the log stands once the text is shown. */
  function ToldAt(called: Log, text: string): nat {
    |called| + (if text == "" then 1 else 2)
  }

  /** The driver was asked for a follow-up and had one. */
  predicate HasFollowUp(log: Log, at: nat) {
    at < |log| && log[at].AskedFollowUp? && log[at].followUp.Some?
  }

  /** The follow-up joins the request the next-turn hook left. */
  predicate FollowedUp(log: Log, at: nat, request: Request, next: Request) {
    && HasFollowUp(log, at) && at + 1 < |log|
    && log[at + 1].Dispatched? && log[at + 1].phase.PrepareNextTurn?
    && log[at + 1].given == PrepareNextTurnState(request)
    && var left := log[at + 1].left;
       next == Push(if left.PrepareNextTurnState? then left.request else request,
                    Message(User, log[at].followUp.value, None))
  }

  /** The note of a cycle that was stopped, or that had more to do than the limit lets it. */
  function NoteFor(verdict: ToolPass, more: bool, iterations: nat, limit: nat): Option<string> {
    match verdict
    case Cancelled => Some(CANCEL_NOTE)
    case Terminated => None
    case GoOn => if more && iterations + 1 >= limit then Some(CutNote(limit)) else None
  }

  /** How a cycle with a reply has to end. */
  function EndOf(verdict: ToolPass, more: bool, text: string, iterations: nat, limit: nat): CycleEnd {
    var note := NoteFor(verdict, more, iterations, limit);
    if note.Some? then Finishing(Noted(text, note.value))
    else if verdict == GoOn && more then Repeating
    else Finishing(text)
  }

  predicate IsNote(a: Act, note: string) {
    a.Emitted? && a.event == Warning(note)
  }

  /**
    What a cycle did: one round of provider calls; then either it gave up, or it has a completion of its own
    request by the first provider that could, shows the reply and does what the reply leads to, and nothing else.
   */
  ghost predicate Accounted(world: World, run: CycleRun, iterations: nat, limit: nat) {
    && OnlyCalls(run.before, run.called, (MAX_RETRIES + 1) * |world.providers|)
    && AddsOnly(run.called, run.after, IsNoCall)
    && if run.end.Failing? then
         && GaveUp(world, run.before, run.called, run.request, run.end.reason)
         && |run.after| == |run.called| + 1 && IsNote(run.after[|run.called|], run.end.reason)
       else
         && CameFrom(world, run.before, run.called, run.request, run.completion)
         && AllJson(world, run.completion.toolCalls)
         && AnsweredInCycle(run, iterations, limit)
  }

  /** The text the reply's hook left. */
  function ReplyText(called: Log, log: Log): string {
    if |called| < |log| && log[|called|].Dispatched? then TextLeft(log[|called|].left) else ""
  }

  ghost predicate AnsweredInCycle(run: CycleRun, iterations: nat, limit: nat) {
    var text := ReplyText(run.called, run.after);
    && Replied(run.called, run.after, run.completion.text, text)
    && LeadsOn(run.called, run.after, run.completion.toolCalls, Push(run.request, Message(Assistant, text, None)),
               text, run.next, run.end, iterations, limit)
  }

  /** The end follows from the signals since the completion, and what was done from that end and the reply. */
  ghost predicate LeadsOn(called: Log, log: Log, calls: seq<ToolCall>, told: Request, text: string,
                          next: Request, end: CycleEnd, iterations: nat, limit: nat)
    requires called <= log
  {
    var at, verdict := ToldAt(called, text), VerdictSince(called, log);
    var more := calls != [] || HasFollowUp(log, at);
    && end == EndOf(verdict, more, text, iterations, limit)
    && Does(log, at, NoteFor(verdict, more, iterations, limit), calls, told, next, iterations + 1 < limit)
  }

  /**
    All that was done from `at` on, up to the note if there is one: nothing if the text was stopped or no cycle is
    left for the tools; else every requested call; or the follow-up if there is one.
   */
  ghost predicate Does(log: Log, at: nat, note: Option<string>, calls: seq<ToolCall>, told: Request, next: Request,
                       allowed: bool)
  {
    && 0 < at <= |log|
    && (note.Some? ==> at < |log| && IsNote(log[|log| - 1], note.value))
    && var acts := log[at..if note.Some? then |log| - 1 else |log|];
       if IsStop(log[at - 1]) || (calls != [] && !allowed) then acts == []
       else if calls != [] then ToolsRan(acts, calls, told, next)
       else if HasFollowUp(log, at) then |acts| == 2 && FollowedUp(log, at, told, next)
       else |acts| == 1 && acts[0].AskedFollowUp?
  }

  /**
    After the reply the driver was asked for a follow-up; with none left to run, the note is all that
    came after it.
   */
  lemma {:induction false} FollowUpDoes(before: Log, log: Log, request: Request, next: Request,
                                        iterations: nat, limit: nat)
    requires before != [] && !IsStop(before[|before| - 1])
    requires before <= log && |before| < |log| && log[|before|].AskedFollowUp?
    requires if !HasFollowUp(log, |before|) then |log| == |before| + 1
             else
               && FollowedUp(log, |before|, request, next)
               && if iterations + 1 < limit then |log| == |before| + 2
                  else |log| == |before| + 3 && IsNote(log[|log| - 1], CutNote(limit))
    ensures Does(log, |before|, NoteFor(GoOn, HasFollowUp(log, |before|), iterations, limit), [], request, next,
                 iterations + 1 < limit)
  {
  }

  /** After the reply a pass ran; the closing note, if any, is all that came after it. */
  lemma {:induction false} PassLeadsOn(called: Log, told: Log, passed: Log, log: Log, calls: seq<ToolCall>,
                                       request: Request, text: string, next: Request, pass: ToolPass,
                                       iterations: nat, limit: nat)
    requires called <= told && told <= passed && passed <= log && told != []
    requires |told| == ToldAt(called, text) && VerdictSince(called, told) == GoOn && !IsStop(told[|told| - 1])
    requires calls != [] && iterations + 1 < limit
    requires pass == VerdictSince(told, passed) && ToolsRan(passed[|told|..], calls, request, next)
    requires if pass == Cancelled then
               && |log| == |passed| + 1 && IsNote(log[|passed|], CANCEL_NOTE)
               && VerdictSince(called, log) == VerdictSince(called, passed)
             else log == passed
    ensures LeadsOn(called, log, calls, request, text, next, EndOf(pass, true, text, iterations, limit),
                    iterations, limit)
  {
    VerdictSinceLater(called, told, passed);
    assert log[|told|..|passed|] == passed[|told|..];
  }

  /** Cycles that follow one another from `start` on, the first on `request`, each but the last repeating. */
  ghost predicate Chained(world: World, start: Log, request: Request, runs: seq<CycleRun>, limit: nat) {
    forall i: nat :: i < |runs| ==> Linked(world, start, request, runs, i, limit)
  }

  ghost predicate Linked(world: World, start: Log, request: Request, runs: seq<CycleRun>, i: nat, limit: nat)
    requires i < |runs|
  {
    && Accounted(world, runs[i], i, limit)
    && runs[i].before == (if i == 0 then start else runs[i - 1].after)
    && runs[i].request == (if i == 0 then request else runs[i - 1].next)
    && (i > 0 ==> runs[i - 1].end.Repeating?)
  }

  lemma {:induction false} ChainStarts(world: World, start: Log, request: Request, runs: seq<CycleRun>, limit: nat)
    requires runs != [] && Chained(world, start, request, runs, limit)
    ensures runs[0].before == start && runs[0].request == request
  {
    assert Linked(world, start, request, runs, 0, limit);
  }

  lemma {:induction false} NextGoesOn(world: World, start: Log, request: Request, runs: seq<CycleRun>, limit: nat,
                                      i: nat)
    requires 0 < i < |runs| && Chained(world, start, request, runs, limit)
    ensures runs[i - 1].after == runs[i].before && runs[i].before <= runs[i].after
  {
    assert Linked(world, start, request, runs, i, limit);
  }

  lemma {:induction false} ChainWithin(world: World, start: Log, request: Request, runs: seq<CycleRun>, limit: nat,
                                       i: nat)
    requires i < |runs| && Chained(world, start, request, runs, limit)
    ensures runs[i].after <= runs[|runs| - 1].after
    decreases |runs| - i
  {
    if i + 1 < |runs| {
      NextGoesOn(world, start, request, runs, limit, i + 1);
      ChainWithin(world, start, request, runs, limit, i + 1);
    }
  }

  /** At the head of a cycle: where the log and the request have come to. */
  ghost predicate ChainedTo(world: World, start: Log, request: Request, runs: seq<CycleRun>, limit: nat, log: Log,
                            current: Request) {
    && Chained(world, start, request, runs, limit)
    && if runs == [] then log == start && current == request
       else
         var last := runs[|runs| - 1];
         last.end.Repeating? && log == last.after && current == last.next
  }

  lemma {:induction false} OneMoreCycle(world: World, start: Log, request: Request, runs: seq<CycleRun>, limit: nat,
                                        log: Log, current: Request, run: CycleRun)
    requires ChainedTo(world, start, request, runs, limit, log, current)
    requires Accounted(world, run, |runs|, limit) && run.before == log && run.request == current
    ensures Chained(world, start, request, runs + [run], limit)
    ensures run.end.Repeating? ==> ChainedTo(world, start, request, runs + [run], limit, run.after, run.next)
  {
    var more := runs + [run];
    forall i: nat | i < |more| ensures Linked(world, start, request, more, i, limit) {
      if i < |runs| {
        assert Linked(world, start, request, runs, i, limit);
        assert more[i] == runs[i];
      }
    }
  }

  /** Acts that neither call a provider nor belong to a tool call, and that count for nothing. */
  predicate IsMinor(a: Act) {
    IsPlain(a) && IsNoCall(a) && !IsReply(a)
  }

  predicate IsAside(a: Act) {
    IsMinor(a) && !IsStop(a)
  }

  lemma {:induction false} AsideAdded(before: Log, log: Log, a: Act)
    requires AddsOnly(before, log, IsAside) && TallyOf(log) == TallyOf(before) && IsAside(a)
    ensures AddsOnly(before, log + [a], IsAside) && TallyOf(log + [a]) == TallyOf(before)
  {
    TallySnoc(log, a);
  }

  lemma {:induction false} StopFreeOne(log: Log, a: Act)
    requires !IsStop(a)
    ensures StopFree(log) ==> StopFree(log + [a])
  {
  }

  lemma {:induction false} StopFreeAsides(before: Log, after: Log)
    requires StopFree(before) && AddsOnly(before, after, IsAside)
    ensures StopFree(after)
  {
    forall i | 0 <= i < |after| ensures !IsStop(after[i]) {
      if i < |before| {
        assert after[i] == before[i];
      } else {
        assert IsAside(after[i]);
      }
    }
  }

  /**
    Inside a cycle that began at `before` and had made its provider calls by `called`: no call since, tool
    events in order, `replies` replies and at most one pass counted.
   */
  ghost predicate InCycle(world: World, before: Log, called: Log, log: Log, replies: nat, passed: bool) {
    && before <= called && AddsOnly(called, log, IsNoCall)
    && (ToolOrder(world, before) ==> ToolOrder(world, log))
    && var t, u := TallyOf(before), TallyOf(log);
       && u.dones == t.dones && u.effectives == t.effectives
       && u.calls <= t.calls + (MAX_RETRIES + 1) * |world.providers|
       && u.replies == t.replies + replies
       && u.passes <= t.passes + (if passed then 1 else 0)
  }

  lemma {:induction false} CycleBegins(world: World, before: Log, called: Log)
    requires OnlyCalls(before, called, (MAX_RETRIES + 1) * |world.providers|)
    ensures InCycle(world, before, called, called, 0, false)
  {
    if ToolOrder(world, before) {
      forall i | |before| <= i < |called| ensures IsPlain(called[i]) {
        assert IsCallOrWarning(called[i]);
      }
      ToolOrderPlain(world, before, called);
    }
  }

  lemma {:induction false} ToolOrderOne(world: World, log: Log, a: Act)
    requires IsPlain(a)
    ensures ToolOrder(world, log) ==> ToolOrder(world, log + [a])
  {
    if ToolOrder(world, log) {
      ToolOrderPlain(world, log, log + [a]);
    }
  }

  lemma {:induction false} MinorInCycle(world: World, before: Log, called: Log, log: Log, a: Act, replies: nat,
                                        passed: bool)
    requires InCycle(world, before, called, log, replies, passed) && IsMinor(a)
    ensures InCycle(world, before, called, log + [a], replies, passed)
  {
    TallySnoc(log, a);
    ToolOrderOne(world, log, a);
    AddsOnlyOne(called, log, a, IsNoCall);
  }

  lemma {:induction false} ReplyInCycle(world: World, before: Log, called: Log, log: Log, a: Act)
    requires InCycle(world, before, called, log, 0, false) && IsReply(a)
    ensures InCycle(world, before, called, log + [a], 1, false)
  {
    TallySnoc(log, a);
    ToolOrderOne(world, log, a);
    AddsOnlyOne(called, log, a, IsNoCall);
  }

  lemma {:induction false} AddsOnlyBoth(a: Log, b: Log, c: Log)
    requires AddsOnly(a, b, IsNoCall) && AddsOnly(b, c, IsNoCall)
    ensures AddsOnly(a, c, IsNoCall)
  {
    forall i | |a| <= i < |c| ensures IsNoCall(c[i]) {
      if i < |b| {
        assert IsNoCall(b[i]);
      }
    }
  }

  lemma {:induction false} AsidesInCycle(world: World, before: Log, called: Log, log: Log, after: Log, replies: nat,
                                         passed: bool)
    requires InCycle(world, before, called, log, replies, passed)
    requires AddsOnly(log, after, IsAside) && TallyOf(after) == TallyOf(log)
    ensures InCycle(world, before, called, after, replies, passed)
  {
    forall i | |log| <= i < |after| ensures IsPlain(after[i]) && IsNoCall(after[i]) {
      assert IsAside(after[i]);
    }
    AddsOnlyBoth(called, log, after);
    if ToolOrder(world, log) {
      ToolOrderPlain(world, log, after);
    }
  }

  lemma {:induction false} PassInCycle(world: World, before: Log, called: Log, log: Log, after: Log)
    requires InCycle(world, before, called, log, 1, false) && InToolPass(world, log, after, true)
    ensures InCycle(world, before, called, after, 1, true)
  {
    AddsOnlyBoth(called, log, after);
  }

  lemma {:induction false} CycleEnds(world: World, before: Log, called: Log, log: Log, replies: nat, passed: bool,
                                     end: CycleEnd, iterations: nat, limit: nat)
    requires InCycle(world, before, called, log, replies, passed)
    requires replies == if end.Failing? then 0 else 1
    requires passed ==> !end.Failing? && iterations + 1 < limit
    ensures CycleCounts(world, before, log, end, iterations, limit)
    ensures AddsOnly(called, log, IsNoCall)
  {
  }

  /** What a cycle adds to the tally: one round of calls, at most one reply and one pass, no answer. */
  ghost predicate CycleCounts(world: World, before: Log, after: Log, end: CycleEnd, iterations: nat, limit: nat) {
    && before <= after
    && (ToolOrder(world, before) ==> ToolOrder(world, after))
    && var t, u := TallyOf(before), TallyOf(after);
       && u.dones == t.dones && u.effectives == t.effectives
       && u.calls <= t.calls + (MAX_RETRIES + 1) * |world.providers|
       && u.replies == t.replies + (if end.Failing? then 0 else 1)
       && u.passes <= t.passes + (if !end.Failing? && iterations + 1 < limit then 1 else 0)
  }

  // ----- stops -----

  /** The cycle ends with the note that it was stopped. */
  predicate TellsOfStop(run: CycleRun) {
    run.end == Finishing(Noted(ReplyText(run.called, run.after), CANCEL_NOTE))
  }

  /** A stop ends the loop, no provider is called after it, and the end tells of it exactly if it stands. */
  ghost predicate StopRespected(run: CycleRun) {
    && NoCallAfterStop(run.after)
    && (run.end.Finishing? ==> (TellsOfStop(run) <==> StandingStop(run.after)))
    && (!run.end.Finishing? ==> StopFree(run.after))
  }

  lemma {:induction false} NotesBegin(limit: nat)
    ensures |CANCEL_NOTE| > 8 && CANCEL_NOTE[8] == 'b'
    ensures |CutNote(limit)| > 8 && CutNote(limit)[8] == 'a'
  {
    var before, after := "stopped before ", "stopped after ";
    assert before <= CANCEL_NOTE && before[8] == 'b';
    assert after <= CutNote(limit) && after[8] == 'a';
  }

  lemma {:induction false} NotesDiffer(text: string, limit: nat)
    ensures Noted(text, CANCEL_NOTE) != text
    ensures Noted(text, CANCEL_NOTE) != Noted(text, CutNote(limit))
  {
    NotesBegin(limit);
    var told, cut := "[" + CANCEL_NOTE + "]", "[" + CutNote(limit) + "]";
    assert told[9] == 'b' && cut[9] == 'a';
    if Trim(text) == "" {
      TrimKeepsMarks(told);
    } else {
      var front := text + "\n\n";
      assert (front + told)[|front| + 9] == 'b' && (front + cut)[|front| + 9] == 'a';
    }
  }

  lemma {:induction false} TrimKeepsMarks(mark: string)
    requires |mark| >= 2 && mark[0] == '[' && mark[|mark| - 1] == ']'
    ensures Trim(mark) == mark
  {
  }

  lemma {:induction false} EndTellsOfStop(verdict: ToolPass, more: bool, text: string, iterations: nat, limit: nat)
    ensures EndOf(verdict, more, text, iterations, limit) == Finishing(Noted(text, CANCEL_NOTE))
            <==> verdict == Cancelled
  {
    NotesDiffer(text, limit);
  }

  /** A stop that stands came after the completion, or the acts before it held one already. */
  lemma {:induction false} StandingSince(called: Log, log: Log)
    requires called <= log && StopFree(called)
    ensures VerdictSince(called, log) == Cancelled <==> StandingStop(log)
    ensures VerdictSince(called, log) == GoOn ==> StopFree(log)
  {
    var since := log[|called|..];
    assert called + since == log;
    PassVerdictAppend(called, since);
    CancelledExactlyWhenStopStands(called);
    CancelledExactlyWhenStopStands(log);
    if PassVerdict(since) == GoOn {
      GoOnHasNoStop(since);
      StopFreeAppend(called, since);
    }
  }

  /** A failed cycle only warned after its calls. */
  lemma {:induction false} WarningIsNoStop(called: Log, after: Log)
    requires StopFree(called) && AddsOnly(called, after, IsNoCall) && Warned(called, after)
    ensures NoCallAfterStop(after) && StopFree(after)
  {
    StopFreeOne(called, after[|called|]);
    assert after == called + [after[|called|]];
    StopsAfterCalls(called, after);
  }

  lemma {:induction false} EndRespectsStops(called: Log, after: Log, text: string, more: bool, end: CycleEnd,
                                            iterations: nat, limit: nat)
    requires StopFree(called) && called <= after && AddsOnly(called, after, IsNoCall)
    requires end == EndOf(VerdictSince(called, after), more, text, iterations, limit)
    ensures NoCallAfterStop(after)
    ensures end == Finishing(Noted(text, CANCEL_NOTE)) <==> StandingStop(after)
    ensures !end.Finishing? ==> StopFree(after)
  {
    StopsAfterCalls(called, after);
    StandingSince(called, after);
    EndTellsOfStop(VerdictSince(called, after), more, text, iterations, limit);
  }

  lemma {:induction false} CycleRespectsStops(world: World, run: CycleRun, iterations: nat, limit: nat)
    requires CycleKept(world, run, iterations, limit) && StopFree(run.before)
    ensures StopRespected(run)
  {
    StopFreePlain(run.before, run.called);
    if run.end.Failing? {
      WarningIsNoStop(run.called, run.after);
    } else {
      var text := ReplyText(run.called, run.after);
      var more := run.completion.toolCalls != [] || HasFollowUp(run.after, ToldAt(run.called, text));
      EndRespectsStops(run.called, run.after, text, more, run.end, iterations, limit);
    }
  }

  // ----- whole turns -----

  /** The log of a turn opens with the session, the first hook and the message as that hook left it. */
  ghost predicate Opening(log: Log, session: string, userMessage: string) {
    && |log| >= 3
    && log[0] == Bound(session)
    && log[1].Dispatched? && log[1].phase.BeforeLoop? && log[1].given == BeforeLoopState(userMessage)
    && log[2] == Effective(match log[1].left case BeforeLoopState(message) => message case _ => userMessage)
  }

  /**
    The cycles of a turn: on the history with the effective message after it, no model chosen and no tools, shaped
    first if the opening hook let the turn proceed. None if the shaping failed, and then nothing else was done and
    the result carries the reason; the last one's end is the result's.
   */
  ghost predicate RunsOf(world: World, log: Log, history: seq<Message>, runs: seq<CycleRun>, result: RunResult,
                         limit: nat) {
    && |log| >= 3 && log[1].Dispatched? && log[2].Effective?
    && var first := Request(None, history + [Message(User, log[2].message, None)], [], "");
       var agentic := log[1].outcome.Proceeded?;
       && (agentic ==> |log| > 3 && log[3].Dispatched? && log[3].phase.SelectModel?
                       && log[3].given == SelectModelState(first))
       && if runs == [] then agentic && result.Failed? && UnshapedBy(log, 3, first, result.reason)
       else
         && RunsFrom(world, log, first, agentic, runs, limit)
         && EndsWithRun(log, runs[|runs| - 1], agentic, result)
  }

  ghost predicate RunsFrom(world: World, log: Log, first: Request, agentic: bool, runs: seq<CycleRun>, limit: nat)
    requires runs != []
  {
    && Chained(world, runs[0].before, runs[0].request, runs, limit)
    && runs[0].before <= log
    && if agentic then |runs[0].before| == 6 && ShapedBy(log, 3, first, runs[0].request)
       else |runs[0].before| == 3 && runs[0].request == first
  }

  /** A turn whose last cycle finished closes with the finalize hook and the `Done` that carries the answer. */
  ghost predicate EndsWithRun(log: Log, last: CycleRun, agentic: bool, result: RunResult) {
    match last.end
    case Repeating => false
    case Failing(reason) => result == Failed(reason) && log == last.after
    case Finishing(text) =>
      && |log| == |last.after| + 2 && last.after <= log
      && var hook, done := log[|log| - 2], log[|log| - 1];
         && hook.Dispatched? && hook.phase.Finalize? && hook.given == FinalizeState(text)
         && result == Answered(TextLeft(hook.left), agentic)
         && done.Emitted? && done.event == Done(TextLeft(hook.left), agentic)
  }

  /** Tools in order, one effective message, one `Done` if answered and none if not, and the limit kept. */
  ghost predicate TurnKept(world: World, log: Log, result: RunResult, limit: nat) {
    && ToolOrder(world, log)
    && TallyOf(log).effectives == 1
    && TallyOf(log).dones == (if result.Answered? then 1 else 0)
    && WithinLimit(world, log, result, limit)
  }

  /**
    Whatever the sink: a stop is final, it never makes a turn fail, and the last cycle, whose text goes to
    finalize, tells of it exactly when some stop stands.
   */
  ghost predicate StopKept(log: Log, runs: seq<CycleRun>, result: RunResult) {
    && NoCallAfterStop(log)
    && (result.Failed? ==> StopFree(log))
    && (result.Answered? ==> runs != [] && (TellsOfStop(runs[|runs| - 1]) <==> StandingStop(log)))
  }

  /** All that a turn promises, in every world. */
  ghost predicate TurnOf(world: World, log: Log, session: string, userMessage: string, history: seq<Message>,
                         runs: seq<CycleRun>, result: RunResult, limit: nat)
  {
    && Genuine(world, log)
    && Opening(log, session, userMessage)
    && RunsOf(world, log, history, runs, result, limit)
    && TurnKept(world, log, result, limit)
    && StopKept(log, runs, result)
  }

  /** Completion rounds, tool passes and provider calls of a turn, against the cycle limit. */
  ghost predicate WithinLimit(world: World, log: Log, result: RunResult, limit: nat) {
    var t, most := TallyOf(log), if limit == 0 then 1 else limit;
    && t.replies <= most
    && (result.Failed? ==> t.replies < most)
    && t.passes <= most - 1
    && t.calls <= most * ((MAX_RETRIES + 1) * |world.providers|)
  }

  /** At the head of a cycle. */
  ghost predicate Looping(world: World, start: Log, log: Log, iterations: nat, limit: nat) {
    && start <= log
    && (iterations == 0 || iterations < limit)
    && (ToolOrder(world, start) ==> ToolOrder(world, log))
    && var t, u := TallyOf(start), TallyOf(log);
       && u.dones == t.dones && u.effectives == t.effectives
       && u.calls <= t.calls + Times(iterations, (MAX_RETRIES + 1) * |world.providers|)
       && u.replies == t.replies + iterations
       && u.passes <= t.passes + iterations
  }

  /** After the loop. */
  ghost predicate LoopCounts(world: World, start: Log, log: Log, end: CycleEnd, limit: nat) {
    && start <= log
    && (ToolOrder(world, start) ==> ToolOrder(world, log))
    && var t, u, most := TallyOf(start), TallyOf(log), if limit == 0 then 1 else limit;
       && u.dones == t.dones && u.effectives == t.effectives
       && u.calls <= t.calls + most * ((MAX_RETRIES + 1) * |world.providers|)
       && u.replies <= t.replies + most
       && (end.Failing? ==> u.replies < t.replies + most)
       && u.passes <= t.passes + most - 1
  }

  lemma {:induction false} CycleInLoop(world: World, start: Log, before: Log, after: Log, end: CycleEnd,
                                       iterations: nat, limit: nat)
    requires Looping(world, start, before, iterations, limit)
    requires CycleCounts(world, before, after, end, iterations, limit)
    ensures end.Repeating? && iterations + 1 < limit ==> Looping(world, start, after, iterations + 1, limit)
    ensures !end.Repeating? ==> LoopCounts(world, start, after, end, limit)
  {
    var round := (MAX_RETRIES + 1) * |world.providers|;
    assert Times(iterations + 1, round) == Times(iterations, round) + round;
    TimesUpTo(iterations + 1, if limit == 0 then 1 else limit, round);
  }

  /** What one cycle promises. */
  ghost predicate CycleKept(world: World, run: CycleRun, iterations: nat, limit: nat) {
    && Accounted(world, run, iterations, limit)
    && CycleCounts(world, run.before, run.after, run.end, iterations, limit)
  }

  /** At the head of a cycle. */
  ghost predicate InLoop(world: World, start: Log, request: Request, runs: seq<CycleRun>, limit: nat, log: Log,
                         current: Request) {
    && Looping(world, start, log, |runs|, limit)
    && ChainedTo(world, start, request, runs, limit, log, current)
    && (StopFree(start) ==> StopFree(log))
  }

  /** What the loop promises. */
  ghost predicate LoopKept(world: World, start: Log, request: Request, runs: seq<CycleRun>, limit: nat, log: Log,
                           end: CycleEnd) {
    && !end.Repeating? && LoopCounts(world, start, log, end, limit)
    && runs != [] && Chained(world, start, request, runs, limit)
    && runs[|runs| - 1].after == log && runs[|runs| - 1].end == end
    && (StopFree(start) ==> StopRespected(runs[|runs| - 1]))
  }

  lemma {:induction false} LoopStep(world: World, start: Log, request: Request, runs: seq<CycleRun>, limit: nat,
                                    run: CycleRun)
    requires InLoop(world, start, request, runs, limit, run.before, run.request)
    requires CycleKept(world, run, |runs|, limit)
    requires run.end.Repeating? ==> |runs| + 1 < limit
    ensures run.end.Repeating? ==> InLoop(world, start, request, runs + [run], limit, run.after, run.next)
    ensures !run.end.Repeating? ==> LoopKept(world, start, request, runs + [run], limit, run.after, run.end)
  {
    if run.end.Repeating? {
      LoopGoesOn(world, start, request, runs, limit, run);
    } else {
      LoopEnds(world, start, request, runs, limit, run);
    }
  }

  lemma {:induction false} LoopGoesOn(world: World, start: Log, request: Request, runs: seq<CycleRun>, limit: nat,
                                      run: CycleRun)
    requires InLoop(world, start, request, runs, limit, run.before, run.request)
    requires CycleKept(world, run, |runs|, limit)
    requires run.end.Repeating? && |runs| + 1 < limit
    ensures InLoop(world, start, request, runs + [run], limit, run.after, run.next)
  {
    CycleInLoop(world, start, run.before, run.after, run.end, |runs|, limit);
    OneMoreCycle(world, start, request, runs, limit, run.before, run.request, run);
    if StopFree(start) {
      CycleRespectsStops(world, run, |runs|, limit);
    }
  }

  lemma {:induction false} LoopEnds(world: World, start: Log, request: Request, runs: seq<CycleRun>, limit: nat,
                                    run: CycleRun)
    requires InLoop(world, start, request, runs, limit, run.before, run.request)
    requires CycleKept(world, run, |runs|, limit)
    requires !run.end.Repeating?
    ensures LoopKept(world, start, request, runs + [run], limit, run.after, run.end)
  {
    CycleInLoop(world, start, run.before, run.after, run.end, |runs|, limit);
    OneMoreCycle(world, start, request, runs, limit, run.before, run.request, run);
    if StopFree(start) {
      CycleRespectsStops(world, run, |runs|, limit);
    }
    LastCycle(world, start, request, runs, limit, run);
  }

  lemma {:induction false} LastCycle(world: World, start: Log, request: Request, runs: seq<CycleRun>, limit: nat,
                                     run: CycleRun)
    requires LoopCounts(world, start, run.after, run.end, limit) && !run.end.Repeating?
    requires Chained(world, start, request, runs + [run], limit) && (StopFree(start) ==> StopRespected(run))
    ensures LoopKept(world, start, request, runs + [run], limit, run.after, run.end)
  {
    assert (runs + [run])[|runs|] == run;
  }

  lemma {:induction false} TimesUpTo(a: nat, b: nat, n: nat)
    requires a <= b
    ensures Times(a, n) <= b * n
  {
    TimesGrows(a, n);
    assert a * n <= b * n;
  }

  lemma {:induction false} OpeningFacts(world: World, log: Log, session: string, userMessage: string)
    requires |log| == 3 && Opening(log, session, userMessage)
    ensures ToolOrder(world, log) && StopFree(log)
    ensures TallyOf(log) == Tally(0, 0, 0, false, 0, 1)
  {
    TallySnoc([], log[0]);
    TallySnoc([] + [log[0]], log[1]);
    TallySnoc([] + [log[0]] + [log[1]], log[2]);
    assert [] + [log[0]] + [log[1]] + [log[2]] == log;
  }

  lemma {:induction false} ShapedFacts(world: World, opening: Log, log: Log)
    requires ToolOrder(world, opening) && StopFree(opening) && AddsOnly(opening, log, IsAside)
    ensures ToolOrder(world, log) && StopFree(log)
  {
    forall i | |opening| <= i < |log| ensures IsPlain(log[i]) {
      assert IsAside(log[i]);
    }
    ToolOrderPlain(world, opening, log);
    StopFreeAsides(opening, log);
  }

  lemma {:induction false} DoneKeepsOrder(world: World, log: Log, last: Act)
    requires ToolOrder(world, log) && last.Emitted? && last.event.Done?
    ensures ToolOrder(world, log + [last])
  {
    assert ToolOrder(world, [last]);
    ToolOrderAppend(world, log, [last]);
  }

  lemma {:induction false} UnshapedTurn(world: World, opening: Log, log: Log, result: RunResult, limit: nat)
    requires TallyOf(opening) == Tally(0, 0, 0, false, 0, 1) && TallyOf(log) == TallyOf(opening)
    requires ToolOrder(world, log) && StopFree(log) && result.Failed?
    ensures TurnKept(world, log, result, limit) && StopKept(log, [], result)
  {
    StopsAfterCalls(log, log);
  }

  lemma {:induction false} FailedTurn(world: World, start: Log, log: Log, runs: seq<CycleRun>, end: CycleEnd,
                                      limit: nat)
    requires TallyOf(start) == Tally(0, 0, 0, false, 0, 1) && ToolOrder(world, start)
    requires LoopCounts(world, start, log, end, limit) && end.Failing?
    requires runs != [] && runs[|runs| - 1].after == log && runs[|runs| - 1].end == end
    requires StopRespected(runs[|runs| - 1])
    ensures TurnKept(world, log, Failed(end.reason), limit) && StopKept(log, runs, Failed(end.reason))
  {
  }

  lemma {:induction false} AnsweredTurn(world: World, start: Log, looped: Log, runs: seq<CycleRun>, hook: Act,
                                        last: Act, end: CycleEnd, limit: nat, result: RunResult)
    requires TallyOf(start) == Tally(0, 0, 0, false, 0, 1) && ToolOrder(world, start)
    requires LoopCounts(world, start, looped, end, limit) && end.Finishing?
    requires hook.Dispatched? && hook.phase.Finalize? && hook.given == FinalizeState(end.text)
    requires last.Emitted? && last.event.Done? && result.Answered?
    requires runs != [] && runs[|runs| - 1].after == looped && runs[|runs| - 1].end == end
    requires StopRespected(runs[|runs| - 1])
    ensures TurnKept(world, looped + [hook] + [last], result, limit)
    ensures StopKept(looped + [hook] + [last], runs, result)
  {
    var log := looped + [hook] + [last];
    TallySnoc(looped, hook);
    TallySnoc(looped + [hook], last);
    ToolOrderOne(world, looped, hook);
    DoneKeepsOrder(world, looped + [hook], last);
    ClosingStops(looped, hook, last);
  }

  /** What closes a turn neither stops it nor calls a provider. */
  lemma {:induction false} ClosingStops(looped: Log, hook: Act, last: Act)
    requires hook.Dispatched? && hook.phase.Finalize? && last.Emitted? && last.event.Done?
    ensures NoCallAfterStop(looped) ==> NoCallAfterStop(looped + [hook] + [last])
    ensures StandingStop(looped + [hook] + [last]) <==> StandingStop(looped)
  {
    var log := looped + [hook] + [last];
    PassVerdictSnoc(looped, hook);
    PassVerdictSnoc(looped + [hook], last);
    CancelledExactlyWhenStopStands(looped);
    CancelledExactlyWhenStopStands(log);
  }
}
