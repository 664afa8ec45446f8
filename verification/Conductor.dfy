// The turn conductor (pkgs/host/agent/src/conductor.rs).
module Conductor {
  import opened Cycles
  import opened Decimal
  import opened Text
  import opened Turns
  import opened Wrappers

  class Conductor {
    const world: World
    var log: Log

    /** Everything on record is what the world answered. */
    ghost predicate Valid()
      reads this`log
    {
      Genuine(world, log)
    }

    constructor (world: World)
      ensures Valid() && this.world == world && log == []
    {
      this.world, log := world, [];
    }

    // ----- the outside -----

    method Dispatch(phase: Phase, state: HookState) returns (outcome: Outcome, left: HookState)
      requires Valid()
      modifies this`log
      ensures Valid()
      ensures (outcome, left) == world.dispatch(old(log), phase, state)
      ensures log == old(log) + [Dispatched(phase, state, outcome, left)]
    {
      var (o, l) := world.dispatch(log, phase, state);
      outcome, left := o, l;
      GenuineSnoc(world, log, Dispatched(phase, state, outcome, left));
      log := log + [Dispatched(phase, state, outcome, left)];
    }

    method Emit(event: Event) returns (flow: Flow)
      requires Valid()
      modifies this`log
      ensures Valid()
      ensures flow == world.emit(old(log), event)
      ensures log == old(log) + [Emitted(event, flow)]
    {
      flow := world.emit(log, event);
      GenuineSnoc(world, log, Emitted(event, flow));
      log := log + [Emitted(event, flow)];
    }

    method Call(provider: nat, request: Request) returns (result: Result<Completion, string>)
      requires Valid()
      requires provider < |world.providers|
      modifies this`log
      ensures Valid()
      ensures log == old(log) + [Called(provider, request, result)]
    {
      result := world.complete(log, provider, request);
      GenuineSnoc(world, log, Called(provider, request, result));
      log := log + [Called(provider, request, result)];
    }

    method Invoke(call: ToolCall) returns (invocation: Option<ToolInvocation>)
      requires Valid()
      modifies this`log
      ensures Valid()
      ensures log == old(log) + [Invoked(call, invocation)]
    {
      invocation := world.invoke(log, call);
      GenuineSnoc(world, log, Invoked(call, invocation));
      log := log + [Invoked(call, invocation)];
    }

    method AskFollowUp() returns (followUp: Option<string>)
      requires Valid()
      modifies this`log
      ensures Valid()
      ensures log == old(log) + [AskedFollowUp(followUp)]
    {
      followUp := world.followUp(log);
      GenuineSnoc(world, log, AskedFollowUp(followUp));
      log := log + [AskedFollowUp(followUp)];
    }

    // ----- providers -----

    /** Tries the providers in chain order. */
    method CompleteWithFallback(request: Request) returns (r: Result<Completion, string>)
      requires Valid()
      modifies this`log
      ensures Valid()
      ensures OnlyCalls(old(log), log, |world.providers|)
      ensures r.Ok? ==> FirstSuccess(world, old(log), log, request, r.value)
      ensures r.Err? ==> AllFailed(world, old(log), log, request)
      ensures r.Err? ==> r.error == if world.providers == [] then "no providers configured" else "all providers failed"
    {
      if world.providers == [] {
        return Err("no providers configured");
      }
      ghost var before := log;
      var k := 0;
      while k < |world.providers|
        invariant 0 <= k <= |world.providers|
        invariant Valid() && OnlyCalls(before, log, k)
        invariant |log| == |before| + 2 * k
        invariant FirstFailed(world, before, log, k, request)
      {
        ghost var reached := log;
        var result := Call(k, request);
        ghost var called := log;
        OnlyCallsOne(before, reached, k, Called(k, request, result));
        if result.Ok? {
          FirstFailedStays(world, before, reached, called, k, request);
          return Ok(result.value);
        }
        var flow := Emit(Warning("provider " + world.providers[k] + ": " + result.error + "; falling back"));
        OnlyCallsOne(before, called, k + 1, Emitted(log[|log| - 1].event, flow));
        OneMoreFailed(world, before, reached, log, k, request);
        k := k + 1;
      }
      r := Err("all providers failed");
    }

    /** One attempt: the chain, the truncation notice, and the check of the tool arguments. */
    method Try(request: Request) returns (t: Attempted)
      requires Valid()
      modifies this`log
      ensures Valid()
      ensures Tried(world, old(log), log, request, t)
    {
      ghost var before := log;
      var completed := CompleteWithFallback(request);
      if completed.Err? {
        return NoProvider(completed.error);
      }
      var completion := completed.value;
      ghost var to := log;
      FirstCallIs(world, before, to, request, completion);
      if completion.finishReason in ["length", "max_tokens"] {
        var flow := Emit(Warning("the model stopped at its token limit"));
        OnlyCallsOne(before, to, |world.providers|, log[|to|]);
      }
      assert ActedOn(world, before, log, request, completion);
      var bad := BadCall(world, completion.toolCalls);
      t := if bad.None? then Good(completion) else Malformed(completion, bad.value.name);
    }

    /** A completion whose tool arguments are JSON, asking again with corrections that leave `request` as it was. */
    method CompleteValidated(request: Request) returns (r: Result<Completion, string>)
      requires Valid()
      modifies this`log
      ensures Valid()
      ensures Completed(world, old(log), log, request, r)
      ensures OnlyCalls(old(log), log, 4 * |world.providers|)
    {
      ghost var before := log;
      var attemptRequest := request;
      var attempt := 0;
      ghost var retries: seq<Retry> := [];
      while true
        invariant attempt == |retries| <= MAX_RETRIES && Valid()
        invariant Attempting(world, before, log, request, attemptRequest, retries)
        decreases MAX_RETRIES - attempt
      {
        var settled;
        settled, attemptRequest, retries := Attempt(attemptRequest, attempt, before, request, retries);
        if settled.Some? {
          return settled.value;
        }
        attempt := attempt + 1;
      }
    }

    /** One attempt, which settles the completion or leaves a corrected request for the next. */
    method Attempt(attemptRequest: Request, attempt: nat, ghost before: Log, ghost request: Request,
                   ghost retriesSoFar: seq<Retry>)
      returns (settled: Option<Result<Completion, string>>, next: Request, ghost retries: seq<Retry>)
      requires Valid()
      requires Attempting(world, before, log, request, attemptRequest, retriesSoFar) && attempt == |retriesSoFar|
      modifies this`log
      ensures Valid()
      ensures settled.Some? ==> Completed(world, before, log, request, settled.value)
      ensures settled.None? ==>
                && attempt < MAX_RETRIES && |retries| == attempt + 1
                && Attempting(world, before, log, request, next, retries)
    {
      ghost var from := log;
      next, retries := attemptRequest, retriesSoFar;
      var tried := Try(attemptRequest);
      if tried.Malformed? && attempt < MAX_RETRIES {
        next, retries := AskAgain(attemptRequest, tried.completion, tried.tool, before, from, request, retries);
        return None, next, retries;
      }
      var r := match tried
        case NoProvider(reason) => Err(reason)
        case Good(completion) => Ok(completion)
        case Malformed(_, name) => Err(RetriesReason(name));
      AttemptSettles(world, before, from, log, request, attemptRequest, retries, tried, r);
      settled := Some(r);
    }

    /** The next attempt carries the invalid reply and what is wrong with it. */
    method AskAgain(attemptRequest: Request, rejected: Completion, tool: string,
                    ghost before: Log, ghost from: Log, ghost request: Request, ghost retriesSoFar: seq<Retry>)
      returns (next: Request, ghost retries: seq<Retry>)
      requires Valid()
      requires Attempting(world, before, from, request, attemptRequest, retriesSoFar) && |retriesSoFar| < MAX_RETRIES
      requires Tried(world, from, log, attemptRequest, Malformed(rejected, tool))
      modifies this`log
      ensures Valid()
      ensures Attempting(world, before, log, request, next, retries) && |retries| == |retriesSoFar| + 1
      ensures next.(messages := attemptRequest.messages) == attemptRequest
      ensures next.messages
              == attemptRequest.messages
                 + [Message(Assistant, rejected.text, None),
                    Message(User, "Your previous response was invalid: tool `" + tool
                                  + "` arguments are not valid JSON. Reply again, correctly.", None)]
    {
      ghost var to := log;
      var flow := Emit(Warning("malformed output; retrying: tool `" + tool + "`"));
      NextAttempt(world, before, from, to, request, attemptRequest, retriesSoFar, log[|to|], rejected, tool);
      retries := retriesSoFar + [Retry(attemptRequest, rejected, log)];
      next := Push(Push(attemptRequest, Message(Assistant, rejected.text, None)),
                   Message(User, Correction(tool), None));
    }

    // ----- hooks -----

    /** Runs a text hook; whatever case the hook leaves, only text survives. */
    method PostPhase(phase: Phase, text: string) returns (shaped: string)
      requires Valid()
      requires phase.AfterResponse? || phase.Finalize?
      modifies this`log
      ensures Valid()
      ensures |log| == |old(log)| + 1 && old(log) <= log
      ensures var hook := log[|old(log)|];
              && hook.Dispatched? && hook.phase == phase
              && hook.given == (if phase.Finalize? then FinalizeState(text) else AfterResponseState(text))
              && shaped == TextLeft(hook.left)
              && shaped == match hook.left
                           case AfterResponseState(response) => response
                           case FinalizeState(answer) => answer
                           case _ => ""
    {
      var state := if phase.Finalize? then FinalizeState(text) else AfterResponseState(text);
      var outcome, left := Dispatch(phase, state);
      shaped := TextLeft(left);
    }

    /** Shapes the request in one phase; a block or a wrong case fails the turn. */
    method Shape(phase: Phase, request: Request, ghost before: Log) returns (r: Result<Request, string>)
      requires Valid()
      requires IsShaping(phase)
      requires AddsOnly(before, log, IsAside) && TallyOf(log) == TallyOf(before)
      modifies this`log
      ensures Valid()
      ensures AddsOnly(before, log, IsAside) && TallyOf(log) == TallyOf(before)
      ensures |log| == |old(log)| + 1 && old(log) <= log
      ensures log[|old(log)|].Dispatched? && log[|old(log)|].phase == phase
      ensures r.Ok? ==> ShapedAs(log[|old(log)|], phase, request, r.value)
      ensures r.Err? ==> UnshapedAs(log[|old(log)|], phase, request, r.error)
    {
      ghost var reached := log;
      var given := ShapeState(phase, request);
      var outcome, left := Dispatch(phase, given);
      AsideAdded(before, reached, Dispatched(phase, given, outcome, left));
      if outcome.Blocked? {
        return Err(outcome.message);
      }
      var shaped := ShapedRequest(left);
      r := if shaped.Some? then Ok(shaped.value)
           else Err("interceptor replaced shaping state with the wrong case");
    }

    /** Announces and appends a note. */
    method NoteIncomplete(text: string, note: string) returns (noted: string)
      requires Valid()
      modifies this`log
      ensures Valid()
      ensures |log| == |old(log)| + 1 && log == old(log) + [log[|old(log)|]]
      ensures log[|old(log)|].Emitted? && log[|old(log)|].event == Warning(note)
      ensures noted == Noted(text, note)
      ensures noted == (if Trim(text) == "" then "" else text + "\n\n") + "[" + note + "]"
    {
      var flow := Emit(Warning(note));
      var mark := "[" + note + "]";
      noted := if Trim(text) == "" then mark else text + "\n\n" + mark;
    }

    method CutShort(text: string, limit: nat) returns (noted: string)
      requires Valid()
      modifies this`log
      ensures Valid()
      ensures |log| == |old(log)| + 1 && log == old(log) + [log[|old(log)|]]
      ensures log[|old(log)|].Emitted? && log[|old(log)|].event == Warning(CutNote(limit))
      ensures noted == Noted(text, CutNote(limit))
    {
      noted := NoteIncomplete(text, CutNote(limit));
    }

    // ----- tools -----

    /** The gate and, if it lets the call through, the tool. */
    method GateAndInvoke(call: ToolCall, stopSoFar: ToolPass, ghost acts: Log)
      returns (invocation: ToolInvocation, stop: ToolPass, ghost s: Log)
      requires Valid()
      requires stopSoFar == PassVerdict(acts)
      modifies this`log
      ensures Valid()
      ensures log == old(log) + s && IsGated(call, s)
      ensures invocation == InvocationOf(s)
      ensures stop == PassVerdict(acts + s)
    {
      stop := stopSoFar;
      var gate, left := Dispatch(BeforeTool, ToolCallState(call));
      s := [Dispatched(BeforeTool, ToolCallState(call), gate, left)];
      PassVerdictSnoc(acts, s[0]);
      if gate.Blocked? {
        var flow := Emit(Warning("tool `" + call.name + "` denied: " + gate.message));
        VerdictOneMore(acts, s, log[|log| - 1]);
        s := s + [log[|log| - 1]];
        invocation := ToolInvocation("tool call denied: " + gate.message, true);
        return;
      }
      var effective := if left.ToolCallState? then left.call else call;
      var answered;
      ghost var run;
      answered, stop, run := AnnounceAndInvoke(effective, stop, acts + s);
      assert acts + s + run == acts + (s + run);
      s := s + run;
      invocation := if answered.Some? then answered.value
                    else ToolInvocation("no tool named `" + effective.name + "`", true);
    }

    /** A call that was let through is announced, and the tool is run. */
    method AnnounceAndInvoke(effective: ToolCall, stopSoFar: ToolPass, ghost acts: Log)
      returns (answered: Option<ToolInvocation>, stop: ToolPass, ghost s: Log)
      requires Valid()
      requires stopSoFar == PassVerdict(acts)
      modifies this`log
      ensures Valid()
      ensures log == old(log) + s && |s| == 2
      ensures s[0].Emitted? && s[0].event == ToolInvoked(effective) && s[1] == Invoked(effective, answered)
      ensures stop == PassVerdict(acts + s)
    {
      stop := stopSoFar;
      var flow := Emit(ToolInvoked(effective));
      s := [Emitted(ToolInvoked(effective), flow)];
      PassVerdictSnoc(acts, s[0]);
      if flow == Stop {
        stop := Cancelled;
      }
      answered := Invoke(effective);
      VerdictOneMore(acts, s, Invoked(effective, answered));
      s := s + [Invoked(effective, answered)];
    }

    /** One requested call: the gate and the tool, then the result hook and the result event. */
    method RunToolCall(call: ToolCall, stopSoFar: ToolPass, ghost acts: Log)
      returns (outcome: ToolOutcome, stop: ToolPass, ghost s: Log)
      requires Valid()
      requires stopSoFar == PassVerdict(acts)
      modifies this`log
      ensures Valid()
      ensures log == old(log) + s && IsCallSegment(call, s, outcome)
      ensures stop == PassVerdict(acts + s)
    {
      var invocation;
      invocation, stop, s := GateAndInvoke(call, stopSoFar, acts);
      var given := ToolResultState(ToolOutcome(call.id, invocation.content, invocation.failed));
      var hook, shaped := Dispatch(AfterTool, given);
      VerdictOneMore(acts, s, Dispatched(AfterTool, given, hook, shaped));
      ghost var gated := s;
      s := s + [Dispatched(AfterTool, given, hook, shaped)];
      if hook.Blocked? {
        stop := Terminated;
      }
      outcome := if shaped.ToolResultState? then shaped.outcome else ToolOutcome(call.id, "", true);
      var flow := Emit(ToolResult(outcome));
      VerdictOneMore(acts, s, Emitted(ToolResult(outcome), flow));
      s := s + [Emitted(ToolResult(outcome), flow)];
      SegmentCloses(call, gated, Dispatched(AfterTool, given, hook, shaped), Emitted(ToolResult(outcome), flow),
                    outcome);
      if flow == Stop {
        stop := Cancelled;
      }
    }

    /** A tool pass: every requested call in turn, each answered by one message under the model's own id. */
    method RunToolCalls(calls: seq<ToolCall>, request: Request)
      returns (pass: ToolPass, next: Request, ghost segments: seq<Log>, ghost outcomes: seq<ToolOutcome>)
      requires Valid()
      requires calls != [] && AllJson(world, calls)
      modifies this`log
      ensures Valid()
      ensures old(log) <= log && pass == PassVerdict(log[|old(log)|..])
      ensures PassOf(log[|old(log)|..], calls, segments, outcomes) && AnswersEachCall(request, next, calls, outcomes)
      ensures InToolPass(world, old(log), log, true)
    {
      ghost var before, acts: Log := log, [];
      pass, next, segments, outcomes := GoOn, request, [], [];
      for i := 0 to |calls|
        invariant Valid() && InPass(world, before, log, acts, i > 0, pass)
        invariant PassOf(acts, calls[..i], segments, outcomes)
        invariant AnswersEachCall(request, next, calls[..i], outcomes)
      {
        ghost var reached := log;
        var outcome;
        ghost var s;
        outcome, pass, s := RunToolCall(calls[i], pass, acts);
        PassStep(world, before, reached, acts, i > 0, s, calls[i], outcome);
        OneMoreSegment(acts, calls, i, segments, outcomes, s, outcome);
        AnswerPushed(request, next, calls, i, outcomes, outcome);
        acts, segments, outcomes := acts + s, segments + [s], outcomes + [outcome];
        next := Push(next, Message(ToolRole, outcome.content, Some(calls[i].id)));
      }
      assert calls[..|calls|] == calls;
      assert log[|before|..] == acts;
    }

    // ----- the loop -----

    /** No tool calls: a follow-up goes on with the loop, unless the cycles are used up; none ends it. */
    method HandleNoToolCalls(request: Request, iterations: nat, limit: nat, finalText: string)
      returns (step: Step, next: Request, count: nat)
      requires Valid()
      requires log != [] && !IsStop(log[|log| - 1])
      modifies this`log
      ensures Valid()
      ensures AddsOnly(old(log), log, IsAside) && TallyOf(log) == TallyOf(old(log))
      ensures step == (if !HasFollowUp(log, |old(log)|) then Break(finalText)
                       else if iterations + 1 >= limit then Break(Noted(finalText, CutNote(limit)))
                       else Again)
      ensures Does(log, |old(log)|, NoteFor(GoOn, HasFollowUp(log, |old(log)|), iterations, limit), [], request, next,
                   iterations + 1 < limit)
      ensures step.Again? ==> count == iterations + 1 < limit
    {
      ghost var before := log;
      next, count := request, iterations;
      var followUp := AskFollowUp();
      AsideAdded(before, before, AskedFollowUp(followUp));
      if followUp.None? {
        FollowUpDoes(before, log, request, next, iterations, limit);
        return Break(finalText), next, count;
      }
      next := TakeFollowUp(request, followUp.value, before);
      count := iterations + 1;
      if count < limit {
        FollowUpDoes(before, log, request, next, iterations, limit);
        return Again, next, count;
      }
      var text := CutAside(finalText, limit, before);
      FollowUpDoes(before, log, request, next, iterations, limit);
      step := Break(text);
    }

    /** The note of a turn cut short, which is one more aside. */
    method CutAside(text: string, limit: nat, ghost before: Log) returns (noted: string)
      requires Valid()
      requires AddsOnly(before, log, IsAside) && TallyOf(log) == TallyOf(before)
      modifies this`log
      ensures Valid()
      ensures AddsOnly(before, log, IsAside) && TallyOf(log) == TallyOf(before)
      ensures |log| == |old(log)| + 1 && old(log) <= log && IsNote(log[|old(log)|], CutNote(limit))
      ensures noted == Noted(text, CutNote(limit))
    {
      ghost var reached := log;
      noted := CutShort(text, limit);
      AsideAdded(before, reached, log[|reached|]);
    }

    /** The follow-up joins what the next-turn hook leaves of the request. */
    method TakeFollowUp(request: Request, followUp: string, ghost before: Log) returns (next: Request)
      requires Valid()
      requires AddsOnly(before, log, IsAside) && TallyOf(log) == TallyOf(before)
      requires |log| > 0 && log[|log| - 1] == AskedFollowUp(Some(followUp))
      modifies this`log
      ensures Valid()
      ensures AddsOnly(before, log, IsAside) && TallyOf(log) == TallyOf(before)
      ensures |log| == |old(log)| + 1 && old(log) <= log && FollowedUp(log, |old(log)| - 1, request, next)
      ensures var kept := match log[|old(log)|].left case PrepareNextTurnState(changed) => changed case _ => request;
              next == kept.(messages := kept.messages + [Message(User, followUp, None)])
    {
      ghost var asked := log;
      next := request;
      var outcome, left := Dispatch(PrepareNextTurn, PrepareNextTurnState(request));
      AsideAdded(before, asked, Dispatched(PrepareNextTurn, PrepareNextTurnState(request), outcome, left));
      if left.PrepareNextTurnState? {
        next := left.request;
      }
      next := Push(next, Message(User, followUp, None));
    }

    /** The reply's hook, its place in the request, and the text the client sees. */
    method TakeReply(request: Request, completion: Completion, ghost before: Log)
      returns (text: string, next: Request, flow: Flow)
      requires Valid()
      requires InCycle(world, before, log, log, 0, false)
      modifies this`log
      ensures Valid()
      ensures InCycle(world, before, old(log), log, 1, false)
      ensures Replied(old(log), log, completion.text, text) && |log| == ToldAt(old(log), text)
      ensures VerdictSince(old(log), log) == if flow == Stop then Cancelled else GoOn
      ensures IsStop(log[|log| - 1]) <==> flow == Stop
      ensures |log| == |old(log)| + (if text == "" then 1 else 2)
      ensures next == Push(request, Message(Assistant, text, None))
      ensures next == request.(messages := request.messages + [Message(Assistant, text, None)])
    {
      ghost var called := log;
      text := PostPhase(AfterResponse, completion.text);
      ghost var replied := log;
      assert replied == called + [replied[|called|]];
      ReplyInCycle(world, before, called, called, replied[|called|]);
      VerdictSinceOne(called, called, replied[|called|]);
      next := Push(request, Message(Assistant, text, None));
      flow := Continue;
      if text != "" {
        flow := Emit(TextDelta(text));
        MinorInCycle(world, before, called, replied, Emitted(TextDelta(text), flow), 1, false);
        VerdictSinceOne(called, replied, Emitted(TextDelta(text), flow));
      }
    }

    /** The note for a stopped turn, or for one cut short. */
    method Conclude(text: string, stopped: bool, limit: nat, ghost before: Log, ghost called: Log, ghost passed: bool)
      returns (noted: string)
      requires Valid()
      requires InCycle(world, before, called, log, 1, passed)
      modifies this`log
      ensures Valid()
      ensures InCycle(world, before, called, log, 1, passed)
      ensures noted == Noted(text, if stopped then CANCEL_NOTE else CutNote(limit))
      ensures |log| == |old(log)| + 1 && old(log) <= log
      ensures IsNote(log[|old(log)|], if stopped then CANCEL_NOTE else CutNote(limit))
      ensures log[|old(log)|].event
              == Warning(if stopped
                         then "stopped before " + "the turn finished \U{2014} the client disconnected or cancelled"
                         else "stopped after " + Digits(limit) + " tool cycles \U{2014} the task was not finished. "
                              + "Raise `limits.max-iterations` if it needs more room.")
      ensures VerdictSince(called, log) == VerdictSince(called, old(log))
    {
      ghost var told := log;
      if stopped {
        noted := NoteIncomplete(text, CANCEL_NOTE);
      } else {
        noted := CutShort(text, limit);
      }
      MinorInCycle(world, before, called, told, log[|told|], 1, passed);
      VerdictSinceOne(called, told, log[|told|]);
    }

    /** One cycle of the loop: a completion, its text, and either a follow-up or a tool pass. */
    method Cycle(request: Request, iterations: nat, limit: nat)
      returns (end: CycleEnd, next: Request, count: nat, ghost run: CycleRun)
      requires Valid()
      modifies this`log
      ensures Valid()
      ensures run.before == old(log) && run.request == request && run.after == log && run.next == next && run.end == end
      ensures CycleKept(world, run, iterations, limit)
      ensures end.Repeating? ==> count == iterations + 1 < limit
    {
      ghost var before := log;
      next, count := request, iterations;
      var completed := CompleteValidated(request);
      ghost var called := log;
      CycleBegins(world, before, called);
      if completed.Err? {
        end, run := GiveUp(request, completed.error, iterations, limit, before);
        return;
      }
      var text, flow;
      text, next, flow := TakeReply(request, completed.value, before);
      end, next, count := Proceed(completed.value, next, iterations, limit, text, flow, before, called);
      run := CycleRun(before, request, called, completed.value, log, next, end);
      assert AnsweredInCycle(run, iterations, limit);
    }

    /** The rest of a cycle without a completion. */
    method GiveUp(request: Request, reason: string, ghost iterations: nat, ghost limit: nat, ghost before: Log)
      returns (end: CycleEnd, ghost run: CycleRun)
      requires Valid()
      requires Completed(world, before, log, request, Err(reason)) && InCycle(world, before, log, log, 0, false)
      modifies this`log
      ensures Valid()
      ensures run.before == before && run.request == request && run.after == log && run.next == request
      ensures run.end == end == Failing(reason) && CycleKept(world, run, iterations, limit)
    {
      ghost var called := log;
      var flow := Emit(Warning(reason));
      MinorInCycle(world, before, called, called, Emitted(Warning(reason), flow), 0, false);
      end := Failing(reason);
      CycleEnds(world, before, called, log, 0, false, end, iterations, limit);
      run := CycleRun(before, request, called, Completion("", [], ""), log, request, end);
    }

    /** The rest of a cycle, after its reply. */
    method Proceed(completion: Completion, request: Request, iterations: nat, limit: nat, text: string, flow: Flow,
                   ghost before: Log, ghost called: Log)
      returns (end: CycleEnd, next: Request, count: nat)
      requires Valid()
      requires InCycle(world, before, called, log, 1, false) && AllJson(world, completion.toolCalls)
      requires Replied(called, log, completion.text, text) && |log| == ToldAt(called, text)
      requires VerdictSince(called, log) == if flow == Stop then Cancelled else GoOn
      requires IsStop(log[|log| - 1]) <==> flow == Stop
      modifies this`log
      ensures Valid()
      ensures Replied(called, log, completion.text, text) && !end.Failing?
      ensures LeadsOn(called, log, completion.toolCalls, request, text, next, end, iterations, limit)
      ensures CycleCounts(world, before, log, end, iterations, limit) && AddsOnly(called, log, IsNoCall)
      ensures end.Repeating? ==> count == iterations + 1 < limit
    {
      next, count := request, iterations;
      if flow == Stop {
        var noted := Conclude(text, true, limit, before, called, false);
        end := Finishing(noted);
        CycleEnds(world, before, called, log, 1, false, end, iterations, limit);
      } else if completion.toolCalls == [] {
        end, next, count := NoToolsCycle(request, iterations, limit, text, before, called);
      } else {
        end, next, count := ToolsCycle(completion.toolCalls, request, iterations, limit, text, before, called);
      }
    }

    /** The rest of a cycle whose completion asked for no tool. */
    method NoToolsCycle(request: Request, iterations: nat, limit: nat, text: string, ghost before: Log,
                        ghost called: Log)
      returns (end: CycleEnd, next: Request, count: nat)
      requires Valid()
      requires InCycle(world, before, called, log, 1, false) && |log| == ToldAt(called, text)
      requires VerdictSince(called, log) == GoOn && !IsStop(log[|log| - 1])
      modifies this`log
      ensures Valid()
      ensures old(log) <= log && !end.Failing?
      ensures LeadsOn(called, log, [], request, text, next, end, iterations, limit)
      ensures CycleCounts(world, before, log, end, iterations, limit) && AddsOnly(called, log, IsNoCall)
      ensures end.Repeating? ==> count == iterations + 1 < limit
    {
      ghost var told := log;
      var step;
      step, next, count := HandleNoToolCalls(request, iterations, limit, text);
      AsidesInCycle(world, before, called, told, log, 1, false);
      VerdictSinceAsides(called, told, log);
      end := if step.Again? then Repeating else Finishing(step.text);
      CycleEnds(world, before, called, log, 1, false, end, iterations, limit);
    }

    /** The rest of a cycle whose completion asked for tools. */
    method ToolsCycle(calls: seq<ToolCall>, request: Request, iterations: nat, limit: nat, text: string,
                      ghost before: Log, ghost called: Log)
      returns (end: CycleEnd, next: Request, count: nat)
      requires Valid()
      requires InCycle(world, before, called, log, 1, false) && VerdictSince(called, log) == GoOn
      requires |log| == ToldAt(called, text) && !IsStop(log[|log| - 1])
      requires calls != [] && AllJson(world, calls)
      modifies this`log
      ensures Valid()
      ensures old(log) <= log && !end.Failing?
      ensures LeadsOn(called, log, calls, request, text, next, end, iterations, limit)
      ensures CycleCounts(world, before, log, end, iterations, limit) && AddsOnly(called, log, IsNoCall)
      ensures end.Repeating? ==> count == iterations + 1 < limit
    {
      next, count := request, iterations + 1;
      if count >= limit {
        var noted := Conclude(text, false, limit, before, called, false);
        end := Finishing(noted);
        CycleEnds(world, before, called, log, 1, false, end, iterations, limit);
        return;
      }
      end, next := PassCycle(calls, request, iterations, limit, text, before, called);
    }

    /** The rest of a cycle whose tools may run. */
    method PassCycle(calls: seq<ToolCall>, request: Request, ghost iterations: nat, limit: nat, text: string,
                     ghost before: Log, ghost called: Log)
      returns (end: CycleEnd, next: Request)
      requires Valid()
      requires InCycle(world, before, called, log, 1, false) && VerdictSince(called, log) == GoOn
      requires |log| == ToldAt(called, text) && !IsStop(log[|log| - 1])
      requires calls != [] && AllJson(world, calls) && iterations + 1 < limit
      modifies this`log
      ensures Valid()
      ensures old(log) <= log && !end.Failing?
      ensures LeadsOn(called, log, calls, request, text, next, end, iterations, limit)
      ensures CycleCounts(world, before, log, end, iterations, limit) && AddsOnly(called, log, IsNoCall)
    {
      ghost var told := log;
      var pass;
      ghost var segments, outcomes;
      pass, next, segments, outcomes := RunToolCalls(calls, request);
      PassInCycle(world, before, called, told, log);
      ghost var passed := log;
      assert ToolsRan(passed[|told|..], calls, request, next);
      if pass == Cancelled {
        var noted := Conclude(text, true, limit, before, called, true);
        end := Finishing(noted);
      } else {
        end := if pass == GoOn then Repeating else Finishing(text);
      }
      PassLeadsOn(called, told, passed, log, calls, request, text, next, pass, iterations, limit);
      CycleEnds(world, before, called, log, 1, true, end, iterations, limit);
    }

    /** Cycles until one finishes or fails, at most `limit` of them, and one at least. */
    method RunLoop(request: Request, limit: nat) returns (end: CycleEnd, ghost runs: seq<CycleRun>)
      requires Valid()
      modifies this`log
      ensures Valid()
      ensures LoopKept(world, old(log), request, runs, limit, log, end)
    {
      ghost var start := log;
      var current, iterations := request, 0;
      runs := [];
      while true
        invariant Valid() && InLoop(world, start, request, runs, limit, log, current) && iterations == |runs|
        decreases limit - iterations
      {
        ghost var run;
        end, current, iterations, run := Cycle(current, iterations, limit);
        LoopStep(world, start, request, runs, limit, run);
        runs := runs + [run];
        if !end.Repeating? {
          return;
        }
      }
    }

    /** The effective user message is handed on once, before anything is emitted. */
    method BuildInitialRequest(userMessage: string, history: seq<Message>) returns (agentic: bool, request: Request)
      requires Valid()
      modifies this`log
      ensures Valid()
      ensures |log| == |old(log)| + 2 && old(log) <= log
      ensures var hook := log[|old(log)|];
              && hook.Dispatched? && hook.phase.BeforeLoop? && hook.given == BeforeLoopState(userMessage)
              && (agentic <==> hook.outcome.Proceeded?)
              && var message := match hook.left case BeforeLoopState(changed) => changed case _ => userMessage;
                 && log[|old(log)| + 1] == Effective(message)
                 && request == Request(None, history + [Message(User, message, None)], [], "")
    {
      var outcome, left := Dispatch(BeforeLoop, BeforeLoopState(userMessage));
      var message := if left.BeforeLoopState? then left.userMessage else userMessage;
      GenuineSnoc(world, log, Effective(message));
      log := log + [Effective(message)];
      agentic := outcome.Proceeded?;
      request := Request(None, history + [Message(User, message, None)], [], "");
    }

    /** Shapes the request in the three shaping phases. */
    method ShapeAll(request: Request) returns (r: Result<Request, string>)
      requires Valid()
      modifies this`log
      ensures Valid()
      ensures AddsOnly(old(log), log, IsAside) && TallyOf(log) == TallyOf(old(log))
      ensures r.Ok? ==> |log| == |old(log)| + 3 && ShapedBy(log, |old(log)|, request, r.value)
      ensures r.Err? ==> UnshapedBy(log, |old(log)|, request, r.error)
    {
      ghost var before := log;
      r := Shape(SelectModel, request, before);
      if r.Err? {
        return;
      }
      r := Shape(SelectContext, r.value, before);
      if r.Err? {
        return;
      }
      r := Shape(SelectTools, r.value, before);
    }

    /**
      One turn, in any world. The effective message goes out once, before any event; the cycles then run one after
      another on the shaped request; an answered turn ends with its one `Done`, a failed one has none; tools run
      gated and in order; the work is bounded by the cycle limit; a stop is final, and told exactly when it stands.
     */
    method RunTurn(session: string, userMessage: string, history: seq<Message>, limit: nat)
      returns (result: RunResult, ghost runs: seq<CycleRun>)
      requires Valid()
      requires log == []
      modifies this`log
      ensures Valid()
      ensures TurnOf(world, log, session, userMessage, history, runs, result, limit)
    {
      GenuineSnoc(world, [], Bound(session));
      log := [] + [Bound(session)];
      var agentic, request := BuildInitialRequest(userMessage, history);
      OpeningFacts(world, log, session, userMessage);
      ghost var opening := log;
      runs := [];
      if agentic {
        var shaped := ShapeAll(request);
        ShapedFacts(world, opening, log);
        if shaped.Err? {
          result := Failed(shaped.error);
          UnshapedTurn(world, opening, log, result, limit);
          return;
        }
        request := shaped.value;
      }
      ghost var start := log;
      result, runs := RunShaped(request, agentic, limit);
      ChainStarts(world, start, request, runs, limit);
      assert RunsFrom(world, log, Request(None, history + [Message(User, log[2].message, None)], [], ""), agentic, runs,
                      limit);
    }

    /** The cycles on the shaped request, and what closes the turn after them. */
    method RunShaped(request: Request, agentic: bool, limit: nat) returns (result: RunResult, ghost runs: seq<CycleRun>)
      requires Valid()
      requires TallyOf(log) == Tally(0, 0, 0, false, 0, 1) && ToolOrder(world, log) && StopFree(log)
      modifies this`log
      ensures Valid()
      ensures old(log) <= log
      ensures runs != [] && Chained(world, old(log), request, runs, limit)
      ensures EndsWithRun(log, runs[|runs| - 1], agentic, result)
      ensures TurnKept(world, log, result, limit) && StopKept(log, runs, result)
    {
      ghost var start := log;
      var end;
      end, runs := RunLoop(request, limit);
      ghost var looped := log;
      if end.Failing? {
        result := Failed(end.reason);
        FailedTurn(world, start, looped, runs, end, limit);
        return;
      }
      var text := PostPhase(Finalize, end.text);
      ghost var hook := log[|looped|];
      assert log == looped + [hook];
      var flow := Emit(Done(text, agentic));
      result := Answered(text, agentic);
      AnsweredTurn(world, start, looped, runs, hook, log[|looped| + 1], end, limit, result);
      assert log == looped + [hook] + [log[|looped| + 1]];
    }
  }
}
