// What a turn asks, runs and ends with, read off its log alone (pkgs/host/agent/src/conductor.rs).
module Histories {
  import opened Cycles
  import opened Decimal
  import opened Sequences
  import opened Text
  import opened Turns
  import opened Wrappers

  // ----- what the calls of a round ask -----

  /** `later` is `request` with more messages after its own. */
  ghost predicate Extends(request: Request, later: Request) {
    later.(messages := request.messages) == request && request.messages <= later.messages
  }

  ghost predicate CallsExtend(before: Log, after: Log, request: Request) {
    && before <= after
    && forall i :: |before| <= i < |after| && after[i].Called? ==> Extends(request, after[i].request)
  }

  lemma {:induction false} ExtendsTwice(a: Request, b: Request, c: Request)
    requires Extends(a, b) && Extends(b, c)
    ensures Extends(a, c)
  {
  }

  /** The calls of a later stretch, made for a request that extends the first one, join those of the stretch before. */
  lemma {:induction false} CallsGoOn(a: Log, b: Log, c: Log, request: Request, later: Request)
    requires CallsExtend(a, b, request) && CallsExtend(b, c, later) && Extends(request, later)
    ensures CallsExtend(a, c, request)
  {
    forall i | |a| <= i < |c| && c[i].Called? ensures Extends(request, c[i].request) {
      if i < |b| {
        assert c[i] == b[i];
      } else {
        ExtendsTwice(request, later, c[i].request);
      }
    }
  }

  lemma {:induction false} ChainCalls(world: World, before: Log, after: Log, k: nat, request: Request, i: nat)
    requires FirstFailed(world, before, after, k, request)
    requires |before| <= i < |before| + 2 * k && i < |after| && after[i].Called?
    ensures after[i].request == request
  {
    var j := (i - |before|) / 2;
    assert FailedAt(world, after, |before| + 2 * j, j, request);
  }

  lemma {:induction false} AllFailedCalls(world: World, before: Log, after: Log, request: Request)
    requires AllFailed(world, before, after, request)
    ensures CallsExtend(before, after, request)
  {
    forall i | |before| <= i < |after| && after[i].Called? ensures Extends(request, after[i].request) {
      ChainCalls(world, before, after, |world.providers|, request, i);
    }
  }

  lemma {:induction false} ActedOnCalls(world: World, before: Log, after: Log, request: Request, c: Completion)
    requires ActedOn(world, before, after, request, c)
    ensures CallsExtend(before, after, request)
  {
    var to: Log :|
      && FirstSuccess(world, before, to, request, c)
      && if c.finishReason in ["length", "max_tokens"] then Warned(to, after) else to == after;
    var k: nat :|
      && k < |world.providers|
      && |to| == |before| + 2 * k + 1
      && FirstFailed(world, before, to, k, request)
      && to[|before| + 2 * k] == Called(k, request, Ok(c));
    forall i | |before| <= i < |after| && after[i].Called? ensures Extends(request, after[i].request) {
      if i < |before| + 2 * k {
        ChainCalls(world, before, to, k, request, i);
      }
    }
  }

  lemma {:induction false} RejectedCalls(world: World, before: Log, to: Log, after: Log, request: Request,
                                         c: Completion)
    requires Rejected(world, before, to, request, c) && Warned(to, after)
    ensures CallsExtend(before, after, request)
  {
    ActedOnCalls(world, before, to, request, c);
    forall i | |before| <= i < |after| && after[i].Called? ensures Extends(request, after[i].request) {
      assert i < |to| && after[i] == to[i];
    }
  }

  lemma {:induction false} RetryAsks(world: World, before: Log, request: Request, retries: seq<Retry>, i: nat)
    requires Retried(world, before, request, retries) && i < |retries|
    ensures retries[i].request == AskedBy(world, request, retries, i)
    ensures CallsExtend(StartOf(before, retries, i), retries[i].after, retries[i].request)
  {
    assert RetriedAt(world, before, request, retries, i);
    var from, last := StartOf(before, retries, i), retries[i];
    var to: Log :| Rejected(world, from, to, last.request, last.completion) && Warned(to, last.after);
    RejectedCalls(world, from, to, last.after, last.request, last.completion);
  }

  /** What the attempts so far have called, and what the next one asks. */
  lemma {:induction false} RetriesCall(world: World, before: Log, request: Request, retries: seq<Retry>, i: nat)
    requires Retried(world, before, request, retries) && i <= |retries|
    ensures CallsExtend(before, StartOf(before, retries, i), request)
    ensures Extends(request, AskedBy(world, request, retries, i))
  {
    if i > 0 {
      var last, from := retries[i - 1], StartOf(before, retries, i - 1);
      RetriesCall(world, before, request, retries, i - 1);
      RetryAsks(world, before, request, retries, i - 1);
      CallsGoOn(before, from, last.after, request, last.request);
      ExtendsTwice(request, last.request, AskedBy(world, request, retries, i));
    }
  }

  /** Every provider call of a cycle asks what the cycle asks, with corrections after it at most. */
  lemma {:induction false} CycleCalls(world: World, run: CycleRun, iterations: nat, limit: nat)
    requires Accounted(world, run, iterations, limit)
    ensures CallsExtend(run.before, run.after, run.request)
  {
    var before, called, request := run.before, run.called, run.request;
    if run.end.Failing? {
      var retries: seq<Retry> :|
        && Retried(world, before, request, retries)
        && LastAttemptFailed(world, StartOf(before, retries, |retries|), called,
                             AskedBy(world, request, retries, |retries|), |retries|, run.end.reason)
        && Corrected(request, AskedBy(world, request, retries, |retries|));
      LastCalls(world, before, called, request, retries, run.end.reason);
    } else {
      var retries: seq<Retry> :|
        && Retried(world, before, request, retries)
        && ActedOn(world, StartOf(before, retries, |retries|), called, AskedBy(world, request, retries, |retries|),
                   run.completion)
        && Corrected(request, AskedBy(world, request, retries, |retries|));
      var from, asked := StartOf(before, retries, |retries|), AskedBy(world, request, retries, |retries|);
      RetriesCall(world, before, request, retries, |retries|);
      ActedOnCalls(world, from, called, asked, run.completion);
      CallsGoOn(before, from, called, request, asked);
    }
    NoMoreCalls(before, called, run.after, request);
  }

  lemma {:induction false} LastCalls(world: World, before: Log, called: Log, request: Request, retries: seq<Retry>,
                                     reason: string)
    requires Retried(world, before, request, retries)
    requires LastAttemptFailed(world, StartOf(before, retries, |retries|), called,
                               AskedBy(world, request, retries, |retries|), |retries|, reason)
    ensures CallsExtend(before, called, request)
  {
    var from, asked := StartOf(before, retries, |retries|), AskedBy(world, request, retries, |retries|);
    RetriesCall(world, before, request, retries, |retries|);
    if AllFailed(world, from, called, asked) {
      AllFailedCalls(world, from, called, asked);
    } else {
      var c: Completion :|
        Rejected(world, from, called, asked, c) && reason == RetriesReason(BadCall(world, c.toolCalls).value.name);
      ActedOnCalls(world, from, called, asked, c);
    }
    CallsGoOn(before, from, called, request, asked);
  }

  lemma {:induction false} NoMoreCalls(before: Log, called: Log, after: Log, request: Request)
    requires CallsExtend(before, called, request) && AddsOnly(called, after, IsNoCall)
    ensures CallsExtend(before, after, request)
  {
    forall i | |before| <= i < |after| && after[i].Called? ensures Extends(request, after[i].request) {
      if i < |called| {
        assert after[i] == called[i];
      }
    }
  }

  // ----- the history is sent -----

  /** The hooks that are given a request leave it as it is. */
  ghost predicate LeavesRequests(world: World) {
    forall log: Log, phase: Phase, state: HookState ::
      state.SelectModelState? || state.SelectContextState? || state.SelectToolsState? || state.PrepareNextTurnState?
      ==> world.dispatch(log, phase, state).1 == state
  }

  lemma {:induction false} HookLeaves(world: World, log: Log, i: nat)
    requires Genuine(world, log) && LeavesRequests(world) && i < |log| && log[i].Dispatched?
    requires var given := log[i].given;
             given.SelectModelState? || given.SelectContextState? || given.SelectToolsState?
             || given.PrepareNextTurnState?
    ensures log[i].left == log[i].given
  {
    GenuineAt(world, log, i);
  }

  /** A cycle that another one follows leaves what it asked, its reply and what came of it for the next. */
  lemma {:induction false} NextExtends(world: World, log: Log, run: CycleRun, iterations: nat, limit: nat)
    requires Genuine(world, log) && LeavesRequests(world) && run.after <= log
    requires Accounted(world, run, iterations, limit) && run.end.Repeating?
    ensures Extends(run.request, run.next)
  {
    var text := ReplyText(run.called, run.after);
    var at, told := ToldAt(run.called, text), Push(run.request, Message(Assistant, text, None));
    var since := run.after[|run.called|..];
    GoOnHasNoStop(since);
    assert run.after[at - 1] == since[at - 1 - |run.called|];
    if run.completion.toolCalls == [] {
      HookLeaves(world, log, at + 1);
    }
    ExtendsTwice(run.request, told, run.next);
  }

  /** A cycle's calls ask what it was given to ask, and what it leaves to ask next goes on from that. */
  ghost predicate KeepsAsking(run: CycleRun) {
    && CallsExtend(run.before, run.after, run.request)
    && (run.end.Repeating? ==> Extends(run.request, run.next))
  }

  lemma {:induction false} CycleKeepsAsking(world: World, log: Log, run: CycleRun, iterations: nat, limit: nat)
    requires Genuine(world, log) && LeavesRequests(world) && run.after <= log
    requires Accounted(world, run, iterations, limit)
    ensures KeepsAsking(run)
  {
    CycleCalls(world, run, iterations, limit);
    if run.end.Repeating? {
      NextExtends(world, log, run, iterations, limit);
    }
  }

  lemma {:induction false} LinkKeepsAsking(world: World, log: Log, start: Log, request: Request,
                                           runs: seq<CycleRun>, limit: nat, i: nat)
    requires Genuine(world, log) && LeavesRequests(world)
    requires Chained(world, start, request, runs, limit) && i < |runs| && runs[i].after <= log
    ensures KeepsAsking(runs[i])
    ensures runs[i].before == (if i == 0 then start else runs[i - 1].after)
    ensures runs[i].request == (if i == 0 then request else runs[i - 1].next)
    ensures i > 0 ==> runs[i - 1].end.Repeating?
  {
    assert Linked(world, start, request, runs, i, limit);
    CycleKeepsAsking(world, log, runs[i], i, limit);
  }

  lemma {:induction false} RunsAsk(world: World, log: Log, start: Log, request: Request, runs: seq<CycleRun>,
                                   limit: nat, i: nat)
    requires Genuine(world, log) && LeavesRequests(world)
    requires Chained(world, start, request, runs, limit) && i < |runs| && runs[|runs| - 1].after <= log
    ensures CallsExtend(start, runs[i].after, request) && Extends(request, runs[i].request)
  {
    ChainWithin(world, start, request, runs, limit, i);
    LinkKeepsAsking(world, log, start, request, runs, limit, i);
    if i > 0 {
      RunsAsk(world, log, start, request, runs, limit, i - 1);
      ChainWithin(world, start, request, runs, limit, i - 1);
      LinkKeepsAsking(world, log, start, request, runs, limit, i - 1);
      ExtendsTwice(request, runs[i - 1].request, runs[i].request);
      CallsGoOn(start, runs[i].before, runs[i].after, request, runs[i].request);
    }
  }

  lemma {:induction false} ShapingLeaves(world: World, log: Log, request: Request, shaped: Request)
    requires Genuine(world, log) && LeavesRequests(world) && ShapedBy(log, 3, request, shaped)
    ensures shaped == request
  {
    HookLeaves(world, log, 3);
    HookLeaves(world, log, 4);
    HookLeaves(world, log, 5);
  }

  lemma {:induction false} CallsInCycles(world: World, log: Log, session: string, userMessage: string,
                                         history: seq<Message>, runs: seq<CycleRun>, result: RunResult, limit: nat,
                                         i: nat)
    requires TurnOf(world, log, session, userMessage, history, runs, result, limit)
    requires i < |log| && log[i].Called?
    ensures runs != [] && |runs[0].before| <= i < |runs[|runs| - 1].after|
  {
  }

  /**
    Where no hook changes a request, every provider call of a turn carries the whole history and the message of the
    turn after it, for no model and with no tools of its own.
   */
  lemma {:induction false} HistoryIsSent(world: World, log: Log, session: string, userMessage: string,
                                         history: seq<Message>, runs: seq<CycleRun>, result: RunResult, limit: nat,
                                         i: nat)
    requires TurnOf(world, log, session, userMessage, history, runs, result, limit) && LeavesRequests(world)
    requires i < |log| && log[i].Called?
    ensures var message := match log[1].left case BeforeLoopState(changed) => changed case _ => userMessage;
            history + [Message(User, message, None)] <= log[i].request.messages
    ensures log[i].request.model == None && log[i].request.tools == [] && log[i].request.options == ""
  {
    var first := Request(None, history + [Message(User, log[2].message, None)], [], "");
    var start, last := if runs == [] then [] else runs[0].before, if runs == [] then [] else runs[|runs| - 1].after;
    CallsInCycles(world, log, session, userMessage, history, runs, result, limit, i);
    if log[1].outcome.Proceeded? {
      ShapingLeaves(world, log, first, runs[0].request);
    }
    RunsAsk(world, log, start, first, runs, limit, |runs| - 1);
  }

  // ----- how a cycle ends -----

  /** A stretch of acts goes on exactly if none of them is a stop or a blocked result hook. */
  lemma {:induction false} GoOnExactlyWithoutSignals(acts: Log)
    ensures PassVerdict(acts) == GoOn <==> forall i :: 0 <= i < |acts| ==> !IsStop(acts[i]) && !IsTermination(acts[i])
  {
    if acts != [] {
      var before, last := acts[..|acts| - 1], acts[|acts| - 1];
      GoOnExactlyWithoutSignals(before);
      if !IsStop(last) && !IsTermination(last) {
        assert forall i :: 0 <= i < |before| ==> before[i] == acts[i];
      }
    }
  }

  ghost predicate HasTermination(acts: Log) {
    exists i :: 0 <= i < |acts| && IsTermination(acts[i])
  }

  lemma {:induction false} TerminatedExactlyWithoutStop(acts: Log)
    ensures PassVerdict(acts) == Terminated <==> !StandingStop(acts) && HasTermination(acts)
  {
    GoOnExactlyWithoutSignals(acts);
    CancelledExactlyWhenStopStands(acts);
    if i: nat :| i < |acts| && IsStop(acts[i]) && !HasTermination(acts) {
      assert StandsAt(acts, i);
    }
  }

  lemma {:induction false} NotedReads(text: string, note: string)
    ensures Noted(text, note) == (if Trim(text) == "" then "" else text + "\n\n") + "[" + note + "]"
  {
  }

  lemma {:induction false} EndReads(verdict: ToolPass, more: bool, text: string, iterations: nat, limit: nat)
    ensures var front := if Trim(text) == "" then "" else text + "\n\n";
            EndOf(verdict, more, text, iterations, limit) ==
            if verdict == Cancelled then Finishing(front + "[" + CANCEL_NOTE + "]")
            else if verdict == Terminated || !more then Finishing(text)
            else if iterations + 1 < limit then Repeating
            else Finishing(front + "[" + CutNote(limit) + "]")
  {
    NotedReads(text, CANCEL_NOTE);
    NotedReads(text, CutNote(limit));
  }

  /**
    A cycle with a reply ends as its acts since the completion say: a stop that stands and a used-up limit are
    told after the text, a blocked result hook and a reply with nothing to follow end with the bare text, and
    everything else goes on.
   */
  lemma {:induction false} CycleEndsAsTold(run: CycleRun, iterations: nat, limit: nat)
    requires AnsweredInCycle(run, iterations, limit)
    ensures run.called < run.after && run.after[|run.called|].Dispatched?
    ensures var since := run.after[|run.called|..];
            var text := match since[0].left case AfterResponseState(t) => t case FinalizeState(t) => t case _ => "";
            var front, at := if Trim(text) == "" then "" else text + "\n\n", if text == "" then 1 else 2;
            run.end ==
            if StandingStop(since) then
              Finishing(front + "[" + ("stopped before "
                        + "the turn finished \U{2014} the client disconnected or cancelled") + "]")
            else if HasTermination(since) then Finishing(text)
            else if run.completion.toolCalls == []
                    && !(at < |since| && since[at].AskedFollowUp? && since[at].followUp.Some?) then Finishing(text)
            else if iterations + 1 < limit then Repeating
            else
              Finishing(front + "[" + ("stopped after " + Digits(limit)
                        + " tool cycles \U{2014} the task was not finished. "
                        + "Raise `limits.max-iterations` if it needs more room.") + "]")
  {
    var since := run.after[|run.called|..];
    var text, at := ReplyText(run.called, run.after), ToldAt(run.called, ReplyText(run.called, run.after));
    TerminatedExactlyWithoutStop(since);
    CancelledExactlyWhenStopStands(since);
    assert HasFollowUp(run.after, at) <==>
           at - |run.called| < |since| && since[at - |run.called|].AskedFollowUp?
           && since[at - |run.called|].followUp.Some?;
    EndReads(PassVerdict(since), run.completion.toolCalls != [] || HasFollowUp(run.after, at), text, iterations, limit);
  }

  /** A round that gave up says that no provider is there, that all failed, or whose arguments stayed wrong. */
  lemma {:induction false} GaveUpSays(world: World, before: Log, after: Log, request: Request, reason: string)
    requires GaveUp(world, before, after, request, reason)
    ensures world.providers == [] ==> reason == "no providers configured"
    ensures world.providers != [] ==>
              reason == "all providers failed"
              || exists tool: ToolCall ::
                   !world.validJson(tool.arguments)
                   && reason == "malformed output after 3 retries: tool `" + tool.name + "`"
  {
    var retries: seq<Retry> :|
      && Retried(world, before, request, retries)
      && LastAttemptFailed(world, StartOf(before, retries, |retries|), after,
                           AskedBy(world, request, retries, |retries|), |retries|, reason)
      && Corrected(request, AskedBy(world, request, retries, |retries|));
    var from, asked := StartOf(before, retries, |retries|), AskedBy(world, request, retries, |retries|);
    if !AllFailed(world, from, after, asked) || reason != NoProviderReason(world) {
      var c: Completion :|
        Rejected(world, from, after, asked, c) && reason == RetriesReason(BadCall(world, c.toolCalls).value.name);
      RejectedSays(world, from, after, asked, c);
    }
  }

  lemma {:induction false} RejectedSays(world: World, before: Log, after: Log, request: Request, c: Completion)
    requires Rejected(world, before, after, request, c)
    ensures world.providers != []
    ensures exists tool: ToolCall ::
              && !world.validJson(tool.arguments)
              && RetriesReason(BadCall(world, c.toolCalls).value.name)
                 == "malformed output after 3 retries: tool `" + tool.name + "`"
  {
    var bad := BadCall(world, c.toolCalls);
    assert !AllJson(world, c.toolCalls) && bad.Some?;
    var i: nat :| FirstBadAt(world, c.toolCalls, i) && bad.value == c.toolCalls[i];
    assert !world.validJson(bad.value.arguments);
  }

  // ----- what a call comes to -----

  /**
    What the result hook of a call is given, under the model's own id: the denial, the tool's own word, or that there
    is no such tool; a denied call invokes nothing, and another runs as the gate left it.
   */
  lemma {:induction false} CallComesTo(call: ToolCall, s: Log, outcome: ToolOutcome)
    requires IsCallSegment(call, s, outcome)
    ensures s[0].Dispatched? && s[|s| - 2].Dispatched? && s[|s| - 1].Emitted? && s[|s| - 1].event == ToolResult(outcome)
    ensures var given := s[|s| - 2].given;
            match s[0].outcome
            case Blocked(message) =>
              && (forall i :: 0 <= i < |s| ==> !s[i].Invoked?)
              && given == ToolResultState(ToolOutcome(call.id, "tool call denied: " + message, true))
            case Proceeded =>
              && s[2].Invoked? && s[2].call == (match s[0].left case ToolCallState(changed) => changed case _ => call)
              && given == match s[2].invocation
                          case Some(said) => ToolResultState(ToolOutcome(call.id, said.content, said.failed))
                          case None =>
                            ToolResultState(ToolOutcome(call.id, "no tool named `" + s[2].call.name + "`", true))
    ensures outcome == match s[|s| - 2].left case ToolResultState(o) => o case _ => ToolOutcome(call.id, "", true)
  {
  }

  // ----- what is counted -----

  ghost function Occurrences(log: Log, p: Act -> bool): nat {
    |set i: nat | i < |log| && p(log[i])|
  }

  lemma {:induction false} OccurrencesSnoc(log: Log, a: Act, p: Act -> bool)
    ensures Occurrences(log + [a], p) == Occurrences(log, p) + if p(a) then 1 else 0
  {
    var before := set i: nat | i < |log| && p(log[i]);
    var after := set i: nat | i < |log + [a]| && p((log + [a])[i]);
    assert after == before + if p(a) then {|log|} else {};
  }

  lemma {:induction false} TallyCounts(log: Log)
    ensures TallyOf(log).calls == Occurrences(log, (a: Act) => a.Called?)
    ensures TallyOf(log).replies == Occurrences(log, (a: Act) => a.Dispatched? && a.phase.AfterResponse?)
    ensures TallyOf(log).dones == Occurrences(log, (a: Act) => a.Emitted? && a.event.Done?)
    ensures TallyOf(log).effectives == Occurrences(log, (a: Act) => a.Effective?)
  {
    if log != [] {
      var before, last := log[..|log| - 1], log[|log| - 1];
      assert before + [last] == log;
      TallyCounts(before);
      OccurrencesSnoc(before, last, (a: Act) => a.Called?);
      OccurrencesSnoc(before, last, (a: Act) => a.Dispatched? && a.phase.AfterResponse?);
      OccurrencesSnoc(before, last, (a: Act) => a.Emitted? && a.event.Done?);
      OccurrencesSnoc(before, last, (a: Act) => a.Effective?);
    }
  }

  /** The tool dispatch at `j` has no reply after it. */
  ghost predicate OpenAt(log: Log, j: nat) {
    j < |log| && IsToolDispatch(log[j]) && forall k :: j < k < |log| ==> !IsReply(log[k])
  }

  /** A pass begins at `i`: the first tool dispatch since the last reply. */
  ghost predicate PassBeginsAt(log: Log, i: nat) {
    i < |log| && IsToolDispatch(log[i]) && !exists j: nat :: OpenAt(log[..i], j)
  }

  ghost function Passes(log: Log): nat {
    |set i: nat | i < |log| && PassBeginsAt(log, i)|
  }

  lemma {:induction false} PassesSnoc(log: Log, a: Act)
    ensures var begun := exists j: nat :: OpenAt(log, j);
            Passes(log + [a]) == Passes(log) + if IsToolDispatch(a) && !begun then 1 else 0
  {
    var more := log + [a];
    assert more[..|log|] == log;
    forall i: nat | i < |log| ensures PassBeginsAt(more, i) <==> PassBeginsAt(log, i) {
      assert more[..i] == log[..i];
    }
    assert (set i: nat | i < |more| && PassBeginsAt(more, i))
        == (set i: nat | i < |log| && PassBeginsAt(log, i)) + if PassBeginsAt(more, |log|) then {|log|} else {};
  }

  lemma {:induction false} OpenSnoc(log: Log, a: Act)
    ensures (exists j: nat :: OpenAt(log + [a], j))
            <==> IsToolDispatch(a) || (!IsReply(a) && exists j: nat :: OpenAt(log, j))
  {
    var more := log + [a];
    if IsToolDispatch(a) {
      assert OpenAt(more, |log|);
    } else if !IsReply(a) {
      if j: nat :| OpenAt(log, j) {
        assert OpenAt(more, j);
      }
    }
    if j: nat :| OpenAt(more, j) && !IsToolDispatch(a) {
      assert more[|log|] == a && j < |log|;
      assert forall k :: j < k < |log| ==> more[k] == log[k];
      assert OpenAt(log, j);
    }
  }

  lemma {:induction false} TallyCountsPasses(log: Log)
    ensures TallyOf(log).passes == Passes(log)
    ensures TallyOf(log).inPass <==> exists j: nat :: OpenAt(log, j)
  {
    if log != [] {
      var before, last := log[..|log| - 1], log[|log| - 1];
      assert before + [last] == log;
      TallyCountsPasses(before);
      PassesSnoc(before, last);
      OpenSnoc(before, last);
    }
  }

  /** The work of a turn, counted on its log: the limit, or one cycle if it is zero, bounds all of it. */
  lemma {:induction false} TurnWork(world: World, log: Log, session: string, userMessage: string,
                                    history: seq<Message>, runs: seq<CycleRun>, result: RunResult, limit: nat)
    requires TurnOf(world, log, session, userMessage, history, runs, result, limit)
    ensures Occurrences(log, (a: Act) => a.Effective?) == 1
    ensures Occurrences(log, (a: Act) => a.Emitted? && a.event.Done?) == if result.Answered? then 1 else 0
    ensures var most := if limit == 0 then 1 else limit;
            && Occurrences(log, (a: Act) => a.Dispatched? && a.phase.AfterResponse?) <= most
            && Occurrences(log, (a: Act) => a.Called?) <= most * (4 * |world.providers|)
            && Passes(log) < most
  {
    TallyCounts(log);
    TallyCountsPasses(log);
  }
}
