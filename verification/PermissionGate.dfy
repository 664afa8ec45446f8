// The permission gate over its persistent store (pkgs/extensions/interceptor-permission/src/lib.rs).
module PermissionGate {
  import opened Decimal
  import opened PermissionRules
  import opened Text
  import opened Wrappers

  const REFUSALS_BEFORE_STANDING_DENY: nat := 3
  const U32_MAX: nat := 0xffff_ffff

  type Store = map<string, string>

  /** A block says whether it stands for the rest of the run; a question says which scope it may settle. */
  datatype Decision =
    | Proceed
    | Block(standing: bool)
    | Ask(scope: Option<string>)

  // ----- what the store holds -----

  function CounterKey(key: string): string {
    "refusals:" + key
  }

  function RecallIn(store: Store, key: string): Option<Verdict> {
    if key in store then ParseVerdict(store[key]) else None
  }

  /** `str::parse::<u32>`, with 0 for anything else. */
  function CountIn(store: Store, key: string): (n: nat)
    ensures n <= U32_MAX
  {
    if key !in store then 0
    else
      var parsed := ParseUsize(store[key]);
      if parsed.Some? && parsed.value <= U32_MAX then parsed.value else 0
  }

  function NextCount(store: Store, key: string): nat {
    var previous := CountIn(store, CounterKey(key));
    if previous == U32_MAX then U32_MAX else previous + 1
  }

  /** The scope an answer to this call may settle, if the concern is one a blanket answer may cover. */
  function ScopeOf(policy: Policy, call: Call): Option<string> {
    var concern := Review(policy, call);
    if concern.Some? && IsRememberable(concern.value) then Some(ScopeKey(call)) else None
  }

  // ----- the gate -----

  class Gate {
    const policy: Policy
    var store: Store

    constructor (policy: Policy, store: Store)
      ensures this.policy == policy && this.store == store
    {
      this.policy, this.store := policy, store;
    }

    method CountRefusal(key: string) returns (next: nat)
      modifies this
      ensures next == old(NextCount(store, key))
      ensures store == old(store)[CounterKey(key) := Digits(next)]
    {
      next := NextCount(store, key);
      store := store[CounterKey(key) := Digits(next)];
    }

    method Remember(key: string, verdict: Verdict)
      modifies this
      ensures store == old(store)[key := VerdictText(verdict)]
    {
      store := store[key := VerdictText(verdict)];
    }

    /** One interception, before an answer or with one. */
    method Intercept(call: Call, answer: Option<string>) returns (d: Decision)
      modifies this
      ensures answer.None? ==> d == FirstDecision(policy, old(store), call) && store == old(store)
      ensures answer.Some? ==> (d, store) == AnsweredDecision(policy, old(store), call, ParseAnswer(answer.value))
    {
      var concern := Review(policy, call);
      if concern.None? {
        return Proceed;
      }
      var scope: Option<string> := if IsRememberable(concern.value) then Some(ScopeKey(call)) else None;
      if answer.None? {
        if scope.Some? {
          var verdict := RecallIn(store, scope.value);
          if verdict == Some(Allow) {
            return Proceed;
          } else if verdict == Some(Deny) {
            return Block(true);
          }
        }
        return Ask(scope);
      }
      var said := ParseAnswer(answer.value);
      if scope.Some? && Standing(said).Some? {
        Remember(scope.value, Standing(said).value);
      }
      if Approves(said) {
        return Proceed;
      }
      var standing := false;
      if scope.Some? {
        var count := CountRefusal(scope.value);
        if count >= REFUSALS_BEFORE_STANDING_DENY {
          Remember(scope.value, Deny);
          standing := true;
        }
      }
      d := Block(standing);
    }

    /** A whole call: the driver is asked only if the gate asks. */
    method Settle(call: Call, answer: string) returns (result: Settled)
      modifies this
      ensures (result, store) == SettleIn(policy, old(store), call, answer)
    {
      var d := Intercept(call, None);
      if !d.Ask? {
        return Settled(false, d);
      }
      d := Intercept(call, Some(answer));
      result := Settled(true, d);
    }
  }

  // ----- the gate as a function of its store -----

  function FirstDecision(policy: Policy, store: Store, call: Call): Decision {
    if Review(policy, call).None? then Proceed
    else
      var scope := ScopeOf(policy, call);
      var verdict := if scope.Some? then RecallIn(store, scope.value) else None;
      if verdict == Some(Allow) then Proceed
      else if verdict == Some(Deny) then Block(true)
      else Ask(scope)
  }

  function Remembering(store: Store, scope: Option<string>, verdict: Option<Verdict>): Store {
    if scope.Some? && verdict.Some? then store[scope.value := VerdictText(verdict.value)] else store
  }

  function AnsweredDecision(policy: Policy, store: Store, call: Call, said: Answer): (Decision, Store) {
    if Review(policy, call).None? then (Proceed, store)
    else
      var scope := ScopeOf(policy, call);
      var told := Remembering(store, scope, Standing(said));
      if Approves(said) then (Proceed, told)
      else if scope.None? then (Block(false), told)
      else
        var key := scope.value;
        var count := NextCount(told, key);
        var counted := told[CounterKey(key) := Digits(count)];
        if count >= REFUSALS_BEFORE_STANDING_DENY then (Block(true), counted[key := VerdictText(Deny)])
        else (Block(false), counted)
  }

  /** How a call ended, and whether the user was asked. */
  datatype Settled = Settled(asked: bool, decision: Decision)

  function SettleIn(policy: Policy, store: Store, call: Call, answer: string): (Settled, Store) {
    var first := FirstDecision(policy, store, call);
    if !first.Ask? then (Settled(false, first), store)
    else
      var (d, after) := AnsweredDecision(policy, store, call, ParseAnswer(answer));
      (Settled(true, d), after)
  }

  /** A call together with what the user would answer. */
  datatype Exchange = Exchange(call: Call, answer: string)

  /** The store after a run of calls. */
  function StoreAfter(policy: Policy, store: Store, run: seq<Exchange>): Store
    decreases |run|
  {
    if run == [] then store
    else StoreAfter(policy, SettleIn(policy, store, run[0].call, run[0].answer).1, run[1..])
  }

  /** How often in a run the user refused a call with this scope. */
  function RefusalsIn(policy: Policy, store: Store, run: seq<Exchange>, key: string): nat
    decreases |run|
  {
    if run == [] then 0
    else
      var (settled, after) := SettleIn(policy, store, run[0].call, run[0].answer);
      (if ScopeOf(policy, run[0].call) == Some(key) && settled.asked && settled.decision.Block? then 1 else 0)
      + RefusalsIn(policy, after, run[1..], key)
  }

  // ----- counters and verdicts keep apart -----

  predicate IsCounterKey(key: string) {
    StartsWith(key, "refusals:")
  }

  /** No call of the run has a scope that reads as a refusal counter. */
  ghost predicate KeepsApart(policy: Policy, run: seq<Exchange>) {
    forall i :: 0 <= i < |run| ==>
      var scope := ScopeOf(policy, run[i].call);
      scope.Some? ==> !IsCounterKey(scope.value)
  }

  /** Only a tool whose name starts with `refusals`, in whatever case, can have such a scope. */
  lemma {:induction false} NameKeepsApart(call: Call)
    ensures IsCounterKey(ScopeKey(call)) ==> StartsWith(Lower(call.name), "refusals")
  {
    var key, name := ScopeKey(call), call.name;
    if IsCounterKey(key) {
      var word := "refusals:";
      assert key[..9] == word && word[..8] == "refusals";
      assert forall i :: 0 <= i < 8 ==> key[i] == word[i] && word[i] != ':' && LowerChar(word[i]) == word[i];
      if key != Lower(name) {
        assert key[|name|] == ':';
        assert forall i :: 0 <= i < |name| ==> key[i] == name[i];
      }
      assert |name| >= 8;
      assert Lower(name)[..8] == "refusals";
    }
  }

  lemma {:induction false} CounterKeyIsOne(key: string)
    ensures IsCounterKey(CounterKey(key))
  {
  }

  lemma {:induction false} DigitsAreNoVerdict(n: nat)
    ensures ParseVerdict(Digits(n)).None?
  {
    var s := Digits(n);
    TrimKeepsDigits(s);
    assert IsDigit(s[0]);
  }

  lemma {:induction false} TrimKeepsDigits(s: string)
    requires s != "" && AllDigits(s)
    ensures Trim(s) == s
  {
    assert IsDigit(s[0]) && IsDigit(s[|s| - 1]);
  }

  predicate Untouched(store: Store, after: Store, key: string) {
    (key in after <==> key in store) && (key in store ==> after[key] == store[key])
  }

  lemma {:induction false} AnswerWrites(policy: Policy, store: Store, call: Call, said: Answer, key: string)
    requires ScopeOf(policy, call) != Some(key)
    requires ScopeOf(policy, call).Some? ==> CounterKey(ScopeOf(policy, call).value) != key
    ensures Untouched(store, AnsweredDecision(policy, store, call, said).1, key)
  {
    var told := Remembering(store, ScopeOf(policy, call), Standing(said));
    assert Untouched(store, told, key);
  }

  /** What a settled call writes: nothing under any other scope's verdict or counter. */
  lemma {:induction false} SettleWrites(policy: Policy, store: Store, call: Call, answer: string, key: string)
    requires ScopeOf(policy, call) != Some(key)
    requires ScopeOf(policy, call).Some? ==> CounterKey(ScopeOf(policy, call).value) != key
    ensures Untouched(store, SettleIn(policy, store, call, answer).1, key)
  {
    AnswerWrites(policy, store, call, ParseAnswer(answer), key);
  }

  /**
    A standing verdict survives a settled call, whatever the call and the answer, unless the call's counter
    lies under its key.
   */
  lemma {:induction false} VerdictSurvives(policy: Policy, store: Store, call: Call, answer: string, key: string)
    requires RecallIn(store, key).Some?
    requires ScopeOf(policy, call).Some? ==> CounterKey(ScopeOf(policy, call).value) != key
    ensures RecallIn(SettleIn(policy, store, call, answer).1, key) == RecallIn(store, key)
  {
    if ScopeOf(policy, call) != Some(key) {
      SettleWrites(policy, store, call, answer, key);
    }
  }

  /**
    The exact condition: a verdict is never lost just when no call that would be asked about counts refusals
    under its key.
   */
  lemma {:induction false} VerdictIsSafeExactlyWhenApart(policy: Policy, store: Store, key: string)
    requires RecallIn(store, key).Some?
    ensures (forall call, answer :: RecallIn(SettleIn(policy, store, call, answer).1, key) == RecallIn(store, key))
            <==> forall call :: var scope := ScopeOf(policy, call);
                   scope.Some? && RecallIn(store, scope.value).None? ==> CounterKey(scope.value) != key
  {
    if call :| var scope := ScopeOf(policy, call);
               scope.Some? && RecallIn(store, scope.value).None? && CounterKey(scope.value) == key {
      RefusalOverwrites(policy, store, call, key);
      assert RecallIn(SettleIn(policy, store, call, "no").1, key) != RecallIn(store, key);
    } else {
      forall call: Call, answer: string
        ensures RecallIn(SettleIn(policy, store, call, answer).1, key) == RecallIn(store, key)
      {
        var scope := ScopeOf(policy, call);
        if !(scope.Some? && RecallIn(store, scope.value).Some?) {
          VerdictSurvives(policy, store, call, answer, key);
        }
      }
    }
  }

  lemma {:induction false} RefusalOverwrites(policy: Policy, store: Store, call: Call, key: string)
    requires ScopeOf(policy, call).Some? && RecallIn(store, ScopeOf(policy, call).value).None?
    requires CounterKey(ScopeOf(policy, call).value) == key
    ensures RecallIn(SettleIn(policy, store, call, "no").1, key).None?
  {
    var scope := ScopeOf(policy, call).value;
    assert Lower(Trim("no")) == "no";
    assert ParseAnswer("no") == No;
    assert |key| == 9 + |scope|;
    DigitsAreNoVerdict(NextCount(store, scope));
  }

  // ----- whole runs -----

  /** Once recorded, a standing verdict never changes for the rest of the run. */
  lemma {:induction false} VerdictStands(policy: Policy, store: Store, run: seq<Exchange>, key: string)
    requires !IsCounterKey(key) && RecallIn(store, key).Some?
    ensures RecallIn(StoreAfter(policy, store, run), key) == RecallIn(store, key)
    decreases |run|
  {
    if run != [] {
      var scope := ScopeOf(policy, run[0].call);
      if scope.Some? {
        CounterKeyIsOne(scope.value);
      }
      VerdictSurvives(policy, store, run[0].call, run[0].answer, key);
      VerdictStands(policy, SettleIn(policy, store, run[0].call, run[0].answer).1, run[1..], key);
    }
  }

  /** With a verdict standing nobody is asked about that scope again. */
  lemma {:induction false} StandingIsNotAsked(policy: Policy, store: Store, run: seq<Exchange>, key: string)
    requires !IsCounterKey(key) && RecallIn(store, key).Some?
    ensures RefusalsIn(policy, store, run, key) == 0
    decreases |run|
  {
    if run != [] {
      var after := SettleIn(policy, store, run[0].call, run[0].answer).1;
      VerdictStands(policy, store, run[..1], key);
      assert run[..1][1..] == [];
      assert StoreAfter(policy, store, run[..1]) == StoreAfter(policy, after, []);
      StandingIsNotAsked(policy, after, run[1..], key);
    }
  }

  lemma {:induction false} CountAfterRefusal(policy: Policy, store: Store, call: Call, answer: string, key: string)
    requires ScopeOf(policy, call) == Some(key) && !IsCounterKey(key)
    requires RecallIn(store, key).None? && !Approves(ParseAnswer(answer))
    ensures var after := SettleIn(policy, store, call, answer).1;
            && (RecallIn(after, key) == Some(Deny) || RecallIn(after, key).None?)
            && (RecallIn(after, key).None? ==>
                  && CountIn(after, CounterKey(key)) == CountIn(store, CounterKey(key)) + 1
                  && CountIn(store, CounterKey(key)) + 1 < REFUSALS_BEFORE_STANDING_DENY)
  {
    CounterKeyIsOne(key);
    ParseInvertsVerdictText(Deny);
    ParseInvertsDigits(NextCount(store, key));
    assert CounterKey(key) != key;
    assert key in store <==> key in store[CounterKey(key) := ""];
  }

  lemma {:induction false} ApprovalCountsNothing(policy: Policy, store: Store, call: Call, answer: string, key: string)
    requires !IsCounterKey(key)
    requires ScopeOf(policy, call) == Some(key) ==> Approves(ParseAnswer(answer))
    requires ScopeOf(policy, call).Some? ==> !IsCounterKey(ScopeOf(policy, call).value)
    ensures var after := SettleIn(policy, store, call, answer).1;
            CountIn(after, CounterKey(key)) == CountIn(store, CounterKey(key))
  {
    CounterKeyIsOne(key);
    var scope := ScopeOf(policy, call);
    if scope.Some? && scope.value != key {
      assert CounterKey(scope.value)[9..] == scope.value && CounterKey(key)[9..] == key;
      SettleWrites(policy, store, call, answer, CounterKey(key));
    } else if scope.None? {
      SettleWrites(policy, store, call, answer, CounterKey(key));
    }
  }

  /** Over any run, whatever was stored before it, a scope is refused three times at most; then it is denied unasked. */
  lemma {:induction false} AtMostThreeRefusals(policy: Policy, store: Store, run: seq<Exchange>, key: string)
    requires !IsCounterKey(key) && KeepsApart(policy, run)
    ensures RefusalsIn(policy, store, run, key) <= REFUSALS_BEFORE_STANDING_DENY
    ensures RecallIn(store, key).None? ==>
              var reached := RefusalsIn(policy, store, run, key) + CountIn(store, CounterKey(key));
              && (reached <= REFUSALS_BEFORE_STANDING_DENY || RefusalsIn(policy, store, run, key) <= 1)
              && (reached >= REFUSALS_BEFORE_STANDING_DENY && RefusalsIn(policy, store, run, key) >= 1 ==>
                    RecallIn(StoreAfter(policy, store, run), key) == Some(Deny))
    ensures RecallIn(store, key).Some? ==> RefusalsIn(policy, store, run, key) == 0
    decreases |run|
  {
    if RecallIn(store, key).Some? {
      StandingIsNotAsked(policy, store, run, key);
    } else if run != [] {
      var call, answer := run[0].call, run[0].answer;
      var after := SettleIn(policy, store, call, answer).1;
      assert KeepsApart(policy, run[1..]) by {
        assert forall i :: 0 <= i < |run[1..]| ==> run[1..][i] == run[i + 1];
      }
      AtMostThreeRefusals(policy, after, run[1..], key);
      if ScopeOf(policy, call) == Some(key) && !Approves(ParseAnswer(answer)) {
        CountAfterRefusal(policy, store, call, answer, key);
        if RecallIn(after, key).Some? {
          StandingIsNotAsked(policy, after, run[1..], key);
          VerdictStands(policy, after, run[1..], key);
        }
      } else {
        ApprovalCountsNothing(policy, store, call, answer, key);
        if RecallIn(after, key).Some? {
          StandingIsNotAsked(policy, after, run[1..], key);
        }
      }
    }
  }

  /** After three refusals a later rememberable call of that scope is blocked, and nobody is asked. */
  lemma {:induction false} BlockedAfterThreeRefusals(policy: Policy, store: Store, run: seq<Exchange>, key: string,
                                                     next: Exchange)
    requires !IsCounterKey(key) && KeepsApart(policy, run)
    requires RefusalsIn(policy, store, run, key) == REFUSALS_BEFORE_STANDING_DENY
    requires ScopeOf(policy, next.call) == Some(key)
    ensures SettleIn(policy, StoreAfter(policy, store, run), next.call, next.answer).0 == Settled(false, Block(true))
  {
    AtMostThreeRefusals(policy, store, run, key);
  }

  /**
    Whatever is stored, a call that escapes the workspace or names a credential file runs only on an approving
    answer.
   */
  lemma {:induction false} StoredVerdictsNeverCoverEscapes(policy: Policy, store: Store, call: Call, answer: string)
    requires ArgsEscapeScope(policy, call.arguments) || NamesCredentialFile(call.arguments)
    ensures var settled := SettleIn(policy, store, call, answer).0;
            && settled.asked
            && (settled.decision.Proceed? <==> Approves(ParseAnswer(answer)))
            && SettleIn(policy, store, call, answer).1 == store
  {
  }

  /** A reviewed call runs unasked only under a standing approval of its scope. */
  lemma {:induction false} RunsOnlyWhenAllowed(policy: Policy, store: Store, call: Call, answer: string)
    requires Review(policy, call).Some?
    ensures var settled := SettleIn(policy, store, call, answer).0;
            settled.decision.Proceed? <==>
              if settled.asked then Approves(ParseAnswer(answer))
              else ScopeOf(policy, call).Some? && RecallIn(store, ScopeOf(policy, call).value) == Some(Allow)
  {
  }

  // ----- a name that collides -----

  /** A tool named like a counter in capitals has its approval overwritten by another tool's refusal. */
  lemma {:induction false} CapitalisedNameCollides()
    ensures var loud, quiet := Call("Refusals:shell", None), Call("shell", None);
            var stored := SettleIn(DEFAULT_POLICY, map[], loud, "always").1;
            && RecallIn(stored, ScopeKey(loud)) == Some(Allow)
            && RecallIn(SettleIn(DEFAULT_POLICY, stored, quiet, "no").1, ScopeKey(loud)).None?
  {
    var loud, quiet := Call("Refusals:shell", None), Call("shell", None);
    ScopesOfCapitals(loud, quiet);
    ApprovalIsStored(loud);
    ParseInvertsVerdictText(Allow);
    RefusalOverwrites(DEFAULT_POLICY, map["refusals:shell" := "allow"], quiet, "refusals:shell");
  }

  lemma {:induction false} ScopesOfCapitals(loud: Call, quiet: Call)
    requires loud == Call("Refusals:shell", None) && quiet == Call("shell", None)
    ensures ScopeOf(DEFAULT_POLICY, loud) == Some("refusals:shell") && ScopeKey(loud) == "refusals:shell"
    ensures ScopeOf(DEFAULT_POLICY, quiet) == Some("shell") && CounterKey("shell") == "refusals:shell"
  {
    assert Lower("Refusals:shell") == "refusals:shell";
    assert Lower("shell") == "shell";
  }

  lemma {:induction false} ApprovalIsStored(call: Call)
    requires ScopeOf(DEFAULT_POLICY, call) == Some("refusals:shell")
    ensures SettleIn(DEFAULT_POLICY, map[], call, "always").1 == map["refusals:shell" := "allow"]
  {
    assert Lower(Trim("always")) == "always";
    assert ParseAnswer("always") == Always;
    assert map[]["refusals:shell" := "allow"] == map["refusals:shell" := "allow"];
  }
}
