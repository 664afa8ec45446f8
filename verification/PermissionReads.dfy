// What the permission rules mean for the words of a call and of an answer
// (pkgs/extensions/interceptor-permission/src/rules.rs and lib.rs).
module PermissionReads {
  import opened Decimal
  import opened PermissionGate
  import opened PermissionRules
  import opened Sequences
  import opened Text
  import opened Walk
  import opened Wrappers

  // ----- answers -----

  predicate SameLetter(c: char, d: char) {
    c == d || ('A' <= c <= 'Z' && c as int + 32 == d as int)
  }

  /** `word` stands in `answer` at `at`, in whatever case, with nothing but whitespace around it. */
  predicate SaysAt(answer: string, word: string, at: nat) {
    && at + |word| <= |answer|
    && (forall k :: 0 <= k < at ==> IsSpace(answer[k]))
    && (forall k :: at + |word| <= k < |answer| ==> IsSpace(answer[k]))
    && (forall k :: 0 <= k < |word| ==> SameLetter(answer[at + k], word[k]))
  }

  ghost predicate Says(answer: string, word: string) {
    exists at: nat :: SaysAt(answer, word, at)
  }

  /** A word of small letters and hyphens, with one at each end. */
  predicate IsWord(word: string) {
    word != "" && forall k :: 0 <= k < |word| ==> 'a' <= word[k] <= 'z' || word[k] == '-'
  }

  lemma {:induction false} SaidIsSays(answer: string, word: string)
    requires IsWord(word)
    ensures Lower(Trim(answer)) == word <==> Says(answer, word)
  {
    if Lower(Trim(answer)) == word {
      var from, to := TrimStands(answer);
      forall k | 0 <= k < |word| ensures SameLetter(answer[from + k], word[k]) {
        assert Trim(answer)[k] == answer[from + k] && Lower(Trim(answer))[k] == LowerChar(answer[from + k]);
      }
      assert SaysAt(answer, word, from);
    }
    if at: nat :| SaysAt(answer, word, at) {
      var said := answer[at..at + |word|];
      assert forall k :: 0 <= k < |word| ==> said[k] == answer[at + k];
      assert SameLetter(said[0], word[0]) && SameLetter(said[|said| - 1], word[|said| - 1]);
      TrimGives(answer, said, at, at + |word|);
      assert Lower(said) == word;
    }
  }

  lemma {:induction false} WordsAreWords()
    ensures IsWord("y") && IsWord("yes") && IsWord("allow") && IsWord("approve") && IsWord("ok")
    ensures IsWord("a") && IsWord("always") && IsWord("yes-always") && IsWord("allow-always")
    ensures IsWord("never") && IsWord("no-never") && IsWord("deny-always")
  {
  }

  /** Every answer counts as what its one word says, in whatever case, and anything else as a no. */
  lemma {:induction false} AnswersSayTheirWord(answer: string)
    ensures ParseAnswer(answer) == Once <==>
            Says(answer, "y") || Says(answer, "yes") || Says(answer, "allow") || Says(answer, "approve")
            || Says(answer, "ok")
    ensures ParseAnswer(answer) == Always <==>
            Says(answer, "a") || Says(answer, "always") || Says(answer, "yes-always") || Says(answer, "allow-always")
    ensures ParseAnswer(answer) == Never <==>
            Says(answer, "never") || Says(answer, "no-never") || Says(answer, "deny-always")
  {
    WordsAreWords();
    SaidIsSays(answer, "y");
    SaidIsSays(answer, "yes");
    SaidIsSays(answer, "allow");
    SaidIsSays(answer, "approve");
    SaidIsSays(answer, "ok");
    SaidIsSays(answer, "a");
    SaidIsSays(answer, "always");
    SaidIsSays(answer, "yes-always");
    SaidIsSays(answer, "allow-always");
    SaidIsSays(answer, "never");
    SaidIsSays(answer, "no-never");
    SaidIsSays(answer, "deny-always");
  }

  /** What is stored stands for a verdict exactly if it is that word with at most whitespace around it. */
  lemma {:induction false} VerdictsAreTheirWord(stored: string)
    ensures ParseVerdict(stored) == Some(Allow) <==> exists from: nat, to: nat :: IsTrimmed(stored, "allow", from, to)
    ensures ParseVerdict(stored) == Some(Deny) <==> exists from: nat, to: nat :: IsTrimmed(stored, "deny", from, to)
  {
    var from, to := TrimStands(stored);
    if f: nat, t: nat :| IsTrimmed(stored, "allow", f, t) {
      TrimGives(stored, "allow", f, t);
    }
    if f: nat, t: nat :| IsTrimmed(stored, "deny", f, t) {
      TrimGives(stored, "deny", f, t);
    }
  }

  // ----- path keys -----

  /** `key` is `word` in whatever case. */
  predicate IsCased(key: string, word: string) {
    |key| == |word| && forall k :: 0 <= k < |word| ==> SameLetter(key[k], word[k])
  }

  lemma {:induction false} LoweredIsCased(key: string, word: string)
    requires IsWord(word)
    ensures Lower(key) == word <==> IsCased(key, word)
  {
    if Lower(key) == word {
      assert forall k :: 0 <= k < |word| ==> LowerChar(key[k]) == word[k];
    }
    if IsCased(key, word) {
      assert forall k :: 0 <= k < |word| ==> SameLetter(key[k], word[k]);
    }
  }

  /** The keys whose strings are taken for paths. */
  lemma {:induction false} PathKeysAre(key: string)
    ensures IsPathKey(key) <==>
            || IsCased(key, "path") || IsCased(key, "paths") || IsCased(key, "file") || IsCased(key, "files")
            || IsCased(key, "dir") || IsCased(key, "directory") || IsCased(key, "cwd") || IsCased(key, "command")
            || IsCased(key, "args")
  {
    LoweredIsCased(key, "path");
    LoweredIsCased(key, "paths");
    LoweredIsCased(key, "file");
    LoweredIsCased(key, "files");
    LoweredIsCased(key, "dir");
    LoweredIsCased(key, "directory");
    LoweredIsCased(key, "cwd");
    LoweredIsCased(key, "command");
    LoweredIsCased(key, "args");
  }

  // ----- paths that leave the workspace -----

  /** At `i` stands a slash that begins the string or a piece of it. */
  predicate RootAt(s: string, i: nat) {
    i < |s| && s[i] == '/' && (i == 0 || IsSpace(s[i - 1]))
  }

  /** At `i` stand two dots that are a whole step of a path. */
  predicate StepUpAt(s: string, i: nat) {
    && i + 2 <= |s| && s[i] == '.' && s[i + 1] == '.'
    && (i == 0 || s[i - 1] == '/' || IsSpace(s[i - 1]))
    && (i + 2 == |s| || s[i + 2] == '/' || IsSpace(s[i + 2]))
  }

  ghost predicate GoesToRoot(s: string) {
    exists i: nat :: RootAt(s, i)
  }

  ghost predicate StepsUp(s: string) {
    exists i: nat :: StepUpAt(s, i)
  }

  ghost predicate DotsAt(token: string, i: nat) {
    && i + 2 <= |token| && token[i] == '.' && token[i + 1] == '.'
    && (i == 0 || token[i - 1] == '/') && (i + 2 == |token| || token[i + 2] == '/')
  }

  lemma {:induction false} DotsAreAPart(token: string)
    ensures ".." in Split(token, '/') <==> exists i: nat :: DotsAt(token, i)
  {
    SplitGivesParts(token, '/', "..");
    if from: nat, to: nat :| PartAt(token, '/', "..", from, to) {
      assert token[from..to][0] == token[from] && token[from..to][1] == token[from + 1];
      assert DotsAt(token, from);
    }
    if i: nat :| DotsAt(token, i) {
      assert token[i..i + 2] == "..";
      assert PartAt(token, '/', "..", i, i + 2);
    }
  }

  /** A token that escapes shows it where it stands. */
  lemma {:induction false} TokenShows(policy: Policy, s: string, token: string, from: nat, to: nat)
    requires from <= to <= |s| && token == s[from..to] && TokenEscapes(policy, token)
    requires (from == 0 || IsSpace(s[from - 1])) && (to == |s| || IsSpace(s[to]))
    ensures (!policy.allowAbsolutePaths && GoesToRoot(s)) || (!policy.allowParentTraversal && StepsUp(s))
  {
    DotsAreAPart(token);
    if !policy.allowAbsolutePaths && StartsWith(token, "/") {
      assert token[0] == s[from];
      assert RootAt(s, from);
    } else {
      var i: nat :| DotsAt(token, i);
      assert StepUpAt(s, from + i);
    }
  }

  lemma {:induction false} TokenWhere(s: string, at: nat) returns (token: string, from: nat, to: nat)
    requires at < |s| && !IsSpace(s[at])
    ensures token in Tokens(s) && IsRun(s, IsSpace, from, to) && token == s[from..to] && from <= at < to
  {
    var runs := PiecesStand(s, IsSpace);
    assert Holds(runs, at);
    var i :| 0 <= i < |runs| && runs[i].0 <= at < runs[i].1;
    assert RunAt(s, IsSpace, Tokens(s)[i], runs[i]);
    token, from, to := Tokens(s)[i], runs[i].0, runs[i].1;
  }

  lemma {:induction false} TokenStands(s: string, token: string) returns (from: nat, to: nat)
    requires token in Tokens(s)
    ensures IsRun(s, IsSpace, from, to) && token == s[from..to]
  {
    var runs := PiecesStand(s, IsSpace);
    var i :| 0 <= i < |runs| && Tokens(s)[i] == token;
    assert RunAt(s, IsSpace, Tokens(s)[i], runs[i]);
    from, to := runs[i].0, runs[i].1;
  }

  lemma {:induction false} RootIsSeen(policy: Policy, s: string, at: nat)
    requires !policy.allowAbsolutePaths && RootAt(s, at)
    ensures PathEscapes(policy, s)
  {
    var token, from, to := TokenWhere(s, at);
    assert from == at && token[0] == s[at];
    assert TokenEscapes(policy, token);
  }

  lemma {:induction false} StepUpIsSeen(policy: Policy, s: string, at: nat)
    requires !policy.allowParentTraversal && StepUpAt(s, at)
    ensures PathEscapes(policy, s)
  {
    var token, from, to := TokenWhere(s, at);
    assert at + 2 <= to;
    assert DotsAt(token, at - from);
    DotsAreAPart(token);
    assert TokenEscapes(policy, token);
  }

  /**
    A string leaves the workspace exactly if some slash begins it or a piece of it, or two dots are a step of it,
    as far as the policy minds; the default one minds both.
   */
  lemma {:induction false} EscapesByWhatItShows(policy: Policy, s: string)
    ensures PathEscapes(policy, s) <==>
            || (!policy.allowAbsolutePaths && GoesToRoot(s))
            || (!policy.allowParentTraversal && StepsUp(s))
    ensures policy == DEFAULT_POLICY ==> (PathEscapes(policy, s) <==> GoesToRoot(s) || StepsUp(s))
  {
    if PathEscapes(policy, s) {
      if TokenEscapes(policy, s) {
        assert s[0..|s|] == s;
        TokenShows(policy, s, s, 0, |s|);
      } else {
        var token :| token in Tokens(s) && TokenEscapes(policy, token);
        var from, to := TokenStands(s, token);
        TokenShows(policy, s, token, from, to);
      }
    }
    if at: nat :| !policy.allowAbsolutePaths && RootAt(s, at) {
      RootIsSeen(policy, s, at);
    }
    if at: nat :| !policy.allowParentTraversal && StepUpAt(s, at) {
      StepUpIsSeen(policy, s, at);
    }
  }

  /** A string at or below a path key of the arguments leaves the workspace. */
  ghost predicate SomePathEscapes(policy: Policy, value: Json) {
    exists trail, s ::
      && IsPathString(value, trail, s)
      && ((!policy.allowAbsolutePaths && GoesToRoot(s)) || (!policy.allowParentTraversal && StepsUp(s)))
  }

  /** Arguments that are an object leave the workspace exactly if one of their path strings does; others never do. */
  lemma {:induction false} EscapesByItsPaths(policy: Policy, arguments: Option<Json>)
    ensures ArgsEscapeScope(policy, arguments)
            <==> arguments.Some? && arguments.value.Object? && SomePathEscapes(policy, arguments.value)
  {
    if ArgsEscapeScope(policy, arguments) {
      var s :| s in PathValues(arguments.value, false) && PathEscapes(policy, s);
      PathValuesAreTheStringsUnderPathKeys(arguments.value, s);
      EscapesByWhatItShows(policy, s);
    } else if arguments.Some? && arguments.value.Object? && SomePathEscapes(policy, arguments.value) {
      var trail, s :|
        && IsPathString(arguments.value, trail, s)
        && ((!policy.allowAbsolutePaths && GoesToRoot(s)) || (!policy.allowParentTraversal && StepsUp(s)));
      PathValuesAreTheStringsUnderPathKeys(arguments.value, s);
      EscapesByWhatItShows(policy, s);
    }
  }

  // ----- the last step of a path -----

  ghost predicate IsLastStep(path: string, step: string, from: nat) {
    from <= |path| && step == path[from..] && '/' !in step && (from == 0 || path[from - 1] == '/')
  }

  lemma {:induction false} LastPieceStands(path: string) returns (from: nat)
    ensures IsLastStep(path, LastPiece(path), from)
  {
    var to;
    from, to := PartStands(path, '/', |Split(path, '/')| - 1);
  }

  /** A string at or below a path key names a credential file. */
  ghost predicate SomePathNamesCredentials(value: Json) {
    exists trail, s, from: nat :: IsPathString(value, trail, s) && from <= |s| && IsLastStep(s, s[from..], from)
                                  && IsCredentialFile(s[from..])
  }

  lemma {:induction false} LastStepIs(path: string, from: nat)
    requires from <= |path| && IsLastStep(path, path[from..], from)
    ensures LastPiece(path) == path[from..]
  {
    var at := LastPieceStands(path);
    assert forall k :: from <= k < |path| ==> path[from..][k - from] == path[k];
    assert forall k :: at <= k < |path| ==> path[at..][k - at] == path[k];
    assert at > 0 ==> path[at - 1] == '/';
  }

  /** The arguments name a credential file exactly if the last step of one of their path strings is one. */
  lemma {:induction false} CredentialsByItsPaths(arguments: Option<Json>)
    ensures NamesCredentialFile(arguments) <==> arguments.Some? && SomePathNamesCredentials(arguments.value)
  {
    if NamesCredentialFile(arguments) {
      var s :| s in PathValues(arguments.value, false) && IsCredentialFile(LastPiece(s));
      PathValuesAreTheStringsUnderPathKeys(arguments.value, s);
      var from := LastPieceStands(s);
    } else if arguments.Some? && SomePathNamesCredentials(arguments.value) {
      var trail, s, from: nat :| IsPathString(arguments.value, trail, s) && from <= |s|
                                 && IsLastStep(s, s[from..], from) && IsCredentialFile(s[from..]);
      PathValuesAreTheStringsUnderPathKeys(arguments.value, s);
      LastStepIs(s, from);
    }
  }

  // ----- scopes -----

  /** The first field of that name holds the string. */
  ghost predicate HasField(arguments: Option<Json>, key: string, text: string) {
    && arguments.Some? && arguments.value.Object?
    && exists i: nat :: FieldAt(arguments.value.fields, key, text, i)
  }

  ghost predicate FieldAt(fields: seq<(string, Json)>, key: string, text: string, i: nat) {
    i < |fields| && fields[i] == (key, String(text)) && forall j :: 0 <= j < i ==> fields[j].0 != key
  }

  lemma {:induction false} FieldOfMeans(fields: seq<(string, Json)>, key: string, text: string)
    ensures FieldOf(fields, key) == Some(text) <==> exists i: nat :: FieldAt(fields, key, text, i)
  {
    if fields != [] {
      FieldOfMeans(fields[1..], key, text);
      if fields[0].0 != key {
        if i: nat :| FieldAt(fields[1..], key, text, i) {
          assert forall j :: 0 < j < i + 1 ==> fields[j] == fields[1..][j - 1];
          assert FieldAt(fields, key, text, i + 1);
        }
        if i: nat :| FieldAt(fields, key, text, i) {
          assert FieldAt(fields[1..], key, text, i - 1);
        }
      } else if FieldOf(fields, key) == Some(text) {
        assert FieldAt(fields, key, text, 0);
      }
    }
  }

  lemma {:induction false} StringFieldMeans(arguments: Option<Json>, key: string, text: string)
    ensures StringField(arguments, key) == Some(text) <==> HasField(arguments, key, text)
  {
    if arguments.Some? && arguments.value.Object? {
      FieldOfMeans(arguments.value.fields, key, text);
    }
  }

  /** From `from` to `to` stands the first piece of the string, or all of it if it is blank. */
  ghost predicate IsFirstPiece(s: string, from: nat, to: nat) {
    if forall k :: 0 <= k < |s| ==> IsSpace(s[k]) then from == 0 && to == |s|
    else IsRun(s, IsSpace, from, to) && forall k :: 0 <= k < from ==> IsSpace(s[k])
  }

  /** `program` is the last step of the first piece of a command. */
  ghost predicate IsProgram(command: string, program: string) {
    exists from: nat, to: nat, step: nat ::
      from <= to <= |command| && IsFirstPiece(command, from, to) && IsLastStep(command[from..to], program, step)
  }

  lemma {:induction false} FirstTokenStands(s: string) returns (from: nat, to: nat)
    ensures from <= to <= |s| && IsFirstPiece(s, from, to)
    ensures (if Tokens(s) == [] then s else Tokens(s)[0]) == s[from..to]
  {
    var runs := PiecesStand(s, IsSpace);
    if runs == [] {
      forall k | 0 <= k < |s| ensures IsSpace(s[k]) {
        assert !Holds(runs, k);
      }
      from, to := 0, |s|;
      assert s[0..|s|] == s;
    } else {
      assert RunAt(s, IsSpace, Tokens(s)[0], runs[0]);
      from, to := runs[0].0, runs[0].1;
      assert !IsSpace(s[from]);
      forall k | 0 <= k < from ensures IsSpace(s[k]) {
        BeforeFirstRun(runs, k);
      }
    }
  }

  lemma {:induction false} BeforeFirstRun(runs: seq<(nat, nat)>, k: nat)
    requires runs != [] && Ordered(runs) && runs[0].0 < runs[0].1 && k < runs[0].0
    ensures !Holds(runs, k)
  {
  }

  /**
    The scope of a call is its tool with the operation it names, or with the program its command runs, both in
    small letters; without either it is the tool's name in small letters.
   */
  lemma {:induction false} ScopeKeyReads(call: Call)
    ensures forall op :: HasField(call.arguments, "op", op) ==> ScopeKey(call) == call.name + ":" + Lower(op)
    ensures forall command :: HasField(call.arguments, "command", command)
                              && !(exists op :: HasField(call.arguments, "op", op)) ==>
              exists program :: IsProgram(command, program) && ScopeKey(call) == call.name + ":" + Lower(program)
    ensures (forall text :: !HasField(call.arguments, "op", text) && !HasField(call.arguments, "command", text)) ==>
              ScopeKey(call) == Lower(call.name)
  {
    forall text: string
      ensures StringField(call.arguments, "op") == Some(text) <==> HasField(call.arguments, "op", text)
      ensures StringField(call.arguments, "command") == Some(text) <==> HasField(call.arguments, "command", text)
    {
      StringFieldMeans(call.arguments, "op", text);
      StringFieldMeans(call.arguments, "command", text);
    }
    var command := StringField(call.arguments, "command");
    if command.Some? && StringField(call.arguments, "op").None? {
      var from, to := FirstTokenStands(command.value);
      var step := LastPieceStands(command.value[from..to]);
      assert IsProgram(command.value, LastPiece(command.value[from..to]));
    }
  }

  // ----- the review -----

  /**
    A call is asked about as an escape exactly if one of its path strings leaves the workspace; as touching
    credentials if none does and one names a credential file; it is let through unasked if neither is so and its
    scope or its tool is on the list; and only what is left may be settled by a blanket answer.
   */
  lemma {:induction false} ReviewReads(policy: Policy, call: Call)
    ensures var value := call.arguments;
            var escapes := value.Some? && value.value.Object? && SomePathEscapes(policy, value.value);
            var touches := value.Some? && SomePathNamesCredentials(value.value);
            var listed := ScopeKey(call) in policy.safeCalls || Lower(call.name) in policy.safeCalls;
            && (Review(policy, call) == Some(EscapesScope) <==> escapes)
            && (Review(policy, call) == Some(TouchesCredentials) <==> !escapes && touches)
            && (Review(policy, call) == None <==> !escapes && !touches && listed)
            && ScopeOf(policy, call) == if escapes || touches || listed then None else Some(ScopeKey(call))
  {
    EscapesByItsPaths(policy, call.arguments);
    CredentialsByItsPaths(call.arguments);
  }

  /** Arguments that are no JSON are let through unasked exactly if the tool itself is on the list. */
  lemma {:induction false} UnparsedRunsByName(policy: Policy, name: string)
    ensures Review(policy, Call(name, None)).None? <==> Lower(name) in policy.safeCalls
    ensures Review(DEFAULT_POLICY, Call("find", None)).None?
  {
    assert Lower("find") == "find" == DEFAULT_SAFE_CALLS[0];
  }

  /** By default these calls run unasked, and every other operation that names no path is asked about. */
  lemma {:induction false} DefaultsRunUnasked(name: string, op: string)
    ensures var listed := ["find", "fs:read", "fs:grep", "git", "edit:view", "proc-probe"];
            Review(DEFAULT_POLICY, Call(name, Some(Object([("op", String(op))]))))
            == if name + ":" + Lower(op) in listed || Lower(name) in listed then None else Some(NotKnownSafe)
  {
    var value := Object([("op", String(op))]);
    PathKeysAre("op");
    assert PathValues(String(op), false) == [];
    assert FieldPathValues(value, [("op", String(op))][1..], false) == [];
    assert PathValues(value, false) == [];
    assert FieldOf([("op", String(op))], "op") == Some(op);
  }

  // ----- a call that is asked about -----

  /** A refusal counter holds the number it spells, and anything else counts as none. */
  lemma {:induction false} CountReads(store: Store, key: string, n: nat)
    ensures key in store && Spells(store[key], n) && n <= 0xffff_ffff ==> CountIn(store, key) == n
    ensures CountIn(store, key) == n && n > 0 ==> key in store && Spells(store[key], n)
  {
    if key in store {
      ParseUsizeMeans(store[key], n);
    }
  }

  lemma {:induction false} AnswerDecides(policy: Policy, store: Store, call: Call, said: Answer, key: string,
                                         counter: string)
    requires ScopeOf(policy, call) == Some(key) && counter == CounterKey(key)
    ensures var count := CountIn(store, counter);
            var next := if count == 0xffff_ffff then count else count + 1;
            var told := if said == Never then store[key := "deny"] else store;
            AnsweredDecision(policy, store, call, said) ==
            if said == Once then (Proceed, store)
            else if said == Always then (Proceed, store[key := "allow"])
            else if next >= 3 then (Block(true), told[counter := Digits(next)][key := "deny"])
            else (Block(false), told[counter := Digits(next)])
  {
    assert |counter| == 9 + |key|;
    assert CountIn(store[key := "deny"], counter) == CountIn(store, counter);
  }

  /** What becomes of a call of this scope, and of the store. */
  ghost predicate SettlesAs(store: Store, key: string, said: Answer, outcome: (Settled, Store)) {
    var verdict, counter := if key in store then ParseVerdict(store[key]) else None, "refusals:" + key;
    var count := CountIn(store, counter);
    var next := if count == 0xffff_ffff then count else count + 1;
    var told := if said == Never then store[key := "deny"] else store;
    outcome ==
    if verdict == Some(Allow) then (Settled(false, Proceed), store)
    else if verdict == Some(Deny) then (Settled(false, Block(true)), store)
    else if said == Once then (Settled(true, Proceed), store)
    else if said == Always then (Settled(true, Proceed), store[key := "allow"])
    else if next >= 3 then (Settled(true, Block(true)), told[counter := Digits(next)][key := "deny"])
    else (Settled(true, Block(false)), told[counter := Digits(next)])
  }

  /** A standing verdict settles a call under review; without one the user is asked, and the answer decides. */
  lemma {:induction false} StandingOrAsked(policy: Policy, store: Store, call: Call, answer: string, key: string)
    requires ScopeOf(policy, call) == Some(key)
    ensures var verdict := if key in store then ParseVerdict(store[key]) else None;
            var answered := AnsweredDecision(policy, store, call, ParseAnswer(answer));
            SettleIn(policy, store, call, answer) ==
            if verdict == Some(Allow) then (Settled(false, Proceed), store)
            else if verdict == Some(Deny) then (Settled(false, Block(true)), store)
            else (Settled(true, answered.0), answered.1)
  {
  }

  /**
    What an answer to a call under review does: approvals let it run and `always` is stored; every refusal counts
    one more, `never` stores a denial at once and the third refusal does too.
   */
  lemma {:induction false} AnswerSettles(policy: Policy, store: Store, call: Call, answer: string)
    requires Review(policy, call) == Some(NotKnownSafe)
    ensures SettlesAs(store, ScopeKey(call), ParseAnswer(answer), SettleIn(policy, store, call, answer))
  {
    var key := ScopeKey(call);
    StandingOrAsked(policy, store, call, answer, key);
    AnswerDecides(policy, store, call, ParseAnswer(answer), key, CounterKey(key));
  }
}
