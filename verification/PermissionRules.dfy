// What a tool call may do without asking (pkgs/extensions/interceptor-permission/src/rules.rs).
module PermissionRules {
  import opened Sequences
  import opened Text
  import opened Walk
  import opened Wrappers

  /** Parsed JSON; an object's fields have distinct names. */
  datatype Json =
    | Null
    | Bool(b: bool)
    | Number(n: int)
    | String(s: string)
    | Array(items: seq<Json>)
    | Object(fields: seq<(string, Json)>)

  /** A tool call; the arguments are `None` when they are not valid JSON. */
  datatype Call = Call(name: string, arguments: Option<Json>)

  datatype Policy = Policy(safeCalls: seq<string>, allowAbsolutePaths: bool, allowParentTraversal: bool)

  const DEFAULT_SAFE_CALLS: seq<string> := ["find", "fs:read", "fs:grep", "git", "edit:view", "proc-probe"]

  const DEFAULT_POLICY := Policy(DEFAULT_SAFE_CALLS, false, false)

  const PATH_KEYS: seq<string> :=
    ["path", "paths", "file", "files", "dir", "directory", "cwd", "command", "args"]

  datatype Concern = NotKnownSafe | EscapesScope | TouchesCredentials

  predicate IsRememberable(c: Concern) {
    c.NotKnownSafe?
  }

  function LastPiece(path: string): string {
    var pieces := Split(path, '/');
    pieces[|pieces| - 1]
  }

  // ----- strings below a path key -----

  predicate IsPathKey(key: string) {
    Lower(key) in PATH_KEYS
  }

  function PathValues(value: Json, underPathKey: bool): seq<string>
    decreases value, 1, 0
  {
    match value
    case String(s) => if underPathKey then [s] else []
    case Array(items) => ItemPathValues(value, items, underPathKey)
    case Object(fields) => FieldPathValues(value, fields, underPathKey)
    case _ => []
  }

  function ItemPathValues(whole: Json, items: seq<Json>, underPathKey: bool): seq<string>
    requires forall i :: 0 <= i < |items| ==> items[i] < whole
    decreases whole, 0, |items|
  {
    if items == [] then []
    else PathValues(items[0], underPathKey) + ItemPathValues(whole, items[1..], underPathKey)
  }

  function FieldPathValues(whole: Json, fields: seq<(string, Json)>, underPathKey: bool): seq<string>
    requires forall i :: 0 <= i < |fields| ==> fields[i].1 < whole
    decreases whole, 0, |fields|
  {
    if fields == [] then []
    else
      PathValues(fields[0].1, underPathKey || IsPathKey(fields[0].0))
      + FieldPathValues(whole, fields[1..], underPathKey)
  }

  /** The string stands in `value` at the end of a trail of positions, some of them named by a path key or one above. */
  ghost predicate StandsUnderPathKey(value: Json, trail: seq<nat>, underPathKey: bool, s: string)
    decreases trail
  {
    if trail == [] then value == String(s) && underPathKey
    else
      var i := trail[0];
      match value
      case Array(items) => i < |items| && StandsUnderPathKey(items[i], trail[1..], underPathKey, s)
      case Object(fields) =>
        i < |fields| && StandsUnderPathKey(fields[i].1, trail[1..], underPathKey || IsPathKey(fields[i].0), s)
      case _ => false
  }

  lemma {:induction false} ItemValuesByPosition(whole: Json, items: seq<Json>, under: bool, s: string)
    requires forall i :: 0 <= i < |items| ==> items[i] < whole
    ensures s in ItemPathValues(whole, items, under)
            <==> exists i :: 0 <= i < |items| && s in PathValues(items[i], under)
  {
    if items != [] {
      ItemValuesByPosition(whole, items[1..], under, s);
      if s in ItemPathValues(whole, items[1..], under) {
        var i :| 0 <= i < |items[1..]| && s in PathValues(items[1..][i], under);
        assert items[1..][i] == items[i + 1];
      }
      if i :| 0 <= i < |items| && s in PathValues(items[i], under) {
        assert i > 0 ==> items[i] == items[1..][i - 1];
      }
    }
  }

  lemma {:induction false} FieldValuesByPosition(whole: Json, fields: seq<(string, Json)>, under: bool, s: string)
    requires forall i :: 0 <= i < |fields| ==> fields[i].1 < whole
    ensures s in FieldPathValues(whole, fields, under)
            <==> exists i :: 0 <= i < |fields| && s in PathValues(fields[i].1, under || IsPathKey(fields[i].0))
  {
    if fields != [] {
      FieldValuesByPosition(whole, fields[1..], under, s);
      if s in FieldPathValues(whole, fields[1..], under) {
        var i :| 0 <= i < |fields[1..]| && s in PathValues(fields[1..][i].1, under || IsPathKey(fields[1..][i].0));
        assert fields[1..][i] == fields[i + 1];
      }
      if i :| 0 <= i < |fields| && s in PathValues(fields[i].1, under || IsPathKey(fields[i].0)) {
        assert i > 0 ==> fields[i] == fields[1..][i - 1];
      }
    }
  }

  lemma {:induction false} CollectedStands(value: Json, under: bool, s: string) returns (trail: seq<nat>)
    requires s in PathValues(value, under)
    ensures StandsUnderPathKey(value, trail, under, s)
  {
    match value
    case Array(items) =>
      ItemValuesByPosition(value, items, under, s);
      var i :| 0 <= i < |items| && s in PathValues(items[i], under);
      var rest := CollectedStands(items[i], under, s);
      trail := [i] + rest;
      assert trail[1..] == rest;
    case Object(fields) =>
      FieldValuesByPosition(value, fields, under, s);
      var i :| 0 <= i < |fields| && s in PathValues(fields[i].1, under || IsPathKey(fields[i].0));
      var rest := CollectedStands(fields[i].1, under || IsPathKey(fields[i].0), s);
      trail := [i] + rest;
      assert trail[1..] == rest;
    case _ =>
      trail := [];
  }

  lemma {:induction false} StandingIsCollected(value: Json, trail: seq<nat>, under: bool, s: string)
    requires StandsUnderPathKey(value, trail, under, s)
    ensures s in PathValues(value, under)
    decreases |trail|
  {
    if trail == [] {
      assert PathValues(String(s), true) == [s];
    } else {
      var i := trail[0];
      match value
      case Array(items) =>
        StandingIsCollected(items[i], trail[1..], under, s);
        assert s in PathValues(items[i], under);
        ItemValuesByPosition(value, items, under, s);
      case Object(fields) =>
        StandingIsCollected(fields[i].1, trail[1..], under || IsPathKey(fields[i].0), s);
        assert s in PathValues(fields[i].1, under || IsPathKey(fields[i].0));
        FieldValuesByPosition(value, fields, under, s);
    }
  }

  /** The string stands in `value` at the end of this trail, at or below a path key. */
  ghost predicate IsPathString(value: Json, trail: seq<nat>, s: string) {
    StandsUnderPathKey(value, trail, false, s)
  }

  /** Exactly the strings at or below a path key, however deep, are treated as paths. */
  lemma {:induction false} PathValuesAreTheStringsUnderPathKeys(value: Json, s: string)
    ensures s in PathValues(value, false) <==> exists trail :: IsPathString(value, trail, s)
  {
    if s in PathValues(value, false) {
      var trail := CollectedStands(value, false, s);
      assert IsPathString(value, trail, s);
    }
    if exists trail :: IsPathString(value, trail, s) {
      var trail :| IsPathString(value, trail, s);
      StandingIsCollected(value, trail, false, s);
    }
  }

  // ----- the review -----

  predicate TokenEscapes(policy: Policy, token: string) {
    || (!policy.allowAbsolutePaths && StartsWith(token, "/"))
    || (!policy.allowParentTraversal && ".." in Split(token, '/'))
  }

  predicate PathEscapes(policy: Policy, s: string) {
    TokenEscapes(policy, s) || exists t :: t in Tokens(s) && TokenEscapes(policy, t)
  }

  predicate ArgsEscapeScope(policy: Policy, arguments: Option<Json>) {
    && !(policy.allowAbsolutePaths && policy.allowParentTraversal)
    && arguments.Some? && arguments.value.Object?
    && exists s :: s in PathValues(arguments.value, false) && PathEscapes(policy, s)
  }

  predicate NamesCredentialFile(arguments: Option<Json>) {
    arguments.Some? && exists s :: s in PathValues(arguments.value, false) && IsCredentialFile(LastPiece(s))
  }

  /** The value of a string field of an object, as `get(..).and_then(as_str)`. */
  function FieldOf(fields: seq<(string, Json)>, key: string): Option<string> {
    if fields == [] then None
    else if fields[0].0 == key then (if fields[0].1.String? then Some(fields[0].1.s) else None)
    else FieldOf(fields[1..], key)
  }

  function StringField(arguments: Option<Json>, key: string): Option<string> {
    if arguments.Some? && arguments.value.Object? then FieldOf(arguments.value.fields, key) else None
  }

  /** The kind of action a call is, whatever its other arguments: `fs:write`, `shell:cargo`. */
  function ScopeKey(call: Call): string {
    var op := StringField(call.arguments, "op");
    var command := StringField(call.arguments, "command");
    if op.Some? then call.name + ":" + Lower(op.value)
    else if command.Some? then
      var tokens := Tokens(command.value);
      var program := if tokens == [] then command.value else tokens[0];
      call.name + ":" + Lower(LastPiece(program))
    else Lower(call.name)
  }

  predicate IsKnownSafe(policy: Policy, call: Call) {
    ScopeKey(call) in policy.safeCalls || Lower(call.name) in policy.safeCalls
  }

  /** The scope check comes first, then credentials, then the allowlist. */
  function Review(policy: Policy, call: Call): Option<Concern> {
    if ArgsEscapeScope(policy, call.arguments) then Some(EscapesScope)
    else if NamesCredentialFile(call.arguments) then Some(TouchesCredentials)
    else if IsKnownSafe(policy, call) then None
    else Some(NotKnownSafe)
  }

  // ----- answers and verdicts -----

  datatype Answer = Once | Always | No | Never

  function ParseAnswer(answer: string): Answer {
    var said := Lower(Trim(answer));
    if said in ["y", "yes", "allow", "approve", "ok"] then Once
    else if said in ["a", "always", "yes-always", "allow-always"] then Always
    else if said in ["never", "no-never", "deny-always"] then Never
    else No
  }

  predicate Approves(a: Answer) {
    a.Once? || a.Always?
  }

  datatype Verdict = Allow | Deny

  function Standing(a: Answer): Option<Verdict> {
    match a
    case Always => Some(Allow)
    case Never => Some(Deny)
    case _ => None
  }

  function VerdictText(v: Verdict): string {
    match v
    case Allow => "allow"
    case Deny => "deny"
  }

  function ParseVerdict(stored: string): Option<Verdict> {
    var said := Trim(stored);
    if said == "allow" then Some(Allow)
    else if said == "deny" then Some(Deny)
    else None
  }

  lemma {:induction false} ParseInvertsVerdictText(v: Verdict)
    ensures ParseVerdict(VerdictText(v)) == Some(v)
  {
  }
}
