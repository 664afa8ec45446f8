// Decoding of HTML entities (pkgs/extensions/tool-fetch/src/lib.rs).
module Entities {
  import opened Text

  /** One replacement: the entity as spelled and the character it names. */
  datatype Rule = Rule(entity: string, symbol: char)

  const NBSP := Rule("&nbsp;", ' ')
  const LT := Rule("&lt;", '<')
  const GT := Rule("&gt;", '>')
  const QUOT := Rule("&quot;", '"')
  const NUMERIC_APOS := Rule("&#39;", '\'')
  const APOS := Rule("&apos;", '\'')
  const AMP := Rule("&amp;", '&')

  /** Replaces every non-overlapping occurrence, leftmost first, as Rust's `str::replace` does. */
  function Replace(s: string, rule: Rule): string
    decreases |s|
  {
    if s == "" then ""
    else if rule.entity != "" && StartsWith(s, rule.entity) then [rule.symbol] + Replace(s[|rule.entity|..], rule)
    else [s[0]] + Replace(s[1..], rule)
  }

  /** Seven passes, `&amp;` last. */
  function DecodeEntities(s: string): string {
    Replace(Replace(Replace(Replace(Replace(Replace(Replace(s, NBSP), LT), GT), QUOT), NUMERIC_APOS), APOS), AMP)
  }

  // ----- the meaning: one scan over the text -----

  /** The first rule whose entity opens `s`, or `|rules|`. */
  function FirstMatch(s: string, rules: seq<Rule>): (k: nat)
    ensures k <= |rules|
    ensures k < |rules| ==> StartsWith(s, rules[k].entity)
    ensures forall i :: 0 <= i < k ==> !StartsWith(s, rules[i].entity)
  {
    if rules == [] then 0
    else if StartsWith(s, rules[0].entity) then 0
    else
      var k := 1 + FirstMatch(s, rules[1..]);
      assert forall i :: 1 <= i < k ==> rules[1..][i - 1] == rules[i];
      k
  }

  predicate WellFormedRule(r: Rule) {
    && |r.entity| >= 2
    && r.entity[0] == '&'
    && '&' !in r.entity[1..]
  }

  ghost predicate WellFormed(rules: seq<Rule>) {
    forall i :: 0 <= i < |rules| ==> WellFormedRule(rules[i])
  }

  /** Decodes in one left-to-right scan: every entity of the original text, and nothing that decoding spells. */
  ghost function Scan(s: string, rules: seq<Rule>): string
    requires WellFormed(rules)
    decreases |s|
  {
    if s == "" then ""
    else
      var k := FirstMatch(s, rules);
      if k < |rules| then
        assert WellFormedRule(rules[k]);
        [rules[k].symbol] + Scan(s[|rules[k].entity|..], rules)
      else [s[0]] + Scan(s[1..], rules)
  }

  /** A later rule cannot be confused with an earlier one, nor be spelled with what earlier ones produce. */
  ghost predicate Extends(rules: seq<Rule>, next: Rule) {
    && WellFormed(rules)
    && WellFormedRule(next)
    && (forall i :: 0 <= i < |rules| ==>
          && rules[i].symbol != '&'
          && rules[i].symbol !in next.entity
          && !StartsWith(rules[i].entity, next.entity)
          && !StartsWith(next.entity, rules[i].entity))
  }

  lemma {:induction false} PlainStartMatchesNothing(s: string, rules: seq<Rule>)
    requires WellFormed(rules) && s != ""
    ensures s[0] != '&' ==> FirstMatch(s, rules) == |rules|
  {
    var k := FirstMatch(s, rules);
    if k < |rules| {
      assert WellFormedRule(rules[k]);
      assert s[0] == rules[k].entity[0];
    }
  }

  lemma {:induction false} ScanPlainOne(s: string, rules: seq<Rule>)
    requires WellFormed(rules) && s != "" && s[0] != '&'
    ensures Scan(s, rules) == [s[0]] + Scan(s[1..], rules)
  {
    PlainStartMatchesNothing(s, rules);
  }

  lemma {:induction false} ConsConcat(w: string, t: string)
    requires w != ""
    ensures (w + t)[0] == w[0] && (w + t)[1..] == w[1..] + t
    ensures [w[0]] + (w[1..] + t) == w + t
  {
  }

  /** Text without `&` is scanned through unchanged. */
  lemma {:induction false} ScanPlain(w: string, t: string, rules: seq<Rule>)
    requires WellFormed(rules) && '&' !in w
    ensures Scan(w + t, rules) == w + Scan(t, rules)
  {
    if w == "" {
      assert w + t == t;
    } else {
      assert w[0] in w;
      ConsConcat(w, t);
      ScanPlainOne(w + t, rules);
      ScanPlain(w[1..], t, rules);
      ConsConcat(w, Scan(t, rules));
    }
  }

  /** Scanning produces `w` at the front only where the text itself has it. */
  lemma {:induction false} ScanShowsNothingNew(s: string, w: string, rules: seq<Rule>)
    requires WellFormed(rules) && '&' !in w
    requires forall i :: 0 <= i < |rules| ==> rules[i].symbol !in w
    requires StartsWith(Scan(s, rules), w)
    ensures StartsWith(s, w)
  {
    if w != "" {
      var k := FirstMatch(s, rules);
      assert Scan(s, rules)[0] == w[0] && w[0] in w;
      assert Scan(s, rules)[1..] == Scan(s[1..], rules);
      assert w[1..] <= Scan(s[1..], rules);
      ScanShowsNothingNew(s[1..], w[1..], rules);
      assert w == [w[0]] + w[1..];
      assert s == [s[0]] + s[1..];
    }
  }

  lemma {:induction false} FirstMatchAppend(s: string, rules: seq<Rule>, next: Rule)
    ensures FirstMatch(s, rules) < |rules| ==> FirstMatch(s, rules + [next]) == FirstMatch(s, rules)
    ensures FirstMatch(s, rules) == |rules| ==>
              FirstMatch(s, rules + [next]) == if StartsWith(s, next.entity) then |rules| else |rules| + 1
  {
    var k := FirstMatch(s, rules);
    var m := FirstMatch(s, rules + [next]);
    assert forall i :: 0 <= i < |rules| ==> (rules + [next])[i] == rules[i];
    assert m < |rules| ==> StartsWith(s, rules[m].entity);
    if k < |rules| {
      assert StartsWith(s, (rules + [next])[k].entity);
    } else if StartsWith(s, next.entity) {
      assert (rules + [next])[|rules|] == next;
    }
  }

  /** One more pass over scanned text is one more rule in the scan. */
  lemma {:induction false} PassAddsRule(s: string, rules: seq<Rule>, next: Rule)
    requires Extends(rules, next)
    ensures WellFormed(rules + [next])
    ensures Replace(Scan(s, rules), next) == Scan(s, rules + [next])
    decreases |s|
  {
    var more := rules + [next];
    assert WellFormed(more) by {
      forall i | 0 <= i < |more| ensures WellFormedRule(more[i]) {
        if i < |rules| { assert more[i] == rules[i]; }
      }
    }
    if s != "" {
      FirstMatchAppend(s, rules, next);
      var k := FirstMatch(s, rules);
      if k < |rules| {
        assert WellFormedRule(rules[k]);
        var rest := s[|rules[k].entity|..];
        PassAddsRule(rest, rules, next);
        assert Scan(s, rules) == [rules[k].symbol] + Scan(rest, rules);
        assert Scan(s, rules)[1..] == Scan(rest, rules);
        assert !StartsWith(Scan(s, rules), next.entity) by {
          assert Scan(s, rules)[0] != next.entity[0];
        }
        assert more[k] == rules[k];
      } else if StartsWith(s, next.entity) {
        var rest := s[|next.entity|..];
        PassAtEntity(s, rest, rules, next);
        PassAddsRule(rest, rules, next);
        assert Scan(s, rules)[|next.entity|..] == Scan(rest, rules);
        assert more[|rules|] == next;
      } else {
        PassAddsRule(s[1..], rules, next);
        assert Scan(s, rules) == [s[0]] + Scan(s[1..], rules);
        assert Scan(s, rules)[1..] == Scan(s[1..], rules);
        assert !StartsWith(Scan(s, rules), next.entity) by {
          if StartsWith(Scan(s, rules), next.entity) {
            EntityNotSpelled(s, rules, next);
          }
        }
      }
    }
  }

  lemma {:induction false} PassAtEntity(s: string, rest: string, rules: seq<Rule>, next: Rule)
    requires WellFormed(rules) && WellFormedRule(next)
    requires s == next.entity + rest && FirstMatch(s, rules) == |rules|
    ensures Scan(s, rules) == next.entity + Scan(rest, rules)
  {
    ConsConcat(next.entity, rest);
    ScanPlain(next.entity[1..], rest, rules);
    ConsConcat(next.entity, Scan(rest, rules));
    assert Scan(s, rules) == [s[0]] + Scan(s[1..], rules);
  }

  lemma {:induction false} EntityNotSpelled(s: string, rules: seq<Rule>, next: Rule)
    requires Extends(rules, next) && s != ""
    requires FirstMatch(s, rules) == |rules|
    requires StartsWith(Scan(s, rules), next.entity)
    ensures StartsWith(s, next.entity)
  {
    var tail := next.entity[1..];
    assert Scan(s, rules) == [s[0]] + Scan(s[1..], rules);
    assert tail <= Scan(s[1..], rules);
    forall i | 0 <= i < |rules| ensures rules[i].symbol !in tail {
      assert rules[i].symbol !in next.entity;
    }
    ScanShowsNothingNew(s[1..], tail, rules);
    assert next.entity == [s[0]] + tail;
    assert s == [s[0]] + s[1..];
  }

  lemma {:induction false} ScanNothing(s: string)
    ensures Scan(s, []) == s
  {
    if s != "" {
      ScanNothing(s[1..]);
    }
  }

  const RULES: seq<Rule> := [NBSP, LT, GT, QUOT, NUMERIC_APOS, APOS, AMP]

  predicate EntityChar(c: char) {
    'a' <= c <= 'z' || '0' <= c <= '9' || c == '#' || c == ';'
  }

  /** An ampersand, then letters, digits, `#` and `;`; it names a character that is none of those. */
  ghost predicate Spelled(r: Rule) {
    && |r.entity| >= 4
    && r.entity[0] == '&'
    && (forall i :: 1 <= i < |r.entity| ==> EntityChar(r.entity[i]))
    && !EntityChar(r.symbol)
  }

  lemma {:induction false} SpelledRules()
    ensures Spelled(NBSP) && Spelled(LT) && Spelled(GT) && Spelled(QUOT)
    ensures Spelled(NUMERIC_APOS) && Spelled(APOS) && Spelled(AMP)
  {
  }

  /** The second and third characters tell the rules apart. */
  function Mark(n: nat): string
    requires n < 7
  {
    ["nb", "lt", "gt", "qu", "#3", "ap", "am"][n]
  }

  lemma {:induction false} RuleShape(n: nat)
    requires n < 7
    ensures Spelled(RULES[n]) && RULES[n].entity[1..3] == Mark(n)
    ensures n < 6 ==> RULES[n].symbol != '&'
  {
    SpelledRules();
    assert NBSP.entity[1..3] == "nb" && LT.entity[1..3] == "lt" && GT.entity[1..3] == "gt";
    assert QUOT.entity[1..3] == "qu" && NUMERIC_APOS.entity[1..3] == "#3";
    assert APOS.entity[1..3] == "ap" && AMP.entity[1..3] == "am";
  }

  lemma {:induction false} SpelledIsWellFormed(r: Rule)
    requires Spelled(r)
    ensures WellFormedRule(r)
  {
  }

  lemma {:induction false} DifferentMarks(m: nat, n: nat)
    requires m < n < 7
    ensures Mark(m)[0] != Mark(n)[0] || Mark(m)[1] != Mark(n)[1]
  {
  }

  lemma {:induction false} ApartRules(first: Rule, second: Rule)
    requires Spelled(first) && Spelled(second)
    requires first.entity[1..3] != second.entity[1..3]
    requires first.symbol != '&'
    ensures first.symbol !in second.entity
    ensures !StartsWith(first.entity, second.entity) && !StartsWith(second.entity, first.entity)
  {
  }

  /** The rules stay distinguishable in the order the passes run. */
  lemma {:induction false} RulesExtend(n: nat)
    requires n < 7
    ensures Extends(RULES[..n], RULES[n])
  {
    RuleShape(n);
    SpelledIsWellFormed(RULES[n]);
    var rules, next := RULES[..n], RULES[n];
    forall i | 0 <= i < |rules|
      ensures WellFormedRule(rules[i]) && rules[i].symbol != '&' && rules[i].symbol !in next.entity
      ensures !StartsWith(rules[i].entity, next.entity) && !StartsWith(next.entity, rules[i].entity)
    {
      assert rules[i] == RULES[i];
      RuleShape(i);
      SpelledIsWellFormed(RULES[i]);
      DifferentMarks(i, n);
      ApartRules(RULES[i], next);
    }
  }

  /** The first `n` passes. */
  ghost function Passes(s: string, n: nat): string
    requires n <= 7
  {
    if n == 0 then s
    else Replace(Passes(s, n - 1), RULES[n - 1])
  }

  lemma {:induction false} PassesScan(s: string, n: nat)
    requires n <= 7
    ensures WellFormed(RULES[..n])
    ensures Passes(s, n) == Scan(s, RULES[..n])
  {
    if n == 0 {
      ScanNothing(s);
      assert RULES[..0] == [];
    } else {
      PassesScan(s, n - 1);
      RulesExtend(n - 1);
      var rules, next := RULES[..n - 1], RULES[n - 1];
      PassAddsRule(s, rules, next);
      OneMoreRule(RULES, n);
    }
  }

  lemma {:induction false} OneMoreRule(rules: seq<Rule>, n: nat)
    requires 0 < n <= |rules|
    ensures rules[..n] == rules[..n - 1] + [rules[n - 1]]
  {
  }

  lemma {:induction false} DecodeIsSevenPasses(s: string)
    ensures DecodeEntities(s) == Passes(s, 7)
  {
    var s1 := Replace(s, NBSP);
    var s2 := Replace(s1, LT);
    var s3 := Replace(s2, GT);
    var s4 := Replace(s3, QUOT);
    var s5 := Replace(s4, NUMERIC_APOS);
    var s6 := Replace(s5, APOS);
    assert Passes(s, 0) == s;
    assert Passes(s, 1) == s1;
    assert Passes(s, 2) == s2;
    assert Passes(s, 3) == s3;
    assert Passes(s, 4) == s4;
    assert Passes(s, 5) == s5;
    assert Passes(s, 6) == s6;
  }

  /** Seven passes in this order decode exactly what one scan of the original text decodes. */
  lemma {:induction false} DecodeIsOneScan(s: string)
    ensures WellFormed(RULES)
    ensures DecodeEntities(s) == Scan(s, RULES)
  {
    DecodeIsSevenPasses(s);
    PassesScan(s, 7);
    assert RULES[..7] == RULES;
  }

  // ----- escaping and back -----

  /** The predefined entity of a character, or `None` for one that needs no escaping. */
  function EntityFor(c: char, apostrophe: Rule): (n: nat)
    requires apostrophe == NUMERIC_APOS || apostrophe == APOS
    ensures n <= 7
    ensures n < 7 ==> RULES[n].symbol == c
  {
    if c == '<' then 1
    else if c == '>' then 2
    else if c == '"' then 3
    else if c == '\'' then (if apostrophe == NUMERIC_APOS then 4 else 5)
    else if c == '&' then 6
    else 7
  }

  /** Escapes `&`, `<`, `>`, `"` and `'`; the apostrophe as `&#39;` or as `&apos;`. */
  function Escape(s: string, apostrophe: Rule): string
    requires apostrophe == NUMERIC_APOS || apostrophe == APOS
  {
    if s == "" then ""
    else
      var n := EntityFor(s[0], apostrophe);
      (if n < 7 then RULES[n].entity else [s[0]]) + Escape(s[1..], apostrophe)
  }

  lemma {:induction false} MatchedRuleShows(s: string, n: nat)
    requires n < 7 && StartsWith(s, RULES[n].entity)
    ensures |s| >= 4 && s[1..3] == Mark(n)
  {
    RuleShape(n);
    assert s[..|RULES[n].entity|] == RULES[n].entity;
    assert s[1..3] == RULES[n].entity[1..3];
  }

  lemma {:induction false} FirstMatchIs(s: string, n: nat)
    requires n < 7 && StartsWith(s, RULES[n].entity)
    ensures FirstMatch(s, RULES) == n
  {
    var k := FirstMatch(s, RULES);
    MatchedRuleShows(s, n);
    if k < n {
      MatchedRuleShows(s, k);
      DifferentMarks(k, n);
    }
  }

  lemma {:induction false} ScanUndoesEscape(s: string, apostrophe: Rule)
    requires apostrophe == NUMERIC_APOS || apostrophe == APOS
    requires WellFormed(RULES)
    ensures Scan(Escape(s, apostrophe), RULES) == s
  {
    if s != "" {
      ScanUndoesEscape(s[1..], apostrophe);
      var rest := Escape(s[1..], apostrophe);
      var n := EntityFor(s[0], apostrophe);
      var whole := Escape(s, apostrophe);
      if n < 7 {
        var e := RULES[n].entity;
        assert whole == e + rest;
        FirstMatchIs(whole, n);
        RuleShape(n);
        assert whole[|e|..] == rest;
      } else {
        assert whole == [s[0]] + rest;
        PlainStartMatchesNothing(whole, RULES);
        assert whole[1..] == rest;
      }
    }
  }

  /** Decoding undoes escaping for every string, text that itself spells entities included. */
  lemma {:induction false} DecodeUndoesEscape(s: string, apostrophe: Rule)
    requires apostrophe == NUMERIC_APOS || apostrophe == APOS
    ensures DecodeEntities(Escape(s, apostrophe)) == s
  {
    DecodeIsOneScan(Escape(s, apostrophe));
    ScanUndoesEscape(s, apostrophe);
  }

  /** What stands in front of a text is decoded by itself: one of the seven entities, or any other character. */
  lemma {:induction false} DecodesFromTheFront(s: string)
    ensures DecodeEntities("") == ""
    ensures "&nbsp;" <= s ==> DecodeEntities(s) == " " + DecodeEntities(s[6..])
    ensures "&lt;" <= s ==> DecodeEntities(s) == "<" + DecodeEntities(s[4..])
    ensures "&gt;" <= s ==> DecodeEntities(s) == ">" + DecodeEntities(s[4..])
    ensures "&quot;" <= s ==> DecodeEntities(s) == "\"" + DecodeEntities(s[6..])
    ensures "&#39;" <= s ==> DecodeEntities(s) == "'" + DecodeEntities(s[5..])
    ensures "&apos;" <= s ==> DecodeEntities(s) == "'" + DecodeEntities(s[6..])
    ensures "&amp;" <= s ==> DecodeEntities(s) == "&" + DecodeEntities(s[5..])
    ensures (&& s != "" && !("&nbsp;" <= s) && !("&lt;" <= s) && !("&gt;" <= s) && !("&quot;" <= s)
             && !("&#39;" <= s) && !("&apos;" <= s) && !("&amp;" <= s)) ==>
              DecodeEntities(s) == [s[0]] + DecodeEntities(s[1..])
  {
    DecodeIsOneScan("");
    if s != "" {
      ScanStep(s);
      var k := FirstMatch(s, RULES);
      forall n: nat | n < 7 && RULES[n].entity <= s ensures n == k {
        FirstMatchIs(s, n);
      }
      assert RULES[0] == NBSP && RULES[1] == LT && RULES[2] == GT && RULES[3] == QUOT;
      assert RULES[4] == NUMERIC_APOS && RULES[5] == APOS && RULES[6] == AMP;
    }
  }

  lemma {:induction false} ScanStep(s: string)
    requires s != ""
    ensures var k := FirstMatch(s, RULES);
            DecodeEntities(s) == if k < 7 then [RULES[k].symbol] + DecodeEntities(s[|RULES[k].entity|..])
                                 else [s[0]] + DecodeEntities(s[1..])
  {
    var k := FirstMatch(s, RULES);
    DecodeIsOneScan(s);
    DecodeIsOneScan(s[1..]);
    if k < 7 {
      DecodeIsOneScan(s[|RULES[k].entity|..]);
      assert WellFormedRule(RULES[k]);
    }
  }
}
