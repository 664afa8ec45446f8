// Context trimming (pkgs/extensions/interceptor-context/src/context.rs).
module Context {

  /** Tokens in all messages. */
  function Total(tokens: seq<nat>): nat {
    if tokens == [] then 0 else tokens[0] + Total(tokens[1..])
  }

  /** Tokens in the messages from `i` on whose system flag is `system`. */
  function Cost(tokens: seq<nat>, isSystem: seq<bool>, system: bool, i: nat): nat
    requires |tokens| == |isSystem| && i <= |tokens|
    decreases |tokens| - i
  {
    if i == |tokens| then 0
    else (if isSystem[i] == system then tokens[i] else 0) + Cost(tokens, isSystem, system, i + 1)
  }

  /** What the budget leaves once every system message is in. */
  function Room(tokens: seq<nat>, isSystem: seq<bool>, budget: nat): nat
    requires |tokens| == |isSystem|
  {
    var system := Cost(tokens, isSystem, true, 0);
    if system <= budget then budget - system else 0
  }

  predicate IsNewestOther(isSystem: seq<bool>, i: nat) {
    i < |isSystem| && !isSystem[i] && forall j :: i < j < |isSystem| ==> isSystem[j]
  }

  /** A message stays if it is a system message, if the conversation from it on fits, or if it is the newest one. */
  predicate Keeps(tokens: seq<nat>, isSystem: seq<bool>, budget: nat, i: nat)
    requires |tokens| == |isSystem| && i < |tokens|
  {
    || isSystem[i]
    || Cost(tokens, isSystem, false, i) <= Room(tokens, isSystem, budget)
    || IsNewestOther(isSystem, i)
  }

  predicate Increasing(xs: seq<nat>) {
    forall i, j :: 0 <= i < j < |xs| ==> xs[i] < xs[j]
  }

  predicate Distinct(xs: seq<nat>) {
    forall i, j :: 0 <= i < j < |xs| ==> xs[i] != xs[j]
  }

  function InsertIndex(x: nat, xs: seq<nat>): (r: seq<nat>)
    requires Increasing(xs) && x !in xs
    ensures Increasing(r)
    ensures forall y :: y in r <==> y == x || y in xs
  {
    if xs == [] then [x]
    else if x < xs[0] then
      [x] + xs
    else
      var rest := InsertIndex(x, xs[1..]);
      assert forall j :: 0 <= j < |rest| ==> xs[0] < rest[j] by {
        forall j | 0 <= j < |rest| ensures xs[0] < rest[j] {
          assert rest[j] == x || rest[j] in xs[1..];
        }
      }
      assert x == xs[0] || x in rest;
      [xs[0]] + rest
  }

  /** Distinct indices in ascending order. */
  function SortIndices(xs: seq<nat>): (r: seq<nat>)
    requires Distinct(xs)
    ensures Increasing(r)
    ensures forall y :: y in r <==> y in xs
  {
    if xs == [] then [] else InsertIndex(xs[0], SortIndices(xs[1..]))
  }

  /** The system messages among the first `n`. */
  function SystemIndices(isSystem: seq<bool>, n: nat): (r: seq<nat>)
    requires n <= |isSystem|
    ensures Increasing(r)
    ensures forall j: nat :: j in r <==> j < n && isSystem[j]
  {
    if n == 0 then []
    else
      var before := SystemIndices(isSystem, n - 1);
      assert forall a :: 0 <= a < |before| ==> before[a] in before;
      if isSystem[n - 1] then before + [n - 1] else before
  }

  lemma {:induction false} TotalSplits(tokens: seq<nat>, isSystem: seq<bool>, i: nat)
    requires |tokens| == |isSystem| && i <= |tokens|
    ensures Total(tokens[i..]) == Cost(tokens, isSystem, true, i) + Cost(tokens, isSystem, false, i)
    decreases |tokens| - i
  {
    if i < |tokens| {
      TotalSplits(tokens, isSystem, i + 1);
      assert tokens[i..][1..] == tokens[i + 1..];
    }
  }

  lemma {:induction false} CostGrowsBackwards(tokens: seq<nat>, isSystem: seq<bool>, system: bool, i: nat, j: nat)
    requires |tokens| == |isSystem| && i <= j <= |tokens|
    ensures Cost(tokens, isSystem, system, j) <= Cost(tokens, isSystem, system, i)
    decreases j - i
  {
    if i < j {
      CostGrowsBackwards(tokens, isSystem, system, i + 1, j);
    }
  }

  lemma {:induction false} KeepsWholeTail(tokens: seq<nat>, isSystem: seq<bool>, budget: nat)
    requires |tokens| == |isSystem|
    requires Total(tokens) <= budget
    ensures forall i :: 0 <= i < |tokens| ==> Keeps(tokens, isSystem, budget, i)
  {
    assert tokens[0..] == tokens;
    TotalSplits(tokens, isSystem, 0);
    forall i | 0 <= i < |tokens| ensures Keeps(tokens, isSystem, budget, i) {
      CostGrowsBackwards(tokens, isSystem, false, 0, i);
    }
  }

  /** The kept indices, in conversation order. */
  method KeepIndices(tokens: seq<nat>, isSystem: seq<bool>, budget: nat) returns (kept: seq<nat>)
    requires |tokens| == |isSystem|
    ensures Increasing(kept)
    ensures forall i: nat :: i in kept <==> i < |tokens| && Keeps(tokens, isSystem, budget, i)
  {
    if Total(tokens) <= budget {
      KeepsWholeTail(tokens, isSystem, budget);
      kept := seq(|tokens|, i => i);
      forall i: nat ensures i in kept <==> i < |tokens| {
        if i < |tokens| {
          assert kept[i] == i;
        }
      }
      return;
    }
    var remaining := Room(tokens, isSystem, budget);
    ghost var room := remaining;
    var keptRecent: seq<nat> := [];
    var i := |tokens|;
    var walking := true;
    while walking && i > 0
      invariant 0 <= i <= |tokens|
      invariant Distinct(keptRecent)
      invariant forall j :: j in keptRecent <==> i <= j < |tokens| && !isSystem[j] && Keeps(tokens, isSystem, budget, j)
      invariant keptRecent == [] <==> forall j :: i <= j < |tokens| ==> isSystem[j]
      invariant walking ==> remaining + Cost(tokens, isSystem, false, i) == room
      invariant !walking ==> Cost(tokens, isSystem, false, i) > room && exists j :: i <= j < |tokens| && !isSystem[j]
      decreases walking, i
    {
      i := i - 1;
      if isSystem[i] {
        continue;
      }
      if tokens[i] <= remaining {
        remaining := remaining - tokens[i];
        keptRecent := keptRecent + [i];
      } else if keptRecent == [] {
        assert IsNewestOther(isSystem, i);
        keptRecent := keptRecent + [i];
        walking := false;
      } else {
        assert !IsNewestOther(isSystem, i) by {
          assert keptRecent[0] in keptRecent;
        }
        walking := false;
      }
    }
    assert !walking ==> Cost(tokens, isSystem, false, i) > Room(tokens, isSystem, budget);

    kept := SystemIndices(isSystem, |tokens|);
    MergedIndices(tokens, isSystem, budget, kept, keptRecent, i);
    kept := SortIndices(kept + keptRecent);
  }

  /** System indices and kept conversation are disjoint, and together they are what `Keeps` says. */
  lemma {:induction false} MergedIndices(tokens: seq<nat>, isSystem: seq<bool>, budget: nat, system: seq<nat>,
                                         recent: seq<nat>, from: nat)
    requires |tokens| == |isSystem| && from <= |tokens|
    requires Distinct(system) && Distinct(recent)
    requires forall j: nat :: j in system <==> j < |tokens| && isSystem[j]
    requires forall j: nat ::
               j in recent <==> from <= j < |tokens| && !isSystem[j] && Keeps(tokens, isSystem, budget, j)
    requires from == 0 || (Cost(tokens, isSystem, false, from) > Room(tokens, isSystem, budget)
                           && exists j :: from <= j < |tokens| && !isSystem[j])
    ensures Distinct(system + recent)
    ensures forall j: nat :: j in system + recent <==> j < |tokens| && Keeps(tokens, isSystem, budget, j)
  {
    assert forall a :: 0 <= a < |system| ==> system[a] in system;
    assert forall b :: 0 <= b < |recent| ==> recent[b] in recent;
    forall j | 0 <= j < from && !isSystem[j] ensures !Keeps(tokens, isSystem, budget, j) {
      CostGrowsBackwards(tokens, isSystem, false, j, from);
    }
  }

  // ----- what the choice means -----

  /** The kept conversation is a suffix, and any suffix that fits the room is inside it. */
  lemma {:induction false} KeepsLongestFittingSuffix(tokens: seq<nat>, isSystem: seq<bool>, budget: nat)
    requires |tokens| == |isSystem|
    ensures forall i, j :: 0 <= i <= j < |tokens| && !isSystem[i] && Keeps(tokens, isSystem, budget, i)
              ==> Keeps(tokens, isSystem, budget, j)
    ensures forall cut: nat, j ::
              cut <= j < |tokens| && Cost(tokens, isSystem, false, cut) <= Room(tokens, isSystem, budget)
              ==> Keeps(tokens, isSystem, budget, j)
  {
    forall i: nat, j: nat | i <= j < |tokens|
      ensures Cost(tokens, isSystem, false, j) <= Cost(tokens, isSystem, false, i)
    {
      CostGrowsBackwards(tokens, isSystem, false, i, j);
    }
  }

  /** Tokens of the conversation that is kept from `i` on. */
  ghost function KeptCost(tokens: seq<nat>, isSystem: seq<bool>, budget: nat, i: nat): nat
    requires |tokens| == |isSystem| && i <= |tokens|
    decreases |tokens| - i
  {
    if i == |tokens| then 0
    else
      (if !isSystem[i] && Keeps(tokens, isSystem, budget, i) then tokens[i] else 0)
      + KeptCost(tokens, isSystem, budget, i + 1)
  }

  lemma {:induction false} KeptCostFits(tokens: seq<nat>, isSystem: seq<bool>, budget: nat, i: nat)
    requires |tokens| == |isSystem| && i <= |tokens|
    requires forall j :: i <= j < |tokens| && IsNewestOther(isSystem, j) ==> tokens[j] <= Room(tokens, isSystem, budget)
    ensures KeptCost(tokens, isSystem, budget, i) <= Room(tokens, isSystem, budget)
    ensures KeptCost(tokens, isSystem, budget, i) <= Cost(tokens, isSystem, false, i)
    decreases |tokens| - i
  {
    if i < |tokens| {
      KeptCostFits(tokens, isSystem, budget, i + 1);
      if IsNewestOther(isSystem, i) {
        NothingAfterNewest(tokens, isSystem, i + 1);
      }
    }
  }

  lemma {:induction false} NothingAfterNewest(tokens: seq<nat>, isSystem: seq<bool>, i: nat)
    requires |tokens| == |isSystem| && i <= |tokens|
    requires forall j :: i <= j < |tokens| ==> isSystem[j]
    ensures Cost(tokens, isSystem, false, i) == 0
    decreases |tokens| - i
  {
    if i < |tokens| {
      NothingAfterNewest(tokens, isSystem, i + 1);
    }
  }

  /** What is kept of the conversation fits the room exactly when the newest message alone does. */
  lemma {:induction false} FitsUnlessNewestIsTooLarge(tokens: seq<nat>, isSystem: seq<bool>, budget: nat)
    requires |tokens| == |isSystem|
    ensures KeptCost(tokens, isSystem, budget, 0) <= Room(tokens, isSystem, budget)
            <==> forall j :: 0 <= j < |tokens| && IsNewestOther(isSystem, j) ==>
                               tokens[j] <= Room(tokens, isSystem, budget)
  {
    if forall j :: 0 <= j < |tokens| && IsNewestOther(isSystem, j) ==> tokens[j] <= Room(tokens, isSystem, budget) {
      KeptCostFits(tokens, isSystem, budget, 0);
    } else {
      var j :| 0 <= j < |tokens| && IsNewestOther(isSystem, j) && tokens[j] > Room(tokens, isSystem, budget);
      KeptCostHolds(tokens, isSystem, budget, 0, j);
    }
  }

  lemma {:induction false} KeptCostHolds(tokens: seq<nat>, isSystem: seq<bool>, budget: nat, i: nat, j: nat)
    requires |tokens| == |isSystem| && i <= j < |tokens|
    requires !isSystem[j] && Keeps(tokens, isSystem, budget, j)
    ensures tokens[j] <= KeptCost(tokens, isSystem, budget, i)
    decreases j - i
  {
    if i < j {
      KeptCostHolds(tokens, isSystem, budget, i + 1, j);
    }
  }

  /** A larger budget never drops what a smaller one kept. */
  lemma {:induction false} LargerBudgetKeepsMore(tokens: seq<nat>, isSystem: seq<bool>, small: nat, large: nat, i: nat)
    requires |tokens| == |isSystem| && i < |tokens| && small <= large
    requires Keeps(tokens, isSystem, small, i)
    ensures Keeps(tokens, isSystem, large, i)
  {
  }

  // ----- the budget itself -----

  /** Tokens of the chosen messages. */
  ghost function Sum(tokens: seq<nat>, chosen: seq<nat>): nat
    requires forall k :: 0 <= k < |chosen| ==> chosen[k] < |tokens|
  {
    if chosen == [] then 0 else tokens[chosen[0]] + Sum(tokens, chosen[1..])
  }

  /** `chosen` lists, in order, the messages that meet a condition. */
  ghost predicate Lists(tokens: seq<nat>, chosen: seq<nat>, meets: nat -> bool) {
    Increasing(chosen) && forall j: nat :: j in chosen <==> j < |tokens| && meets(j)
  }

  ghost function SumWhere(tokens: seq<nat>, meets: nat -> bool, i: nat): nat
    requires i <= |tokens|
    decreases |tokens| - i
  {
    if i == |tokens| then 0 else (if meets(i) then tokens[i] else 0) + SumWhere(tokens, meets, i + 1)
  }

  lemma {:induction false} ListedInRange(tokens: seq<nat>, chosen: seq<nat>, meets: nat -> bool)
    requires Lists(tokens, chosen, meets)
    ensures forall k :: 0 <= k < |chosen| ==> chosen[k] < |tokens|
  {
    forall k | 0 <= k < |chosen| ensures chosen[k] < |tokens| {
      assert chosen[k] in chosen;
    }
  }

  lemma {:induction false} SumFrom(tokens: seq<nat>, chosen: seq<nat>, meets: nat -> bool, i: nat)
    requires i <= |tokens| && Increasing(chosen)
    requires forall j: nat :: j in chosen <==> i <= j < |tokens| && meets(j)
    ensures forall k :: 0 <= k < |chosen| ==> chosen[k] < |tokens|
    ensures Sum(tokens, chosen) == SumWhere(tokens, meets, i)
    decreases |tokens| - i
  {
    assert forall k :: 0 <= k < |chosen| ==> chosen[k] in chosen;
    if i < |tokens| {
      if meets(i) {
        assert i in chosen && chosen[0] in chosen;
        assert chosen == [i] + chosen[1..];
        SumFrom(tokens, chosen[1..], meets, i + 1);
      } else {
        SumFrom(tokens, chosen, meets, i + 1);
      }
    }
  }

  /** Sums of disjoint conditions add up. */
  lemma {:induction false} SumOfBoth(tokens: seq<nat>, a: nat -> bool, b: nat -> bool, both: nat -> bool, i: nat)
    requires i <= |tokens|
    requires forall j :: i <= j < |tokens| ==> both(j) == (a(j) || b(j)) && !(a(j) && b(j))
    ensures SumWhere(tokens, both, i) == SumWhere(tokens, a, i) + SumWhere(tokens, b, i)
    decreases |tokens| - i
  {
    if i < |tokens| {
      SumOfBoth(tokens, a, b, both, i + 1);
    }
  }

  lemma {:induction false} CostIsSum(tokens: seq<nat>, isSystem: seq<bool>, system: bool, meets: nat -> bool, i: nat)
    requires |tokens| == |isSystem| && i <= |tokens|
    requires forall j :: i <= j < |tokens| ==> meets(j) == (isSystem[j] == system)
    ensures SumWhere(tokens, meets, i) == Cost(tokens, isSystem, system, i)
    decreases |tokens| - i
  {
    if i < |tokens| {
      CostIsSum(tokens, isSystem, system, meets, i + 1);
    }
  }

  lemma {:induction false} KeptCostIsSum(tokens: seq<nat>, isSystem: seq<bool>, budget: nat, meets: nat -> bool, i: nat)
    requires |tokens| == |isSystem| && i <= |tokens|
    requires forall j :: i <= j < |tokens| ==> meets(j) == (!isSystem[j] && Keeps(tokens, isSystem, budget, j))
    ensures SumWhere(tokens, meets, i) == KeptCost(tokens, isSystem, budget, i)
    decreases |tokens| - i
  {
    if i < |tokens| {
      KeptCostIsSum(tokens, isSystem, budget, meets, i + 1);
    }
  }

  lemma {:induction false} SumOfNone(tokens: seq<nat>, meets: nat -> bool, i: nat)
    requires i <= |tokens| && forall j :: i <= j < |tokens| ==> !meets(j)
    ensures SumWhere(tokens, meets, i) == 0
    decreases |tokens| - i
  {
    if i < |tokens| {
      SumOfNone(tokens, meets, i + 1);
    }
  }

  lemma {:induction false} NewestAlone(tokens: seq<nat>, isSystem: seq<bool>, meets: nat -> bool, i: nat, room: nat)
    requires |tokens| == |isSystem| && i <= |tokens|
    requires forall j :: i <= j < |tokens| ==> meets(j) == IsNewestOther(isSystem, j)
    ensures SumWhere(tokens, meets, i) <= room
            <==> forall j :: i <= j < |tokens| && IsNewestOther(isSystem, j) ==> tokens[j] <= room
    decreases |tokens| - i
  {
    if i < |tokens| {
      NewestAlone(tokens, isSystem, meets, i + 1, room);
      if meets(i) {
        SumOfNone(tokens, meets, i + 1);
      }
    }
  }

  /**
    What is kept fits the budget exactly if the system messages and the newest other one do: these are never
    dropped, and beyond them nothing is kept that does not fit.
   */
  lemma {:induction false} FitsTheBudgetUnlessTheLeastDoesNot(tokens: seq<nat>, isSystem: seq<bool>, budget: nat,
                                                              kept: seq<nat>, least: seq<nat>)
    requires |tokens| == |isSystem|
    requires Lists(tokens, kept, (i: nat) => i < |tokens| && Keeps(tokens, isSystem, budget, i))
    requires Lists(tokens, least, (i: nat) => i < |tokens| && (isSystem[i] || IsNewestOther(isSystem, i)))
    ensures (forall k :: 0 <= k < |kept| ==> kept[k] < |tokens|)
            && (forall k :: 0 <= k < |least| ==> least[k] < |tokens|)
            && (Sum(tokens, kept) <= budget <==> Sum(tokens, least) <= budget)
  {
    var keeps := (i: nat) => i < |tokens| && Keeps(tokens, isSystem, budget, i);
    var stays := (i: nat) => i < |tokens| && (isSystem[i] || IsNewestOther(isSystem, i));
    var system := (i: nat) => i < |tokens| && isSystem[i];
    var other := (i: nat) => i < |tokens| && !isSystem[i] && Keeps(tokens, isSystem, budget, i);
    var newest := (i: nat) => IsNewestOther(isSystem, i);
    SumFrom(tokens, kept, keeps, 0);
    SumFrom(tokens, least, stays, 0);
    SumOfBoth(tokens, system, other, keeps, 0);
    SumOfBoth(tokens, system, newest, stays, 0);
    CostIsSum(tokens, isSystem, true, system, 0);
    KeptCostIsSum(tokens, isSystem, budget, other, 0);
    NewestAlone(tokens, isSystem, newest, 0, Room(tokens, isSystem, budget));
    FitsUnlessNewestIsTooLarge(tokens, isSystem, budget);
  }

  lemma {:induction false} SuffixWeighs(tokens: seq<nat>, isSystem: seq<bool>, meets: nat -> bool, i: nat, j: nat)
    requires |tokens| == |isSystem| && i <= |tokens| && j <= |tokens|
    requires forall k :: i <= k < |tokens| && (isSystem[k] || j <= k) ==> meets(k)
    ensures Cost(tokens, isSystem, true, i) + Cost(tokens, isSystem, false, if i < j then j else i)
            <= SumWhere(tokens, meets, i)
    decreases |tokens| - i
  {
    if i < |tokens| {
      SuffixWeighs(tokens, isSystem, meets, i + 1, j);
    }
  }

  /** Whatever choice holds the system messages and a suffix of the rest and fits the budget, all of it is kept. */
  lemma {:induction false} EveryFittingChoiceIsKept(tokens: seq<nat>, isSystem: seq<bool>, budget: nat,
                                                    chosen: seq<nat>, i: nat)
    requires |tokens| == |isSystem| && Increasing(chosen)
    requires forall k :: 0 <= k < |chosen| ==> chosen[k] < |tokens|
    requires forall k: nat :: k < |tokens| && isSystem[k] ==> k in chosen
    requires forall k: nat, l: nat :: k in chosen && !isSystem[k] && k <= l < |tokens| ==> l in chosen
    requires Sum(tokens, chosen) <= budget && i in chosen
    ensures Keeps(tokens, isSystem, budget, i)
  {
    var meets := (k: nat) => k in chosen;
    SumFrom(tokens, chosen, meets, 0);
    if !isSystem[i] {
      SuffixWeighs(tokens, isSystem, meets, 0, i);
    }
  }
}
