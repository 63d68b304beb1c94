// Which waiting messages go into the next pass (esp32-embedder/worker/batch.c): the oldest, and then in
// order whatever still fits, until the pass holds its target.
module BatchPlan {

  function PlanFrom(lens: seq<int>, i: nat, total: int, cap: int, target: int): (picks: seq<nat>)
    ensures forall k :: 0 <= k < |picks| ==> i <= picks[k] < |lens|
    ensures forall k, l :: 0 <= k < l < |picks| ==> picks[k] < picks[l]
    decreases |lens| - i
  {
    if i >= |lens| || total >= target || total >= cap then []
    else if lens[i] <= cap - total then [i] + PlanFrom(lens, i + 1, total + lens[i], cap, target)
    else PlanFrom(lens, i + 1, total, cap, target)
  }

  function Plan(lens: seq<int>, cap: int, target: int): (picks: seq<nat>)
    ensures forall k :: 0 <= k < |picks| ==> picks[k] < |lens|
    ensures forall k, l :: 0 <= k < l < |picks| ==> picks[k] < picks[l]
    ensures lens != [] ==> picks != [] && picks[0] == 0
  {
    if lens == [] then [] else [0] + PlanFrom(lens, 1, lens[0], cap, target)
  }

  method BatchPlan(lens: seq<int>, cap: int, target: int, pick: array<nat>) returns (np: nat)
    requires |lens| <= pick.Length
    modifies pick
    ensures np <= |lens| && pick[..np] == Plan(lens, cap, target) && pick[np..] == old(pick[np..])
  {
    np := 0;
    if |lens| == 0 { return; }
    var total := lens[0];
    pick[0] := 0;
    np := 1;
    var i := 1;
    while i < |lens| && total < target && total < cap
      invariant 1 <= i <= |lens| && 1 <= np <= i
      invariant pick[..np] + PlanFrom(lens, i, total, cap, target) == Plan(lens, cap, target)
      invariant pick[np..] == old(pick[np..])
    {
      if lens[i] <= cap - total {
        ghost var was := pick[..np];
        pick[np] := i;
        assert pick[..np + 1] == was + [i];
        np := np + 1;
        total := total + lens[i];
      }
      i := i + 1;
    }
  }

  // ---- what the plan promises ------------------------------------------------------------------------

  // The tokens of the picks before i.
  function Taken(lens: seq<int>, picks: seq<nat>, i: nat): int
    requires forall k :: 0 <= k < |picks| ==> picks[k] < |lens|
  {
    if picks == [] then 0 else (if picks[0] < i then lens[picks[0]] else 0) + Taken(lens, picks[1..], i)
  }

  predicate Joins(lens: seq<int>, taken: int, i: nat, cap: int, target: int)
    requires i < |lens|
  {
    taken < target && taken < cap && lens[i] <= cap - taken
  }

  lemma {:induction false} NoneBefore(lens: seq<int>, picks: seq<nat>, i: nat)
    requires forall k :: 0 <= k < |picks| ==> i <= picks[k] < |lens|
    ensures Taken(lens, picks, i) == 0
    decreases |picks|
  {
    if picks != [] {
      NoneBefore(lens, picks[1..], i);
    }
  }

  lemma TakenCons(lens: seq<int>, p: nat, rest: seq<nat>, i: nat)
    requires p < |lens| && forall k :: 0 <= k < |rest| ==> rest[k] < |lens|
    ensures Taken(lens, [p] + rest, i) == (if p < i then lens[p] else 0) + Taken(lens, rest, i)
  {
    assert ([p] + rest)[1..] == rest;
  }

  lemma {:induction false} PlanFromIsGreedy(lens: seq<int>, i: nat, total: int, cap: int, target: int, j: nat)
    requires i <= j < |lens| && forall k :: 0 <= k < |lens| ==> lens[k] >= 0
    ensures var picks := PlanFrom(lens, i, total, cap, target);
      j in picks <==> Joins(lens, total + Taken(lens, picks, j), j, cap, target)
    decreases |lens| - i
  {
    hide Taken;
    var picks := PlanFrom(lens, i, total, cap, target);
    if total >= target || total >= cap {
      NoneBefore(lens, picks, j);
    } else if lens[i] <= cap - total {
      var rest := PlanFrom(lens, i + 1, total + lens[i], cap, target);
      TakenCons(lens, i, rest, j);
      if j == i {
        NoneBefore(lens, rest, i);
      } else {
        PlanFromIsGreedy(lens, i + 1, total + lens[i], cap, target, j);
      }
    } else if j == i {
      NoneBefore(lens, picks, i);
    } else {
      PlanFromIsGreedy(lens, i + 1, total, cap, target, j);
    }
  }

  // Exactly which messages go: the oldest, and each other one that, when its turn comes, still fits under
  // the cap beside those already taken, while they are short of the target. One that does not fit is
  // passed over, not a place to stop.
  lemma PlanIsGreedy(lens: seq<int>, cap: int, target: int, j: nat)
    requires j < |lens| && forall k :: 0 <= k < |lens| ==> lens[k] >= 0
    ensures var picks := Plan(lens, cap, target);
      j in picks <==> j == 0 || Joins(lens, Taken(lens, picks, j), j, cap, target)
  {
    var rest := PlanFrom(lens, 1, lens[0], cap, target);
    assert Plan(lens, cap, target)[1..] == rest;
    if j > 0 {
      PlanFromIsGreedy(lens, 1, lens[0], cap, target, j);
    }
  }

  lemma {:induction false} PlanFromFits(lens: seq<int>, i: nat, total: int, cap: int, target: int, limit: nat)
    requires i <= |lens| <= limit && total <= cap
    ensures total + Taken(lens, PlanFrom(lens, i, total, cap, target), limit) <= cap
    decreases |lens| - i
  {
    if i >= |lens| || total >= target || total >= cap {
    } else if lens[i] <= cap - total {
      var rest := PlanFrom(lens, i + 1, total + lens[i], cap, target);
      assert ([i] + rest)[1..] == rest;
      PlanFromFits(lens, i + 1, total + lens[i], cap, target, limit);
    } else {
      PlanFromFits(lens, i + 1, total, cap, target, limit);
    }
  }

  // A pass keeps to the cap, if no message is over it by itself.
  lemma PlanFits(lens: seq<int>, cap: int, target: int)
    requires lens != [] && lens[0] <= cap
    ensures Taken(lens, Plan(lens, cap, target), |lens|) <= cap
  {
    var rest := PlanFrom(lens, 1, lens[0], cap, target);
    assert Plan(lens, cap, target)[1..] == rest;
    PlanFromFits(lens, 1, lens[0], cap, target, |lens|);
  }

  lemma {:induction false} PlanFromSkips(lens: seq<int>, i: nat, total: int, cap: int, target: int, k: nat)
    requires total >= 0 && forall j :: 0 <= j < |lens| ==> lens[j] >= 0
    requires k < |PlanFrom(lens, i, total, cap, target)|
    ensures lens[PlanFrom(lens, i, total, cap, target)[k]] <= cap - total
    decreases |lens| - i
  {
    if lens[i] <= cap - total {
      if k > 0 {
        PlanFromSkips(lens, i + 1, total + lens[i], cap, target, k - 1);
      }
    } else {
      PlanFromSkips(lens, i + 1, total, cap, target, k);
    }
  }

  // A message over the cap goes only as the oldest.
  lemma OverCapStays(lens: seq<int>, cap: int, target: int, k: nat)
    requires forall j :: 0 <= j < |lens| ==> lens[j] >= 0
    requires 0 < k < |Plan(lens, cap, target)|
    ensures lens[Plan(lens, cap, target)[k]] <= cap
  {
    PlanFromSkips(lens, 1, lens[0], cap, target, k - 1);
  }

  lemma {:induction false} TakenSnoc(lens: seq<int>, picks: seq<nat>, p: nat, i: nat)
    requires p < |lens| && p < i && forall k :: 0 <= k < |picks| ==> picks[k] < |lens|
    ensures Taken(lens, picks + [p], i) == Taken(lens, picks, i) + lens[p]
    decreases |picks|
  {
    if picks == [] {
      assert ([] + [p])[1..] == [];
    } else {
      assert (picks + [p])[1..] == picks[1..] + [p];
      TakenSnoc(lens, picks[1..], p, i);
    }
  }
}
