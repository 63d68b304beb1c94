// One pass (esp32-embedder/worker/worker.c:498-598) as values: the jobs chosen, what they are packed into, and
// whose vectors come back.
module WorkerPass {
  import opened Results
  import opened Sqs
  import opened WorkerPool
  import opened WorkerBoard
  import opened WorkerVisibility
  import opened WorkerWaiting
  import Batch = BatchPlan

  // vector_ok
  method VectorOk(model: Model, v: seq<Bits>) returns (ok: bool)
    ensures ok <==> Acceptable(model, v)
  {
    var ss := 0.0;
    var i := 0;
    while i < |v|
      invariant 0 <= i <= |v| && ss == SumOfSquares(model, v[..i])
      invariant forall k :: 0 <= k < i ==> Finite(v[k])
    {
      if !Finite(v[i]) { return false; }
      assert v[..i + 1][..i] == v[..i];
      ss := ss + model.value(v[i]) * model.value(v[i]);
      i := i + 1;
    }
    assert v[..i] == v;
    return ss >= 100.0 && ss <= 900.0;
  }

  // A pass as it was: the messages it carried, their ids, and until when each was hidden, as far as the worker
  // could tell.
  datatype Carried = Carried(m: Message, ids: seq<int>, until: int)

  // At most 512 tokens; nothing on its third delivery; what is on its second, alone.
  predicate PassOk(pass: seq<Carried>) {
    && pass != [] && CarriedTokens(pass) <= 512
    && forall k :: 0 <= k < |pass| ==> pass[k].m.receives < 3 && (pass[k].m.receives == 2 ==> |pass| == 1)
  }

  function CarriedTokens(pass: seq<Carried>): nat {
    if pass == [] then 0 else CarriedTokens(pass[..|pass| - 1]) + |pass[|pass| - 1].ids|
  }

  // The first pending jobs of the pool, in order.
  ghost predicate Oldest(pool: seq<Job>, pend: seq<nat>) {
    && |pend| <= PASS_JOBS
    && (forall k :: 0 <= k < |pend| ==> pend[k] < |pool| && pool[pend[k]].state.Pending?)
    && (forall k, l :: 0 <= k < l < |pend| ==> pend[k] < pend[l])
    && (forall i :: 0 <= i < |pool| && pool[i].state.Pending? ==> i in pend || (|pend| == PASS_JOBS && pend[PASS_JOBS - 1] < i))
  }

  // A job that must go alone counts as too long to join.
  function PlanLens(pool: seq<Job>, pend: seq<nat>): (lens: seq<int>)
    requires forall k :: 0 <= k < |pend| ==> pend[k] < |pool|
    ensures |lens| == |pend|
    ensures forall k :: 0 <= k < |pend| ==> lens[k] == if pool[pend[k]].solo then MAX_TOKENS + 1 else pool[pend[k]].nIds
  {
    if pend == [] then []
    else
      var j := pool[pend[|pend| - 1]];
      PlanLens(pool, pend[..|pend| - 1]) + [if j.solo then MAX_TOKENS + 1 else j.nIds]
  }

  function Picks(pool: seq<Job>, pend: seq<nat>, target: int): (picks: seq<nat>)
    requires pend != [] && forall k :: 0 <= k < |pend| ==> pend[k] < |pool|
    ensures forall k :: 0 <= k < |picks| ==> picks[k] < |pend|
    ensures forall k, l :: 0 <= k < l < |picks| ==> picks[k] < picks[l]
    ensures picks != [] && picks[0] == 0
  {
    if pool[pend[0]].solo then [0] else Batch.Plan(PlanLens(pool, pend), MAX_TOKENS, target)
  }

  lemma NoLens(pool: seq<Job>)
    ensures PlanLens(pool, []) == []
  {
  }

  lemma LensMore(pool: seq<Job>, pend: seq<nat>, k: nat)
    requires k < |pend| && forall i :: 0 <= i < |pend| ==> pend[i] < |pool|
    ensures PlanLens(pool, pend[..k + 1])
      == PlanLens(pool, pend[..k]) + [if pool[pend[k]].solo then MAX_TOKENS + 1 else pool[pend[k]].nIds]
  {
    assert pend[..k + 1][..k] == pend[..k];
  }

  // Pending jobs, each once, in order.
  ghost predicate Going(pool: seq<Job>, chosen: seq<nat>) {
    && (forall k :: 0 <= k < |chosen| ==> chosen[k] < |pool| && pool[chosen[k]].state.Pending?)
    && (forall k, l :: 0 <= k < l < |chosen| ==> chosen[k] < chosen[l])
  }

  function IdsOf(pool: seq<Job>, chosen: seq<nat>): (segments: seq<seq<int>>)
    requires forall k :: 0 <= k < |chosen| ==> chosen[k] < |pool|
    ensures |segments| == |chosen| && forall k :: 0 <= k < |chosen| ==> segments[k] == pool[chosen[k]].ids
  {
    if chosen == [] then [] else IdsOf(pool, chosen[..|chosen| - 1]) + [pool[chosen[|chosen| - 1]].ids]
  }

  lemma IdsOfSnoc(pool: seq<Job>, chosen: seq<nat>, i: nat)
    requires i < |pool| && forall k :: 0 <= k < |chosen| ==> chosen[k] < |pool|
    ensures var more := IdsOf(pool, chosen + [i]);
      && Concat(more) == Concat(IdsOf(pool, chosen)) + pool[i].ids
      && Lengths(more) == Lengths(IdsOf(pool, chosen)) + [|pool[i].ids|]
  {
    assert (chosen + [i])[..|chosen|] == chosen;
    var more := IdsOf(pool, chosen + [i]);
    assert more[..|chosen|] == IdsOf(pool, chosen);
  }

  lemma NoIds(pool: seq<Job>)
    ensures Concat(IdsOf(pool, [])) == [] && Lengths(IdsOf(pool, [])) == []
  {
  }

  function ReceiptSet(pool: seq<Job>, chosen: seq<nat>): set<nat>
    requires forall k :: 0 <= k < |chosen| ==> chosen[k] < |pool|
  {
    set k | 0 <= k < |chosen| :: pool[chosen[k]].m.receipt
  }

  lemma NoReceipts(pool: seq<Job>)
    ensures ReceiptSet(pool, []) == {}
  {
  }

  lemma ReceiptsMore(pool: seq<Job>, chosen: seq<nat>, k: nat)
    requires k < |chosen| && forall l :: 0 <= l < |chosen| ==> chosen[l] < |pool|
    ensures ReceiptSet(pool, chosen[..k + 1]) == ReceiptSet(pool, chosen[..k]) + {pool[chosen[k]].m.receipt}
  {
    var more := chosen[..k + 1];
    assert more == chosen[..k] + [chosen[k]];
    forall r | r in ReceiptSet(pool, chosen[..k]) + {pool[chosen[k]].m.receipt}
      ensures r in ReceiptSet(pool, more)
    {
      if r == pool[chosen[k]].m.receipt {
        assert more[k] == chosen[k];
      } else {
        var l :| 0 <= l < k && pool[chosen[..k][l]].m.receipt == r;
        assert more[l] == chosen[..k][l];
      }
    }
  }

  function Select(pend: seq<nat>, picks: seq<nat>): (chosen: seq<nat>)
    requires forall k :: 0 <= k < |picks| ==> picks[k] < |pend|
    ensures |chosen| == |picks| && forall k :: 0 <= k < |picks| ==> chosen[k] == pend[picks[k]]
  {
    if picks == [] then [] else Select(pend, picks[..|picks| - 1]) + [pend[picks[|picks| - 1]]]
  }

  function Record(pool: seq<Job>, chosen: seq<nat>): (pass: seq<Carried>)
    requires forall k :: 0 <= k < |chosen| ==> chosen[k] < |pool|
    ensures |pass| == |chosen|
    ensures forall k :: 0 <= k < |pass| ==> pass[k] == Carried(pool[chosen[k]].m, pool[chosen[k]].ids, pool[chosen[k]].visibleUntil)
  {
    if chosen == [] then []
    else
      var j := pool[chosen[|chosen| - 1]];
      Record(pool, chosen[..|chosen| - 1]) + [Carried(j.m, j.ids, j.visibleUntil)]
  }

  // A vector of each message it carries is one that Cal takes.
  predicate AllAcceptable(model: Model, pass: seq<Carried>) {
    forall k :: 0 <= k < |pass| ==> Acceptable(model, model.embed(pass[k].ids))
  }

  lemma AcceptableRecord(model: Model, pool: seq<Job>, chosen: seq<nat>)
    requires forall k :: 0 <= k < |chosen| ==> chosen[k] < |pool|
    ensures AllAcceptable(model, Record(pool, chosen)) <==>
      forall k :: 0 <= k < |chosen| ==> Acceptable(model, model.embed(pool[chosen[k]].ids))
  {
    hide Acceptable, Record;
    var pass := Record(pool, chosen);
    assert forall k :: 0 <= k < |pass| ==> pass[k].ids == pool[chosen[k]].ids;
  }

  // Every message it carries is hidden till then.
  predicate HeldUntil(pass: seq<Carried>, t: int) {
    forall k :: 0 <= k < |pass| ==> pass[k].until >= t
  }

  lemma RecordHeld(pool: seq<Job>, chosen: seq<nat>, t: int)
    requires Going(pool, chosen) && Hidden(pool, t)
    ensures HeldUntil(Record(pool, chosen), t)
  {
  }

  lemma HeldLonger(pass: seq<Carried>, t: int, from: int)
    requires HeldUntil(pass, t) && from <= t
    ensures HeldUntil(pass, from)
  {
  }

  lemma AllHaveIds(pool: seq<Job>, q: Queues, model: Model)
    requires PoolOk(pool, q, model)
    ensures forall i :: 0 <= i < |pool| && pool[i].state.Pending? ==> PendingOk(pool[i], model) && pool[i].ids != []
  {
    hide ResultOf;
    assert forall i :: 0 <= i < |pool| ==> JobOk(pool[i], q, model);
  }

  predicate AllPassesOk(passes: seq<seq<Carried>>) {
    forall k :: 0 <= k < |passes| ==> PassOk(passes[k])
  }

  // Pending jobs, each once, in order, that one pass can carry and may.
  ghost predicate FitsPass(pool: seq<Job>, chosen: seq<nat>) {
    && Going(pool, chosen) && |chosen| <= PASS_JOBS
    && Total(Lengths(IdsOf(pool, chosen))) <= MAX_TOKENS && PassOk(Record(pool, chosen))
    && forall k :: 0 <= k < |chosen| ==> pool[chosen[k]].nIds == |pool[chosen[k]].ids|
  }

  // The jobs are those the planner picks of the oldest pending ones.
  ghost predicate AsPlanned(pool: seq<Job>, target: int, chosen: seq<nat>) {
    exists pend :: pend != [] && Oldest(pool, pend) && chosen == Select(pend, Picks(pool, pend, target))
  }

  // No pending job is before it.
  ghost predicate FirstPending(pool: seq<Job>, first: nat) {
    && first < |pool| && pool[first].state.Pending?
    && forall i :: 0 <= i < |pool| && pool[i].state.Pending? ==> pool[first].m.receipt <= pool[i].m.receipt
  }

  lemma NonePending(pool: seq<Job>, pend: seq<nat>)
    requires Oldest(pool, pend) && pend == []
    ensures PendingSet(pool) == {}
  {
  }

  lemma FitsFacts(pool: seq<Job>, chosen: seq<nat>)
    requires FitsPass(pool, chosen)
    ensures Going(pool, chosen) && PassOk(Record(pool, chosen))
    ensures forall k :: 0 <= k < |chosen| ==> pool[chosen[k]].nIds == |pool[chosen[k]].ids|
  {
  }

  function TokensOf(pool: seq<Job>, chosen: seq<nat>): nat
    requires forall k :: 0 <= k < |chosen| ==> chosen[k] < |pool|
  {
    if chosen == [] then 0 else TokensOf(pool, chosen[..|chosen| - 1]) + |pool[chosen[|chosen| - 1]].ids|
  }

  lemma {:induction false} PackedTokens(pool: seq<Job>, chosen: seq<nat>)
    requires forall k :: 0 <= k < |chosen| ==> chosen[k] < |pool|
    ensures Total(Lengths(IdsOf(pool, chosen))) == TokensOf(pool, chosen)
    decreases |chosen|
  {
    if chosen != [] {
      var n := |chosen| - 1;
      PackedTokens(pool, chosen[..n]);
      var ids := IdsOf(pool, chosen);
      assert ids[..n] == IdsOf(pool, chosen[..n]);
      assert Lengths(ids)[..n] == Lengths(ids[..n]);
    }
  }

  lemma {:induction false} RecordTokens(pool: seq<Job>, chosen: seq<nat>)
    requires forall k :: 0 <= k < |chosen| ==> chosen[k] < |pool|
    ensures CarriedTokens(Record(pool, chosen)) == TokensOf(pool, chosen)
    decreases |chosen|
  {
    if chosen != [] {
      var n := |chosen| - 1;
      RecordTokens(pool, chosen[..n]);
      assert Record(pool, chosen)[..n] == Record(pool, chosen[..n]);
    }
  }

  lemma {:induction false} PlannedTokens(pool: seq<Job>, pend: seq<nat>, picks: seq<nat>)
    requires forall k :: 0 <= k < |pend| ==> pend[k] < |pool|
    requires forall k :: 0 <= k < |picks| ==>
      picks[k] < |pend| && !pool[pend[picks[k]]].solo && pool[pend[picks[k]]].nIds == |pool[pend[picks[k]]].ids|
    ensures TokensOf(pool, Select(pend, picks)) == Batch.Taken(PlanLens(pool, pend), picks, |pend|)
    decreases |picks|
  {
    hide PlanLens, Batch.Taken, Select, TokensOf;
    if picks == [] {
      NoneTaken(PlanLens(pool, pend), |pend|);
      assert Select(pend, picks) == [];
      NoTokens(pool);
    } else {
      var n := |picks| - 1;
      PlannedTokens(pool, pend, picks[..n]);
      Batch.TakenSnoc(PlanLens(pool, pend), picks[..n], picks[n], |pend|);
      assert picks == picks[..n] + [picks[n]];
      assert Select(pend, picks) == Select(pend, picks[..n]) + [pend[picks[n]]];
      TokensMore(pool, Select(pend, picks[..n]), pend[picks[n]]);
    }
  }

  lemma NoTokens(pool: seq<Job>)
    ensures TokensOf(pool, []) == 0
  {
  }

  lemma TokensMore(pool: seq<Job>, chosen: seq<nat>, i: nat)
    requires i < |pool| && forall k :: 0 <= k < |chosen| ==> chosen[k] < |pool|
    ensures TokensOf(pool, chosen + [i]) == TokensOf(pool, chosen) + |pool[i].ids|
  {
    assert (chosen + [i])[..|chosen|] == chosen;
  }

  lemma NoneTaken(lens: seq<int>, n: nat)
    ensures Batch.Taken(lens, [], n) == 0
  {
  }

  lemma RecordOk(pool: seq<Job>, chosen: seq<nat>)
    requires Going(pool, chosen) && 0 < |chosen| <= PASS_JOBS && TokensOf(pool, chosen) <= MAX_TOKENS
    requires forall k :: 0 <= k < |chosen| ==>
      && pool[chosen[k]].nIds == |pool[chosen[k]].ids| && pool[chosen[k]].m.receives < RETRIES_RECEIVE
      && (pool[chosen[k]].m.receives == SOLO_RECEIVE ==> |chosen| == 1)
    ensures FitsPass(pool, chosen)
  {
    hide TokensOf, Total, Lengths, IdsOf, CarriedTokens;
    PackedTokens(pool, chosen);
    RecordTokens(pool, chosen);
  }

  // What is chosen fits one pass, and keeps its rules.
  lemma ChosenOk(pool: seq<Job>, pend: seq<nat>, target: int, q: Queues, model: Model)
    requires PoolOk(pool, q, model) && Oldest(pool, pend) && pend != []
    ensures var chosen := Select(pend, Picks(pool, pend, target));
      chosen != [] && FitsPass(pool, chosen) && FirstPending(pool, chosen[0])
  {
    hide PoolOk, TokensOf, PlanLens, FitsPass, FirstPending, Batch.Taken, Batch.Plan, Picks;
    var picks := Picks(pool, pend, target);
    PendingFacts(pool, q, model);
    FirstIs(pool, pend, q, model);
    PicksCount(picks, |pend|);
    if pool[pend[0]].solo {
      LonePick(pool, pend, target);
    } else {
      PlanRules(pool, pend, target);
      PlannedTokens(pool, pend, picks);
    }
    RecordOk(pool, Select(pend, picks));
  }

  // Which jobs go with the oldest: none if it is on its second delivery; or each that is not, when its turn comes,
  // while those already going are short of the target, and with it have no more than 512 tokens.
  lemma PicksMean(pool: seq<Job>, pend: seq<nat>, target: int, k: nat)
    requires k < |pend| && forall i :: 0 <= i < |pend| ==> pend[i] < |pool| && 2 <= pool[pend[i]].nIds <= 512
    ensures var picks := Picks(pool, pend, target);
      var before := Batch.Taken(PlanLens(pool, pend), picks, k);
      k in picks <==>
        k == 0 || (!pool[pend[0]].solo && !pool[pend[k]].solo && before < target && before + pool[pend[k]].nIds <= 512)
  {
    hide Batch.Plan, Batch.Taken, PlanLens;
    if !pool[pend[0]].solo {
      var lens := PlanLens(pool, pend);
      Batch.PlanIsGreedy(lens, 512, target, k);
      TakenSome(lens, Picks(pool, pend, target), k);
      PlanLensAt(pool, pend, k);
    }
  }

  lemma PlanLensAt(pool: seq<Job>, pend: seq<nat>, k: nat)
    requires k < |pend| && forall i :: 0 <= i < |pend| ==> pend[i] < |pool|
    ensures PlanLens(pool, pend)[k] == if pool[pend[k]].solo then 513 else pool[pend[k]].nIds
  {
  }

  lemma {:induction false} TakenSome(lens: seq<int>, picks: seq<nat>, k: nat)
    requires (forall i :: 0 <= i < |picks| ==> picks[i] < |lens|) && forall i :: 0 <= i < |lens| ==> lens[i] >= 0
    ensures Batch.Taken(lens, picks, k) >= 0
    decreases |picks|
  {
    if picks != [] {
      TakenSome(lens, picks[1..], k);
    }
  }

  lemma LonePick(pool: seq<Job>, pend: seq<nat>, target: int)
    requires pend != [] && forall k :: 0 <= k < |pend| ==> pend[k] < |pool|
    requires pool[pend[0]].solo
    ensures var chosen := Select(pend, Picks(pool, pend, target));
      |chosen| == 1 && TokensOf(pool, chosen) == |pool[pend[0]].ids|
  {
    hide Batch.Plan;
    var chosen := Select(pend, Picks(pool, pend, target));
    assert chosen[..0] == [];
  }

  lemma FirstIs(pool: seq<Job>, pend: seq<nat>, q: Queues, model: Model)
    requires PoolOk(pool, q, model) && Oldest(pool, pend) && pend != []
    ensures FirstPending(pool, pend[0])
  {
    hide JobOk;
    forall i | 0 <= i < |pool| && pool[i].state.Pending?
      ensures pend[0] <= i
    {
      if i in pend {
        var k :| 0 <= k < |pend| && pend[k] == i;
      }
    }
  }

  lemma PendingFacts(pool: seq<Job>, q: Queues, model: Model)
    requires PoolOk(pool, q, model)
    ensures forall i :: 0 <= i < |pool| && pool[i].state.Pending? ==>
      && 2 <= |pool[i].ids| == pool[i].nIds <= MAX_TOKENS
      && pool[i].m.receives < RETRIES_RECEIVE && pool[i].solo == (pool[i].m.receives == SOLO_RECEIVE)
  {
    AllHaveIds(pool, q, model);
  }

  lemma {:induction false} PicksCount(picks: seq<nat>, n: nat)
    requires forall k :: 0 <= k < |picks| ==> picks[k] < n
    requires forall k, l :: 0 <= k < l < |picks| ==> picks[k] < picks[l]
    ensures |picks| <= n
    decreases n
  {
    if picks != [] {
      PicksCount(picks[..|picks| - 1], picks[|picks| - 1]);
    }
  }

  // Of a plan that is not for one job alone: no job that must be alone is in it, and it keeps to the cap.
  lemma PlanRules(pool: seq<Job>, pend: seq<nat>, target: int)
    requires pend != [] && forall k :: 0 <= k < |pend| ==> pend[k] < |pool| && pool[pend[k]].nIds <= MAX_TOKENS
    requires !pool[pend[0]].solo
    ensures var picks := Picks(pool, pend, target);
      && (forall k :: 0 <= k < |picks| ==> !pool[pend[picks[k]]].solo)
      && Batch.Taken(PlanLens(pool, pend), picks, |pend|) <= MAX_TOKENS
  {
    hide Batch.Plan, Batch.Taken;
    var lens := PlanLens(pool, pend);
    var picks := Picks(pool, pend, target);
    Batch.PlanFits(lens, MAX_TOKENS, target);
    forall k | 0 <= k < |picks|
      ensures !pool[pend[picks[k]]].solo
    {
      if k > 0 {
        Batch.OverCapStays(lens, MAX_TOKENS, target, k);
      }
    }
  }

  lemma VectorsFit(pool: seq<Job>, chosen: seq<nat>, ids: seq<int>, lens: seq<nat>, vecs: seq<seq<Bits>>, model: Model)
    requires forall k :: 0 <= k < |chosen| ==> chosen[k] < |pool|
    requires ids == Concat(IdsOf(pool, chosen)) && lens == Lengths(IdsOf(pool, chosen)) && |vecs| == |lens|
    requires Total(lens) <= |ids| && forall k :: 0 <= k < |vecs| ==> vecs[k] == model.embed(Segment(ids, lens, k))
    ensures |vecs| == |chosen| && forall k :: 0 <= k < |chosen| ==> vecs[k] == model.embed(pool[chosen[k]].ids)
  {
    hide Segment, Concat, Total;
    forall k | 0 <= k < |chosen|
      ensures vecs[k] == model.embed(pool[chosen[k]].ids)
    {
      SegmentOfConcat(IdsOf(pool, chosen), k);
    }
  }

  lemma OldestGone(was: seq<Job>, chosen: seq<nat>, after: set<nat>)
    requires chosen != [] && FirstPending(was, chosen[0]) && Going(was, chosen)
    requires after <= PendingSet(was) - ReceiptSet(was, chosen)
    ensures Moved(PendingSet(was), after)
  {
    var first := was[chosen[0]].m.receipt;
    assert first in PendingSet(was) && first in ReceiptSet(was, chosen);
    forall r | r in after
      ensures first < r
    {
      var i :| 0 <= i < |was| && was[i].state.Pending? && was[i].m.receipt == r;
    }
  }
}
