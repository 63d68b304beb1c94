// Keeping jobs hidden (esp32-embedder/worker/worker.c:408-455) as values: which are asked about, and what a
// reply makes of them.
module WorkerVisibility {
  import opened Results
  import opened Sqs
  import opened WorkerPool

  predicate Stale(j: Job) {
    j.state.Pending? && j.visibleUntil == -1
  }

  // What becomes of a job a call asked to hide for longer: hidden so if the call worked and the entry did;
  // if only the call worked, a pending one may be someone else's now.
  function Asked(j: Job, rc: int, ok: bool, all: bool, until: int): Job {
    if rc == 0 && ok then j.(visibleUntil := until)
    else if rc == 0 && j.state.Pending? && !all then j.(visibleUntil := -1)
    else j
  }

  lemma AskedTouches(j: Job, rc: int, ok: bool, all: bool, until: int)
    ensures var done := Asked(j, rc, ok, all, until);
      done == j.(visibleUntil := done.visibleUntil, deleteTries := j.deleteTries)
  {
  }

  // If the call worked, what it took is hidden till then; of what it did not, a pending job may be someone else's,
  // unless all were asked about. A call that failed changes nothing.
  lemma AskedMeans(was: seq<Job>, now: seq<Job>, idx: seq<nat>, rc: int, ok: seq<bool>, all: bool, until: int)
    requires |now| == |was| && |ok| == |idx| && forall b :: 0 <= b < |idx| ==> idx[b] < |was|
    requires forall b :: 0 <= b < |idx| ==> now[idx[b]] == Asked(was[idx[b]], rc, ok[b], all, until)
    requires forall i :: 0 <= i < |now| && i !in idx ==> now[i] == was[i]
    ensures rc == 0 ==> forall b :: 0 <= b < |idx| && ok[b] ==> now[idx[b]] == was[idx[b]].(visibleUntil := until)
    ensures rc == 0 ==> forall b :: 0 <= b < |idx| && !ok[b] ==>
      now[idx[b]] == if was[idx[b]].state.Pending? && !all then was[idx[b]].(visibleUntil := -1) else was[idx[b]]
    ensures rc != 0 ==> now == was
  {
    if rc != 0 {
      forall i | 0 <= i < |now|
        ensures now[i] == was[i]
      {
        if i in idx {
          var b :| 0 <= b < |idx| && idx[b] == i;
        }
      }
    }
  }

  lemma OnlyShifted(was: seq<Job>, now: seq<Job>, idx: seq<nat>, rc: int, ok: seq<bool>, all: bool, until: int)
    requires |now| == |was| && |ok| == |idx| && forall b :: 0 <= b < |idx| ==> idx[b] < |was|
    requires forall b :: 0 <= b < |idx| ==> now[idx[b]] == Asked(was[idx[b]], rc, ok[b], all, until)
    requires forall i :: 0 <= i < |now| && i !in idx ==> now[i] == was[i]
    ensures Shifted(was, now)
  {
    forall i | 0 <= i < |now|
      ensures now[i] == was[i].(visibleUntil := now[i].visibleUntil)
    {
      if i in idx {
        var b :| 0 <= b < |idx| && idx[b] == i;
      }
    }
  }

  // A job's times and tries are nobody else's business.
  lemma TouchKeeps(pool: seq<Job>, i: nat, done: Job, q: Queues, model: Model)
    requires PoolOk(pool, q, model) && i < |pool|
    requires done == pool[i].(visibleUntil := done.visibleUntil, deleteTries := done.deleteTries)
    requires || done.deleteTries == pool[i].deleteTries
             || (done.state.Deleting? && (done.deleteTries < 0 ==> pool[i].deleteTries < 0 || DeleteAsked(q, done.m.receipt)))
    ensures PoolOk(pool[i := done], q, model)
    ensures PendingTokens(pool[i := done]) == PendingTokens(pool) && PendingSet(pool[i := done]) == PendingSet(pool)
  {
    hide ResultOf, PendingTokens, PendingSet, DeleteAsked;
    assert JobOk(pool[i], q, model);
    TokensUpdate(pool, i, done);
    UpdateKeeps(pool, i, done, q, model);
  }

  predicate Wanted(j: Job, all: bool, t: int) {
    if all then j.state.Pending? else j.visibleUntil < t + EXTEND_HORIZON
  }

  // Nothing but times has changed.
  predicate Shifted(was: seq<Job>, now: seq<Job>) {
    |now| == |was| && forall i :: 0 <= i < |now| ==> now[i] == was[i].(visibleUntil := now[i].visibleUntil)
  }

  // Every pending job is hidden until then, as far as the worker can tell.
  predicate Hidden(pool: seq<Job>, until: int) {
    forall i :: 0 <= i < |pool| && pool[i].state.Pending? ==> pool[i].visibleUntil >= until
  }

  lemma AllHidden(was: seq<Job>, now: seq<Job>, t: int, seconds: nat)
    requires seconds >= EXTEND_HORIZON && t > 0
    requires forall j :: j in now ==> j in was && !(j.state.Pending? && j.visibleUntil == -1)
    requires forall i :: 0 <= i < |was| && was[i].state.Pending? ==>
      !Wanted(was[i], false, t) || was[i].visibleUntil == t + seconds || was[i].visibleUntil == -1
    ensures Hidden(now, t + EXTEND_HORIZON)
  {
    forall i | 0 <= i < |now| && now[i].state.Pending?
      ensures now[i].visibleUntil >= t + EXTEND_HORIZON
    {
      assert now[i] in now;
      var k :| 0 <= k < |was| && was[k] == now[i];
    }
  }

  lemma SameShifted(pool: seq<Job>)
    ensures Shifted(pool, pool)
  {
  }

  lemma ShiftedOn(a: seq<Job>, b: seq<Job>, c: seq<Job>)
    requires Shifted(a, b) && Shifted(b, c)
    ensures Shifted(a, c)
  {
  }

  // Whatever is asked and answered, only pending jobs leave: the results are those there were.
  lemma ResultsStay(was: seq<Job>, mid: seq<Job>, now: seq<Job>)
    requires Shifted(was, mid) && forall j :: j in now <==> j in mid && !Stale(j)
    ensures Undelivered(now) == Undelivered(was)
    ensures (exists i :: 0 <= i < |now| && !now[i].state.Pending?) <==> (exists i :: 0 <= i < |was| && !was[i].state.Pending?)
  {
    forall i | 0 <= i < |was| && !was[i].state.Pending?
      ensures exists k :: 0 <= k < |now| && now[k].state == was[i].state && now[k].m == was[i].m
    {
      assert mid[i] in now;
    }
    forall k | 0 <= k < |now|
      ensures exists i :: 0 <= i < |was| && now[k].state == was[i].state && now[k].m == was[i].m
    {
      assert now[k] in mid;
    }
  }
}
