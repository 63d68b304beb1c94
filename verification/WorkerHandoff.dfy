// Handing results off (esp32-embedder/worker/worker.c:332-404) as values: which go in the next batch, what the
// replies make of the pool, what is still to try.
module WorkerHandoff {
  import opened Bytes
  import opened Results
  import opened Sqs
  import opened WorkerPool

  predicate AllOk(ok: array<bool>, n: nat)
    requires n <= ok.Length
    reads ok
  {
    forall b :: 0 <= b < n ==> ok[b]
  }

  predicate TooBig(j: Job) {
    j.state.Finished? && |j.result| > MAX_BATCH_BYTES
  }

  predicate DoneWith(j: Job) {
    j.state.Deleting? && (j.deleteTries < 0 || j.deleteTries >= 3)
  }

  // No result is over what one batch may be.
  predicate Sendable(pool: seq<Job>) {
    forall i :: 0 <= i < |pool| && pool[i].state.Finished? ==> |pool[i].result| <= MAX_BATCH_BYTES
  }

  // Nothing but what was taken has changed, and that only from finished to deleting.
  predicate Sent(was: seq<Job>, now: seq<Job>) {
    |now| == |was| && forall i :: 0 <= i < |now| ==>
      now[i] == was[i] || (was[i].state.Finished? && now[i] == was[i].(state := JobState.Deleting))
  }

  // Finished results not tried before, each once, in order.
  predicate Chosen(pool: seq<Job>, idx: seq<nat>, tried: seq<bool>) {
    && |tried| == |pool|
    && (forall b :: 0 <= b < |idx| ==> idx[b] < |pool| && pool[idx[b]].state.Finished? && !tried[idx[b]])
    && (forall b, c :: 0 <= b < c < |idx| ==> idx[b] < idx[c])
  }

  function Bodies(pool: seq<Job>, idx: seq<nat>): (bodies: seq<string>)
    requires forall b :: 0 <= b < |idx| ==> idx[b] < |pool|
    ensures |bodies| == |idx| && forall b :: 0 <= b < |idx| ==> bodies[b] == pool[idx[b]].result
  {
    if idx == [] then [] else Bodies(pool, idx[..|idx| - 1]) + [pool[idx[|idx| - 1]].result]
  }

  // A result not tried yet that a batch of so many bytes has room for.
  predicate Fits(j: Job, tried: bool, total: nat) {
    j.state.Finished? && !tried && total + |j.result| <= MAX_BATCH_BYTES
  }

  // Of the first n jobs, the results not tried yet, each as far as there is room for it.
  function NextBatch(pool: seq<Job>, tried: seq<bool>, n: nat): (idx: seq<nat>)
    requires n <= |pool| == |tried|
    ensures |idx| <= MAX_BATCH && forall b :: 0 <= b < |idx| ==> idx[b] < n
  {
    if n == 0 then []
    else
      var before, j := NextBatch(pool, tried, n - 1), pool[n - 1];
      if |before| < MAX_BATCH && Fits(j, tried[n - 1], Sum(Bodies(pool, before))) then before + [n - 1] else before
  }

  // The next batch, one job on: a result not tried joins where ten places and 256 KiB allow it.
  lemma BatchMeans(pool: seq<Job>, tried: seq<bool>, i: nat)
    requires i < |pool| == |tried|
    ensures NextBatch(pool, tried, 0) == []
    ensures var before, now := NextBatch(pool, tried, i), NextBatch(pool, tried, i + 1);
      var joins := pool[i].state.Finished? && !tried[i] && |before| < 10
                   && Sum(Bodies(pool, before)) + |pool[i].result| <= 262144;
      now == if joins then before + [i] else before
  {
    hide Bodies, Sum;
  }

  lemma BatchOn(pool: seq<Job>, tried: seq<bool>, i: nat)
    requires i < |pool| == |tried|
    ensures var before, j := NextBatch(pool, tried, i), pool[i];
      NextBatch(pool, tried, i + 1) ==
        if |before| < MAX_BATCH && Fits(j, tried[i], Sum(Bodies(pool, before))) then before + [i] else before
  {
    hide Bodies, Sum;
  }

  lemma BatchTakes(pool: seq<Job>, tried: seq<bool>, i: nat)
    requires i < |pool| == |tried| && |NextBatch(pool, tried, i)| < MAX_BATCH
    ensures var idx, now := NextBatch(pool, tried, i), NextBatch(pool, tried, i + 1);
      var total := Sum(Bodies(pool, idx));
      if Fits(pool[i], tried[i], total) then now == idx + [i] && Sum(Bodies(pool, now)) == total + |pool[i].result|
      else now == idx
  {
    hide Bodies, Sum, NextBatch, Fits;
    BatchOn(pool, tried, i);
    BodiesMore(pool, NextBatch(pool, tried, i), i);
  }

  lemma {:induction false} BatchFits(pool: seq<Job>, tried: seq<bool>, n: nat)
    requires n <= |pool| == |tried| && Sendable(pool)
    ensures var idx := NextBatch(pool, tried, n);
      && Chosen(pool, idx, tried) && Sum(Bodies(pool, idx)) <= MAX_BATCH_BYTES
      && (idx == [] ==> forall i :: 0 <= i < n ==> !(pool[i].state.Finished? && !tried[i]))
    decreases n
  {
    hide Bodies, Sum, NextBatch, Chosen;
    NoBodies(pool);
    NoBatch(pool, tried);
    if n > 0 {
      var before := NextBatch(pool, tried, n - 1);
      BatchFits(pool, tried, n - 1);
      BatchOn(pool, tried, n - 1);
      BodiesMore(pool, before, n - 1);
      if pool[n - 1].state.Finished? && !tried[n - 1] {
        ChosenMore(pool, before, tried, n - 1);
      }
    } else {
      NoneChosen(pool, tried);
    }
  }

  lemma NoneChosen(pool: seq<Job>, tried: seq<bool>)
    requires |pool| == |tried|
    ensures Chosen(pool, [], tried)
  {
  }

  lemma ChosenMore(pool: seq<Job>, idx: seq<nat>, tried: seq<bool>, i: nat)
    requires i < |pool| == |tried| && Chosen(pool, idx, tried) && pool[i].state.Finished? && !tried[i]
    requires forall b :: 0 <= b < |idx| ==> idx[b] < i
    ensures Chosen(pool, idx + [i], tried)
  {
  }

  lemma NoBatch(pool: seq<Job>, tried: seq<bool>)
    requires |pool| == |tried|
    ensures NextBatch(pool, tried, 0) == []
  {
  }

  lemma {:induction false} BatchFull(pool: seq<Job>, tried: seq<bool>, n: nat)
    requires n <= |pool| == |tried| && (n == |pool| || |NextBatch(pool, tried, n)| == MAX_BATCH)
    ensures NextBatch(pool, tried, |pool|) == NextBatch(pool, tried, n)
    decreases |pool| - n
  {
    hide Bodies, Sum, NextBatch;
    if n < |pool| {
      BatchOn(pool, tried, n);
      BatchFull(pool, tried, n + 1);
    }
  }

  lemma NoBodies(pool: seq<Job>)
    ensures Sum(Bodies(pool, [])) == 0
  {
  }

  lemma BodiesMore(pool: seq<Job>, idx: seq<nat>, i: nat)
    requires i < |pool| && forall b :: 0 <= b < |idx| ==> idx[b] < |pool|
    ensures Sum(Bodies(pool, idx + [i])) == Sum(Bodies(pool, idx)) + |pool[i].result|
  {
    assert (idx + [i])[..|idx|] == idx;
    var bodies := Bodies(pool, idx + [i]);
    assert bodies[..|bodies| - 1] == Bodies(pool, idx);
  }

  // What is still to try.
  function Left(tried: seq<bool>): nat {
    if tried == [] then 0 else Left(tried[..|tried| - 1]) + if tried[|tried| - 1] then 0 else 1
  }

  lemma {:induction false} LeftFalls(a: seq<bool>, b: seq<bool>)
    requires |a| == |b| && forall i :: 0 <= i < |a| && a[i] ==> b[i]
    ensures Left(b) <= Left(a)
    ensures (exists i :: 0 <= i < |a| && b[i] && !a[i]) ==> Left(b) < Left(a)
    decreases |a|
  {
    if a != [] {
      var n := |a| - 1;
      LeftFalls(a[..n], b[..n]);
      if i :| 0 <= i < |a| && b[i] && !a[i] {
        if i < n {
          assert b[..n][i] && !a[..n][i];
        }
      }
    }
  }

  lemma FewerLeft(pool: seq<Job>, idx: seq<nat>, before: seq<bool>, after: seq<bool>)
    requires Chosen(pool, idx, before) && idx != [] && |after| == |before|
    requires forall i :: 0 <= i < |after| ==> after[i] == (before[i] || i in idx)
    ensures Left(after) < Left(before)
  {
    hide Left;
    assert after[idx[0]] && !before[idx[0]];
    LeftFalls(before, after);
  }

  lemma AcceptedOk(pool: seq<Job>, i: nat, done: Job, q: Queues, model: Model)
    requires PoolOk(pool, q, model) && i < |pool| && pool[i].state.Finished? && pool[i].result in q.results
    requires done == pool[i].(state := JobState.Deleting)
    ensures PoolOk(pool[i := done], q, model)
    ensures PendingTokens(pool[i := done]) == PendingTokens(pool) && PendingSet(pool[i := done]) == PendingSet(pool)
  {
    hide ResultOf, PendingTokens, PendingSet;
    assert JobOk(pool[i], q, model);
    TokensUpdate(pool, i, done);
    UpdateKeeps(pool, i, done, q, model);
    NotPending(pool, i);
  }

  lemma NotPending(pool: seq<Job>, i: nat)
    requires i < |pool| && !pool[i].state.Pending? && forall k :: 0 <= k < |pool| && k != i ==> pool[k].m.receipt != pool[i].m.receipt
    ensures pool[i].m.receipt !in PendingSet(pool)
  {
  }

  lemma SentMore(was: seq<Job>, now: seq<Job>, i: nat)
    requires Sent(was, now) && i < |was| && now[i] == was[i] && was[i].state.Finished?
    ensures var more := now[i := now[i].(state := JobState.Deleting)]; Sent(was, more) && more != was
  {
    var more := now[i := now[i].(state := JobState.Deleting)];
    assert more[i] != was[i];
  }

  lemma SentSame(pool: seq<Job>)
    ensures Sent(pool, pool)
  {
  }

  lemma SentOn(a: seq<Job>, b: seq<Job>, c: seq<Job>)
    requires Sent(a, b) && Sent(b, c)
    ensures Sent(a, c) && (c == a <==> a == b == c)
  {
    if c == a {
      assert forall i :: 0 <= i < |a| ==> b[i] == a[i];
    }
  }

  lemma SentSendable(was: seq<Job>, now: seq<Job>)
    requires Sendable(was) && Sent(was, now)
    ensures Sendable(now)
  {
  }

  // Each once, in order, and not tried before.
  predicate Picked(idx: seq<nat>, tried: seq<bool>) {
    && (forall b :: 0 <= b < |idx| ==> idx[b] < |tried| && !tried[idx[b]])
    && (forall b, c :: 0 <= b < c < |idx| ==> idx[b] < idx[c])
  }

  lemma FewerTried(idx: seq<nat>, before: seq<bool>, after: seq<bool>)
    requires Picked(idx, before) && idx != [] && |after| == |before|
    requires forall i :: 0 <= i < |after| ==> after[i] == (before[i] || i in idx)
    ensures Left(after) < Left(before)
  {
    hide Left;
    assert after[idx[0]] && !before[idx[0]];
    LeftFalls(before, after);
  }

  function Receipts(pool: seq<Job>, idx: seq<nat>): (receipts: seq<nat>)
    requires forall b :: 0 <= b < |idx| ==> idx[b] < |pool|
    ensures |receipts| == |idx| && forall b :: 0 <= b < |idx| ==> receipts[b] == pool[idx[b]].m.receipt
  {
    if idx == [] then [] else Receipts(pool, idx[..|idx| - 1]) + [pool[idx[|idx| - 1]].m.receipt]
  }

  // A job up for deletion has had one more call fail, or is done with; any other is as it was.
  predicate Tallied(was: Job, now: Job) {
    || now == was
    || (was.state.Deleting? && (now == was.(deleteTries := was.deleteTries + 1) || now == was.(deleteTries := -1)))
  }

  // One more failed try, or none to come.
  function Retried(j: Job, rc: int): Job {
    j.(deleteTries := if rc != 0 then j.deleteTries + 1 else -1)
  }

  // Of the jobs of a batch the first b have had their tries counted, and no other job has changed.
  ghost predicate CountedTo(was: seq<Job>, now: seq<Job>, idx: seq<nat>, rc: int, b: nat) {
    && |now| == |was| && b <= |idx| && (forall c :: 0 <= c < |idx| ==> idx[c] < |was|)
    && (forall i :: 0 <= i < |was| && i !in idx ==> now[i] == was[i])
    && (forall c :: 0 <= c < b ==> now[idx[c]] == Retried(was[idx[c]], rc))
    && (forall c :: b <= c < |idx| ==> now[idx[c]] == was[idx[c]])
  }

  lemma NoneCounted(pool: seq<Job>, idx: seq<nat>, rc: int)
    requires forall c :: 0 <= c < |idx| ==> idx[c] < |pool|
    ensures CountedTo(pool, pool, idx, rc, 0)
  {
  }

  lemma NextUncounted(was: seq<Job>, now: seq<Job>, idx: seq<nat>, rc: int, b: nat)
    requires CountedTo(was, now, idx, rc, b) && b < |idx|
    ensures idx[b] < |now| == |was| && now[idx[b]] == was[idx[b]]
  {
    hide Retried;
  }

  lemma CountedMore(was: seq<Job>, now: seq<Job>, idx: seq<nat>, rc: int, b: nat)
    requires CountedTo(was, now, idx, rc, b) && b < |idx| && forall c, d :: 0 <= c < d < |idx| ==> idx[c] < idx[d]
    ensures idx[b] < |now| && CountedTo(was, now[idx[b] := Retried(now[idx[b]], rc)], idx, rc, b + 1)
  {
    hide Retried;
  }

  lemma CountedAll(was: seq<Job>, now: seq<Job>, idx: seq<nat>, rc: int)
    requires CountedTo(was, now, idx, rc, |idx|) && forall b :: 0 <= b < |idx| ==> idx[b] < |was| && was[idx[b]].state.Deleting?
    ensures |now| == |was| && forall i :: 0 <= i < |was| ==> Tallied(was[i], now[i])
    ensures forall i :: 0 <= i < |was| && i !in idx ==> now[i] == was[i]
    ensures forall b :: 0 <= b < |idx| ==> now[idx[b]] == Retried(was[idx[b]], rc)
  {
    hide Retried, Tallied;
    forall i | 0 <= i < |was|
      ensures Tallied(was[i], now[i])
    {
      if i in idx {
        var b :| 0 <= b < |idx| && idx[b] == i;
        RetriedTallied(was[i], rc);
      } else {
        SameTallied(was[i]);
      }
    }
  }

  lemma RetriedTallied(j: Job, rc: int)
    requires j.state.Deleting?
    ensures Tallied(j, Retried(j, rc))
  {
  }

  lemma SameTallied(j: Job)
    ensures Tallied(j, j)
  {
  }

  // Of a hand-off: pending jobs are as they were, and a result that could be sent is still here or with Cal.
  lemma HandedOff(was: seq<Job>, fit: seq<Job>, sent: seq<Job>, tried: seq<Job>, now: seq<Job>, results: set<string>)
    requires forall j :: j in fit <==> j in was && !TooBig(j)
    requires Sent(fit, sent)
    requires |tried| == |sent| && forall i :: 0 <= i < |tried| ==> Tallied(sent[i], tried[i])
    requires forall j :: j in now <==> j in tried && !DoneWith(j)
    requires forall j :: j in tried && j.state.Deleting? ==> j.result in results
    ensures forall j: Job :: j.state.Pending? ==> (j in was <==> j in now)
    ensures forall j :: j in now && j.state.Finished? ==> j in was
    ensures forall j :: j in was && j.state.Finished? && !TooBig(j) ==> j in now || j.result in results
  {
    hide Sent, Tallied, TooBig;
    SameLength(fit, sent);
    forall j | j in now && !j.state.Deleting?
      ensures j in was
    {
      var i :| 0 <= i < |tried| && tried[i] == j;
      OfOne(fit, sent, i, j);
      assert fit[i] in fit;
    }
    forall j | j in was && !TooBig(j) && !j.state.Deleting?
      ensures j in now || (j.state.Finished? && j.result in results)
    {
      var i :| 0 <= i < |fit| && fit[i] == j;
      OfOne(fit, sent, i, tried[i]);
      assert tried[i] in tried;
    }
    forall j: Job | j.state.Pending? && j in was
      ensures j in now
    {
      NotTooBig(j);
    }
  }

  lemma NotTooBig(j: Job)
    requires j.state.Pending?
    ensures !TooBig(j)
  {
  }

  lemma SameLength(fit: seq<Job>, sent: seq<Job>)
    requires Sent(fit, sent)
    ensures |sent| == |fit|
  {
  }

  // Of one job: as it was, or its result is accepted.
  lemma OfOne(fit: seq<Job>, sent: seq<Job>, i: nat, t: Job)
    requires Sent(fit, sent) && i < |sent| && Tallied(sent[i], t)
    ensures !t.state.Deleting? ==> t == fit[i]
    ensures fit[i].state.Deleting? || t == fit[i] || (fit[i].state.Finished? && t.state.Deleting? && t.result == fit[i].result)
  {
  }

  lemma NoneSent(was: seq<Job>, fit: seq<Job>, tried: seq<Job>, now: seq<Job>)
    requires forall j :: j in fit <==> j in was && !TooBig(j)
    requires |tried| == |fit| && forall i :: 0 <= i < |tried| ==> Tallied(fit[i], tried[i])
    requires forall j :: j in now <==> j in tried && !DoneWith(j)
    ensures forall j :: j in was && j.state.Finished? && !TooBig(j) ==> j in now
  {
    forall j | j in was && j.state.Finished? && !TooBig(j)
      ensures j in now
    {
      var i :| 0 <= i < |fit| && fit[i] == j;
      assert tried[i] in tried;
    }
  }

  lemma DeletingHeld(pool: seq<Job>, q: Queues, model: Model)
    requires PoolOk(pool, q, model)
    ensures forall j :: j in pool && j.state.Deleting? ==> j.result in q.results
  {
    hide ResultOf;
    assert forall i :: 0 <= i < |pool| ==> JobOk(pool[i], q, model);
  }

  lemma OnlyPending(kept: seq<Job>, tried: seq<Job>, now: seq<Job>)
    requires forall i :: 0 <= i < |kept| ==> !kept[i].state.Finished?
    requires |tried| == |kept| && forall i :: 0 <= i < |tried| ==> Tallied(kept[i], tried[i])
    requires forall i :: 0 <= i < |tried| && tried[i].state.Deleting? ==> tried[i].deleteTries < 0
    requires forall j :: j in now ==> j in tried
    requires forall j :: j in now ==> !DoneWith(j)
    ensures forall i :: 0 <= i < |now| ==> now[i].state.Pending?
  {
    forall i | 0 <= i < |now|
      ensures now[i].state.Pending?
    {
      assert now[i] in now;
      var k :| 0 <= k < |tried| && tried[k] == now[i];
    }
  }

  // Only receipts of jobs whose results are held are ever up for deletion.
  lemma AllHanded(pool: seq<Job>, idx: seq<nat>, q: Queues, model: Model)
    requires PoolOk(pool, q, model) && forall b :: 0 <= b < |idx| ==> idx[b] < |pool| && pool[idx[b]].state.Deleting?
    ensures forall b :: 0 <= b < |idx| ==> Handed(q, Receipts(pool, idx)[b])
  {
    hide JobOk, Handed;
    forall b | 0 <= b < |idx|
      ensures Handed(q, Receipts(pool, idx)[b])
    {
      ResultHolds(pool[idx[b]], q, model);
    }
  }

  // What a reply makes of the first n jobs offered: up for deletion if it took their results, and otherwise as they
  // were, like all the others.
  predicate MarkedTo(was: seq<Job>, now: seq<Job>, idx: seq<nat>, ok: seq<bool>, n: nat)
    requires |idx| <= |ok| && forall b :: 0 <= b < |idx| ==> idx[b] < |was|
  {
    && |now| == |was|
    && (forall b :: 0 <= b < |idx| ==>
          now[idx[b]] == if b < n && ok[b] then was[idx[b]].(state := JobState.Deleting) else was[idx[b]])
    && (forall i :: 0 <= i < |now| && i !in idx ==> now[i] == was[i])
  }

  predicate MarkedBy(was: seq<Job>, now: seq<Job>, idx: seq<nat>, ok: seq<bool>)
    requires |idx| <= |ok| && forall b :: 0 <= b < |idx| ==> idx[b] < |was|
  {
    MarkedTo(was, now, idx, ok, |idx|)
  }

  lemma NoneMarked(pool: seq<Job>, idx: seq<nat>, ok: seq<bool>)
    requires |idx| <= |ok| && forall b :: 0 <= b < |idx| ==> idx[b] < |pool|
    ensures MarkedTo(pool, pool, idx, ok, 0)
  {
  }

  lemma MarkedMore(was: seq<Job>, now: seq<Job>, idx: seq<nat>, ok: seq<bool>, n: nat)
    requires |idx| <= |ok| && (forall b :: 0 <= b < |idx| ==> idx[b] < |was|) && n < |idx|
    requires (forall b, c :: 0 <= b < c < |idx| ==> idx[b] < idx[c]) && MarkedTo(was, now, idx, ok, n)
    ensures now[idx[n]] == was[idx[n]]
    ensures MarkedTo(was, if ok[n] then now[idx[n] := now[idx[n]].(state := JobState.Deleting)] else now, idx, ok, n + 1)
  {
  }

  // But for those left, every result is with Cal, or SQS could never take it.
  predicate RestDelivered(jobs: seq<Job>, left: set<nat>, results: set<string>) {
    forall j :: j in jobs && j.state.Finished? && !TooBig(j) ==> j.m.receipt in left || j.result in results
  }

  ghost predicate SamePending(was: seq<Job>, now: seq<Job>) {
    forall j: Job :: j.state.Pending? ==> (j in now <==> j in was)
  }

  // Of jobs that all were pending and jobs that came: what a hand-off leaves is of those that came.
  lemma LeftOfThese(was: seq<Job>, came: seq<Job>, now: seq<Job>)
    requires forall i :: 0 <= i < |was| ==> was[i].state.Pending?
    requires forall j :: j in now && j.state.Finished? ==> j in was + came
    ensures Undelivered(now) <= Undelivered(came)
  {
    forall i | 0 <= i < |now| && now[i].state.Finished?
      ensures exists k :: 0 <= k < |came| && came[k] == now[i]
    {
      assert now[i] in now;
      assert now[i] !in was;
    }
  }
}
