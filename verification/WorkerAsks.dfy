// What the worker asks of SQS in a step (esp32-embedder/worker/worker.c:603-663), as values: the calls of each phase.
module WorkerAsks {
  import opened Bytes
  import opened Sqs
  import opened WorkerPool
  import opened WorkerJobs
  import opened WorkerHandoff
  import opened WorkerVisibility

  const LONG_POLL: nat := 20

  // The calls of one step, in the order they are made: results offered and messages deleted, new messages, those
  // answered at once offered and deleted, pending ones given back, all that is held hidden for longer. And how many
  // new messages there were.
  datatype Talk = Talk(offered: seq<Ask>, removed: seq<Ask>, polled: seq<Ask>, forwarded: seq<Ask>, cleared: seq<Ask>,
                       released: seq<Ask>, hidden: seq<Ask>, arrived: nat)

  const SILENT: Talk := Talk([], [], [], [], [], [], [], 0)

  predicate Proper(talk: Talk) {
    && OfferCalls(talk.offered) && RemoveCalls(talk.removed) && PollCalls(talk.polled)
    && OfferCalls(talk.forwarded) && RemoveCalls(talk.cleared)
    && HideCalls(talk.released, 0) && HideCalls(talk.hidden, 900)
  }

  lemma ProperSilence(texts: set<string>)
    ensures Proper(SILENT) && Among([], texts) && OfferCalls([]) && RemoveCalls([])
  {
  }

  lemma ThenHidden(talk: Talk, hidden: seq<Ask>)
    requires Proper(talk) && HideCalls(hidden, 900)
    ensures Proper(talk.(hidden := hidden))
  {
  }

  predicate OfferCalls(asks: seq<Ask>) {
    forall a :: a in asks ==> a.Offer?
  }

  predicate RemoveCalls(asks: seq<Ask>) {
    forall a :: a in asks ==> a.Remove?
  }

  predicate HideCalls(asks: seq<Ask>, seconds: nat) {
    forall a :: a in asks ==> a.Hide? && a.seconds == seconds
  }

  // Three at most, for one to ten messages, each to be hidden for fifteen minutes.
  predicate PollCalls(asks: seq<Ask>) {
    |asks| <= 3 && forall a :: a in asks ==> a.Poll? && 1 <= a.max <= 10 && a.seconds == 900 && (a.wait == 0 || a.wait == 20)
  }

  // Nothing is offered but these.
  predicate Among(asks: seq<Ask>, texts: set<string>) {
    forall a :: a in asks && a.Offer? ==> forall t :: t in a.bodies ==> t in texts
  }

  // Nothing is hidden but these.
  predicate HidesOnly(asks: seq<Ask>, receipts: set<nat>) {
    forall a :: a in asks && a.Hide? ==> forall r :: r in a.receipts ==> r in receipts
  }

  predicate HideAsked(asks: seq<Ask>, receipt: nat) {
    exists a :: a in asks && a.Hide? && receipt in a.receipts
  }

  function FinishedTexts(pool: seq<Job>): set<string> {
    set i | 0 <= i < |pool| && pool[i].state.Finished? :: pool[i].result
  }

  // The receipts of the jobs to hide.
  function WantedSet(pool: seq<Job>, all: bool, t: int): set<nat> {
    set i | 0 <= i < |pool| && Wanted(pool[i], all, t) :: pool[i].m.receipt
  }

  lemma AllWanted(pool: seq<Job>, t: int)
    ensures WantedSet(pool, true, t) == PendingSet(pool)
  {
  }

  // ---- offers ---------------------------------------------------------------------------------------------

  lemma OneOffer(pool: seq<Job>, idx: seq<nat>, tried: seq<bool>)
    requires Chosen(pool, idx, tried)
    ensures OfferCalls([Ask.Offer(Bodies(pool, idx))]) && Among([Ask.Offer(Bodies(pool, idx))], FinishedTexts(pool))
  {
  }

  lemma NoOffers(pool: seq<Job>) returns (none: seq<Ask>)
    ensures none == [] && OfferCalls(none) && Among(none, FinishedTexts(pool))
  {
    none := [];
  }

  lemma StillAmong(asks: seq<Ask>, some: set<string>, texts: set<string>)
    requires Among(asks, some) && some <= texts
    ensures Among(asks, texts)
  {
  }

  lemma MoreOffers(a: seq<Ask>, b: seq<Ask>, some: set<string>, texts: set<string>)
    requires OfferCalls(a) && Among(a, texts) && OfferCalls(b) && Among(b, some) && some <= texts
    ensures OfferCalls(a + b) && Among(a + b, texts)
  {
  }

  // After a reply: what was tried before is as it was, and if it took everything, all that is tried now is sent.
  lemma AfterReply(was: seq<Job>, now: seq<Job>, idx: seq<nat>, ok: seq<bool>, before: seq<bool>, after: seq<bool>)
    requires Chosen(was, idx, before) && |idx| <= |ok| && MarkedBy(was, now, idx, ok) && |after| == |before|
    requires forall i :: 0 <= i < |after| ==> after[i] == (before[i] || i in idx)
    ensures forall i :: 0 <= i < |now| && before[i] ==> after[i] && now[i] == was[i]
    ensures (forall b :: 0 <= b < |idx| ==> ok[b]) ==>
      forall i :: 0 <= i < |now| && after[i] && !before[i] ==> !now[i].state.Finished?
  {
    forall i | 0 <= i < |now| && before[i]
      ensures now[i] == was[i]
    {
      assert i !in idx;
    }
    if forall b :: 0 <= b < |idx| ==> ok[b] {
      forall i | 0 <= i < |now| && after[i] && !before[i]
        ensures !now[i].state.Finished?
      {
        var b :| 0 <= b < |idx| && idx[b] == i;
        assert now[idx[b]] == was[idx[b]].(state := JobState.Deleting);
      }
    }
  }

  lemma SentTexts(was: seq<Job>, now: seq<Job>)
    requires Sent(was, now)
    ensures FinishedTexts(now) <= FinishedTexts(was)
  {
    forall i | 0 <= i < |now| && now[i].state.Finished?
      ensures now[i].result in FinishedTexts(was)
    {
      assert now[i] == was[i];
    }
  }

  lemma FewerTexts(was: seq<Job>, now: seq<Job>)
    requires forall j :: j in now ==> j in was
    ensures FinishedTexts(now) <= FinishedTexts(was)
  {
    forall i | 0 <= i < |now| && now[i].state.Finished?
      ensures now[i].result in FinishedTexts(was)
    {
      assert now[i] in was;
    }
  }

  // ---- deletions --------------------------------------------------------------------------------------------

  lemma JustAsked(q: Queues, pool: seq<Job>, idx: seq<nat>)
    requires forall b :: 0 <= b < |idx| ==> idx[b] < |pool|
    requires q.asks != [] && q.asks[|q.asks| - 1] == Remove(Receipts(pool, idx))
    ensures forall b :: 0 <= b < |idx| ==> DeleteAsked(q, pool[idx[b]].m.receipt)
  {
    var a := q.asks[|q.asks| - 1];
    assert a in q.asks;
    forall b | 0 <= b < |idx|
      ensures DeleteAsked(q, pool[idx[b]].m.receipt)
    {
      assert Receipts(pool, idx)[b] in a.receipts;
    }
  }

  // A job that a hand-off leaves out had a result over the limit, or its deletion has been asked for, or two calls
  // had failed before.
  lemma LeftOut(was: seq<Job>, fit: seq<Job>, sent: seq<Job>, tried: seq<Job>, now: seq<Job>, q: Queues, model: Model)
    requires forall j :: j in fit <==> j in was && !TooBig(j)
    requires Sent(fit, sent)
    requires |tried| == |sent| && forall i :: 0 <= i < |tried| ==> Tallied(sent[i], tried[i])
    requires forall j :: j in now <==> j in tried && !DoneWith(j)
    requires PoolOk(tried, q, model)
    ensures forall j :: j in was ==>
      Holding(now, j.m.receipt) || |j.result| > 262144 || DeleteAsked(q, j.m.receipt) || j.deleteTries >= 2
    ensures forall j :: j in now && j.state.Finished? ==> |j.result| <= 262144
    ensures forall j :: j in now && j.state.Deleting? ==> 0 <= j.deleteTries < 3
  {
    hide DeleteAsked, JobOk, DoneWith, Tallied, Sent, Holding;
    SameLength(fit, sent);
    forall j | j in was && !TooBig(j)
      ensures Holding(now, j.m.receipt) || DeleteAsked(q, j.m.receipt) || j.deleteTries >= 2
    {
      var i :| 0 <= i < |fit| && fit[i] == j;
      assert tried[i] in tried;
      OfTries(fit, sent, i, tried[i], q, model);
      if !DoneWith(tried[i]) { InHolding(now, tried[i]); }
    }
    forall j | j in now
      ensures (j.state.Finished? ==> |j.result| <= 262144) && (j.state.Deleting? ==> 0 <= j.deleteTries < 3)
    {
      var i :| 0 <= i < |tried| && tried[i] == j;
      OfTries(fit, sent, i, tried[i], q, model);
      assert fit[i] in fit;
    }
  }

  // A result that could be sent was among those to send, and a job to delete among those to delete.
  lemma StillThere(was: seq<Job>, fit: seq<Job>, sent: seq<Job>)
    requires forall j :: j in fit <==> j in was && !TooBig(j)
    requires Sent(fit, sent)
    ensures (exists j :: j in was && j.state.Finished? && |j.result| <= 262144) ==>
      exists i :: 0 <= i < |fit| && fit[i].state.Finished?
    ensures (exists j :: j in was && j.state.Deleting?) ==> exists i :: 0 <= i < |sent| && sent[i].state.Deleting?
  {
    if j :| j in was && j.state.Finished? && |j.result| <= 262144 {
      var i :| 0 <= i < |fit| && fit[i] == j;
    }
    if j :| j in was && j.state.Deleting? {
      var i :| 0 <= i < |fit| && fit[i] == j;
      assert sent[i].state.Deleting?;
    }
  }

  lemma InHolding(pool: seq<Job>, j: Job)
    requires j in pool
    ensures Holding(pool, j.m.receipt)
  {
    var k :| 0 <= k < |pool| && pool[k] == j;
  }

  // Of one job: it stays, or its deletion has been asked for, or two calls had failed before.
  lemma OfTries(fit: seq<Job>, sent: seq<Job>, i: nat, t: Job, q: Queues, model: Model)
    requires Sent(fit, sent) && i < |sent| && Tallied(sent[i], t) && JobOk(t, q, model)
    ensures t.m.receipt == fit[i].m.receipt
    ensures DoneWith(t) ==> DeleteAsked(q, t.m.receipt) || fit[i].deleteTries >= 2
    ensures !DoneWith(t) && t.state.Deleting? ==> 0 <= t.deleteTries < 3
    ensures t.state.Finished? ==> t == fit[i]
  {
    hide DeleteAsked, ResultOf, PendingOk;
  }

  // ---- visibility -------------------------------------------------------------------------------------------

  lemma NoHides(seconds: nat, wanted: set<nat>) returns (none: seq<Ask>)
    ensures none == [] && HideCalls(none, seconds) && HidesOnly(none, wanted)
  {
    none := [];
  }

  lemma NoneHidden()
    ensures HideCalls([], 900)
  {
  }

  // What is due to be hidden is still due later.
  lemma WantedLater(pool: seq<Job>, t: int, later: int)
    requires t <= later
    ensures WantedSet(pool, false, t) <= WantedSet(pool, false, later)
  {
  }

  // Of all but the pending jobs, none has left.
  lemma KeptResults(was: seq<Job>, now: seq<Job>)
    requires forall j :: j in now <==> j in was && !j.state.Pending?
    ensures Undelivered(now) == Undelivered(was)
    ensures now == [] <==> !exists i :: 0 <= i < |was| && !was[i].state.Pending?
  {
    hide Undelivered;
    NoneMore(was, now);
    NoneMore(now, was);
    forall i | 0 <= i < |was| && !was[i].state.Pending?
      ensures now != []
    {
      assert was[i] in now;
    }
    if now != [] {
      assert now[0] in was;
    }
  }

  lemma NoneMore(a: seq<Job>, b: seq<Job>)
    requires forall j :: j in a && j.state.Finished? ==> j in b
    ensures Undelivered(a) <= Undelivered(b)
  {
    forall i | 0 <= i < |a| && a[i].state.Finished?
      ensures a[i].m.receipt in Undelivered(b)
    {
      var k :| 0 <= k < |b| && b[k] == a[i];
    }
  }

  lemma InWanted(pool: seq<Job>, all: bool, t: int)
    ensures forall i :: 0 <= i < |pool| && Wanted(pool[i], all, t) ==> pool[i].m.receipt in WantedSet(pool, all, t)
  {
  }

  // All of them: the pending ones. Otherwise whatever is held and would be seen again within ten minutes, results too.
  lemma WantedMeans(pool: seq<Job>, all: bool, t: int)
    ensures forall j :: j in pool && (if all then j.state.Pending? else j.visibleUntil < t + 600) ==>
      j.m.receipt in WantedSet(pool, all, t)
    ensures forall r :: r in WantedSet(pool, all, t) ==>
      exists i :: 0 <= i < |pool| && pool[i].m.receipt == r && if all then pool[i].state.Pending? else pool[i].visibleUntil < t + 600
  {
  }

  lemma NoneWanted(pool: seq<Job>, all: bool, t: int)
    requires forall i :: 0 <= i < |pool| ==> !Wanted(pool[i], all, t)
    ensures WantedSet(pool, all, t) == {}
  {
  }

  lemma AllAsked(was: seq<Job>, now: seq<Job>, tried: seq<bool>, asked: seq<Ask>, all: bool, t: int, clean: bool)
    requires |was| == |now| == |tried| && Shifted(was, now)
    requires forall i :: 0 <= i < |now| ==> if tried[i] then HideAsked(asked, now[i].m.receipt) else now[i] == was[i]
    requires clean ==> forall i :: 0 <= i < |now| ==> !(Wanted(now[i], all, t) && !tried[i])
    ensures clean ==> forall r :: r in WantedSet(was, all, t) ==> HideAsked(asked, r)
    ensures forall j :: j in was ==> j in now || HideAsked(asked, j.m.receipt)
  {
    hide HideAsked, Wanted;
    forall j | j in was
      ensures j in now || HideAsked(asked, j.m.receipt)
    {
      var i :| 0 <= i < |was| && was[i] == j;
      assert now[i].m == was[i].m;
    }
  }

  lemma OneHide(pool: seq<Job>, idx: seq<nat>, seconds: nat, wanted: set<nat>)
    requires forall b :: 0 <= b < |idx| ==> idx[b] < |pool| && pool[idx[b]].m.receipt in wanted
    ensures var asks := [Ask.Hide(Receipts(pool, idx), seconds)];
      && HideCalls(asks, seconds) && HidesOnly(asks, wanted)
      && forall b :: 0 <= b < |idx| ==> HideAsked(asks, pool[idx[b]].m.receipt)
  {
    var a := Ask.Hide(Receipts(pool, idx), seconds);
    assert a in [a];
    forall b | 0 <= b < |idx|
      ensures HideAsked([a], pool[idx[b]].m.receipt)
    {
      assert Receipts(pool, idx)[b] in a.receipts;
    }
  }

  lemma MoreHides(a: seq<Ask>, b: seq<Ask>, seconds: nat, receipts: set<nat>)
    requires HideCalls(a, seconds) && HidesOnly(a, receipts) && HideCalls(b, seconds) && HidesOnly(b, receipts)
    ensures HideCalls(a + b, seconds) && HidesOnly(a + b, receipts)
    ensures forall r :: HideAsked(a, r) || HideAsked(b, r) ==> HideAsked(a + b, r)
  {
    forall r | HideAsked(a, r) || HideAsked(b, r)
      ensures HideAsked(a + b, r)
    {
      var x :| (x in a || x in b) && x.Hide? && r in x.receipts;
      assert x in a + b;
    }
  }

  // ---- room -------------------------------------------------------------------------------------------------

  predicate InOrder(pool: seq<Job>) {
    forall i, k :: 0 <= i < k < |pool| ==> pool[i].m.receipt < pool[k].m.receipt
  }

  // Part of a pool holds no more than the whole.
  lemma {:induction false} PartHolds(now: seq<Job>, was: seq<Job>)
    requires InOrder(now) && InOrder(was) && forall j :: j in now ==> j in was
    ensures |now| <= |was| && BytesHeld(now) <= BytesHeld(was) && PendingTokens(now) <= PendingTokens(was)
    decreases |was|
  {
    if now != [] {
      var n, w := |now| - 1, |was| - 1;
      assert now[n] in now;
      var i :| 0 <= i < |was| && was[i] == now[n];
      if i == w {
        forall j | j in now[..n]
          ensures j in was[..w]
        {
          var k :| 0 <= k < n && now[k] == j;
          assert j in was && j != was[w];
        }
        PartHolds(now[..n], was[..w]);
      } else {
        forall j | j in now
          ensures j in was[..w]
        {
          var k :| 0 <= k <= n && now[k] == j;
          assert j in was && j != was[w];
        }
        PartHolds(now, was[..w]);
      }
    }
  }

  lemma RoomGrows(now: seq<Job>, was: seq<Job>, q: Queues, before: Queues, model: Model, cfg: Config)
    requires PoolOk(now, q, model) && PoolOk(was, before, model) && forall j :: j in now ==> j in was
    ensures Room(was, cfg) <= Room(now, cfg) && PendingTokens(now) <= PendingTokens(was)
  {
    hide JobOk, BytesHeld, PendingTokens;
    PartHolds(now, was);
  }

  // What a pool holds, and how much room it leaves: ten messages, as many of the largest as the budget has left, as
  // many as the pool has places, whichever is least.
  lemma BytesMore(pool: seq<Job>, j: Job)
    ensures BytesHeld([]) == 0
    ensures BytesHeld(pool + [j]) == BytesHeld(pool) + |j.m.body| + |j.result| + 4 * j.nIds
  {
    assert (pool + [j])[..|pool|] == pool;
  }

  lemma RoomIs(pool: seq<Job>, cfg: Config)
    ensures var room, left := Room(pool, cfg), cfg.budget - BytesHeld(pool);
      && room <= 10 && room <= cfg.poolMax - |pool| && (room <= 0 || room * 40960 <= left)
      && (room == 10 || room == cfg.poolMax - |pool| || (room == 0 && left < 40960) || left < (room + 1) * 40960)
  {
    hide BytesHeld;
  }
}
