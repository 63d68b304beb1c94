// Kata's worker (esp32-embedder/worker/worker.c): jobs from the ingest queue are embedded several a pass,
// handed to Cal on the results queue, and deleted only once that queue has accepted them.
module Worker {
  import opened Bytes
  import opened Results
  import opened Sqs
  import opened WorkerPool
  import opened WorkerBoard
  import opened WorkerJobs
  import opened WorkerHandoff
  import opened WorkerVisibility
  import opened WorkerAsks
  import opened WorkerPass
  import opened WorkerWaiting
  import JsonText
  import Batch = BatchPlan

  datatype Verdict = Keep | Drop | Later

  class Worker {
    const cfg: Config
    const model: Model
    const sqs: Client
    const board: Board
    var pool: seq<Job>
    var poolTokens: int
    var sick: bool
    var badInRow: nat
    var nextHealth: int
    var retry: nat
    var parkRequested: bool
    var parked: bool
    var progressAt: int
    ghost var passes: seq<seq<Carried>>
    // At each of them, the receipts of the results held that no queue had taken.
    ghost var undelivered: seq<set<nat>>
    ghost var turns: nat

    constructor (cfg: Config, model: Model, sqs: Client, board: Board)
      requires sqs.aws.Valid() && sqs.aws.Ideal() && Careful(sqs.aws.log) && board.time > 0 && Strict(model)
      ensures Valid()
      ensures this.cfg == cfg.(poolMax := if cfg.poolMax < 1 then 1 else cfg.poolMax) && this.model == model && this.sqs == sqs && this.board == board
      ensures pool == [] && poolTokens == 0 && !sick && badInRow == 0 && !parked && !parkRequested && progressAt == 0
      ensures passes == [] && undelivered == [] && turns == 0
    {
      this.cfg := cfg.(poolMax := if cfg.poolMax < 1 then 1 else cfg.poolMax);
      this.model, this.sqs, this.board := model, sqs, board;
      pool, poolTokens := [], 0;
      sick, badInRow, nextHealth, retry := false, 0, 0, 0;
      parkRequested, parked, progressAt := false, false, 0;
      passes, undelivered, turns := [], [], 0;
    }

    ghost predicate Env()
      reads sqs.aws, board
    {
      sqs.aws.Valid() && sqs.aws.Ideal() && Careful(sqs.aws.log) && board.time > 0 && Strict(model)
    }

    ghost predicate Jobs()
      reads `pool, `poolTokens, sqs.aws
    {
      PoolOk(pool, sqs.aws.q, model) && |pool| <= cfg.poolMax && poolTokens == PendingTokens(pool)
    }

    ghost predicate Flags()
      reads `sick, `badInRow
    {
      sick <==> badInRow >= BAD_PASSES
    }

    // remove_job
    method Remove(i: nat)
      requires Jobs() && i < |pool|
      modifies `pool, `poolTokens
      ensures Jobs() && pool == Without(old(pool), i)
      ensures PendingSet(pool) == PendingSet(old(pool)) - if old(pool)[i].state.Pending? then {old(pool)[i].m.receipt} else {}
      ensures forall j :: j in pool <==> j in old(pool) && j != old(pool)[i]
    {
      hide PoolOk, PendingTokens, PendingSet;
      TokensWithout(pool, i);
      WithoutKeeps(pool, i, sqs.aws.q, model);
      WithoutOne(pool, i, sqs.aws.q, model);
      if pool[i].state.Pending? { poolTokens := poolTokens - pool[i].nIds; }
      pool := pool[..i] + pool[i + 1..];
    }

    // The text of a job's result, or out of memory; never that when there is plenty.
    method Build(j: Job, outcome: Outcome, pass: Option<Pass>, plenty: bool) returns (ok: bool, text: string)
      requires Whole(j.m.body) && MadeOf(ResultFor(cfg, j.m, j.uuid, outcome, pass), j.m.body, model)
      ensures plenty ==> ok
      ensures ok ==> text == Text(ResultFor(cfg, j.m, j.uuid, outcome, pass)) && ResultOf(text, j.m.body, model)
    {
      hide Text, Steady, MadeOf;
      var r := ResultFor(cfg, j.m, j.uuid, outcome, pass);
      var b := new JsonText.Buffer();
      var memory: bool := *;
      memory := memory || plenty;
      var rc := EncodeResult(r, b, memory);
      ok, text := rc == 0, b.text;
      if ok {
        assert "" + Text(r) == Text(r);
      }
    }

    // arrive: what becomes of a message. A body that is no envelope cannot be handed on; what memory runs
    // out on comes back later; the rest is kept, to be embedded or with its result for Cal already built.
    // One that memory ran out on while its result was built is a pending job without ids.
    method Arrive(m: Message, plenty: bool) returns (verdict: Verdict, j: Job)
      requires Env() && Genuine(sqs.aws.q, m)
      modifies board
      ensures Env() && board.time >= old(board.time)
      ensures verdict == Drop ==> model.envelope(m.body).None?
      ensures verdict == Keep ==> model.envelope(m.body).Some?
      ensures verdict == Keep && !(j.state.Pending? && j.ids == []) ==>
        j == Taken(model, cfg, sick, m, board.time + VISIBILITY) && JobOk(j, sqs.aws.q, model)
      ensures plenty ==> verdict == if model.envelope(m.body).None? then Drop else Keep
      ensures plenty && verdict == Keep ==> !(j.state.Pending? && j.ids == [])
    {
      hide Steady, Aws.Valid, Careful, ResultOf, Acceptable, Text;
      var t := board.Now();
      j := Job(m, "", t + VISIBILITY, JobState.Pending, false, [], 0, false, "", 0);
      var memory: bool := *;
      if !memory && !plenty { return Later, j; }
      var env := model.envelope(m.body);
      if env.None? { return Drop, j; }
      j := j.(uuid := env.value.uuid);
      var reason: Option<string> := None;
      if env.value.ciphertext.None? && env.value.s3 {
        reason := Some(CLAIM_CHECK);
      } else if m.receives >= RETRIES_RECEIVE {
        reason := Some(RETRIES);
      } else if |m.body| > WORST_BODY {
        reason := Some(TOO_LONG);
      } else if sick {
        reason := Some(KATA_UNHEALTHY);
      } else if env.value.ciphertext.None? || !cfg.identity {
        reason := Some(DECRYPT_FAILED);
      } else {
        memory := *;
        if !memory && !plenty { return Later, j; }
        var inside := model.open(env.value.ciphertext.value, env.value.uuid);
        if inside.None? {
          reason := Some(DECRYPT_FAILED);
        } else {
          j := j.(ids := inside.value.ids, nIds := |inside.value.ids|, truncated := inside.value.truncated);
        }
      }
      verdict := Keep;
      if reason.Some? {
        var ok, text := Build(j, SentBack(reason.value), None, plenty);
        if ok {
          j := j.(m := m.(body := ""), state := JobState.Finished, result := text);
        }
      } else {
        j := j.(solo := m.receives == SOLO_RECEIVE);
      }
    }

    // unembedded, on a pending job of the pool: Cal gets it now, or it stays as it is.
    method Unembedded(i: nat, reason: string, plenty: bool) returns (ok: bool)
      requires Jobs() && Strict(model) && i < |pool| && pool[i].state.Pending?
      modifies `pool, `poolTokens
      ensures Jobs() && |pool| == |old(pool)|
      ensures pool == if ok then old(pool)[i := Answered(cfg, old(pool)[i], SentBack(reason), None)] else old(pool)
      ensures ok ==> PendingSet(pool) == PendingSet(old(pool)) - {old(pool)[i].m.receipt}
      ensures plenty ==> ok
    {
      ok := Finish(i, SentBack(reason), None, plenty);
    }

    // Every pending job to Cal, as far as memory goes.
    method AllUnembedded(plenty: bool)
      requires Jobs() && Strict(model)
      modifies `pool, `poolTokens
      ensures Jobs() && |pool| == |old(pool)| && PendingSet(pool) <= PendingSet(old(pool))
      ensures forall i :: 0 <= i < |pool| ==> Returned(cfg, old(pool)[i], pool[i], plenty)
    {
      hide Jobs, PendingSet, Answered;
      var i := 0;
      while i < |pool|
        invariant 0 <= i <= |pool|
        invariant Jobs() && |pool| == |old(pool)| && PendingSet(pool) <= PendingSet(old(pool))
        invariant forall k :: 0 <= k < i ==> Returned(cfg, old(pool)[k], pool[k], plenty)
        invariant forall k :: i <= k < |pool| ==> pool[k] == old(pool)[k]
      {
        if pool[i].state.Pending? {
          var _ := Unembedded(i, KATA_UNHEALTHY, plenty);
        }
        i := i + 1;
      }
    }

    // go_sick
    method GoSick(plenty: bool)
      requires Jobs() && Env() && badInRow >= BAD_PASSES
      modifies `pool, `poolTokens, `sick, `nextHealth, board
      ensures Jobs() && Env() && Flags() && sick && |pool| == |old(pool)| && PendingSet(pool) <= PendingSet(old(pool))
      ensures forall i :: 0 <= i < |pool| ==> Returned(cfg, old(pool)[i], pool[i], plenty)
      ensures nextHealth == board.time + HEALTH_EVERY && board.time >= old(board.time)
    {
      hide Jobs, PendingSet, Aws.Valid, Careful, Strict, Returned;
      sick := true;
      var t := board.Now();
      nextHealth := t + HEALTH_EVERY;
      AllUnembedded(plenty);
    }

    // finish, on a pending job of the pool
    method Finish(i: nat, outcome: Outcome, pass: Option<Pass>, plenty: bool) returns (ok: bool)
      requires Jobs() && Strict(model) && i < |pool| && pool[i].state.Pending?
      requires outcome.Embedded? ==> Vector(pool[i], outcome.e)
      modifies `pool, `poolTokens
      ensures Jobs() && |pool| == |old(pool)|
      ensures pool == if ok then old(pool)[i := Answered(cfg, old(pool)[i], outcome, pass)] else old(pool)
      ensures ok ==> PendingSet(pool) == PendingSet(old(pool)) - {old(pool)[i].m.receipt}
      ensures plenty ==> ok
    {
      hide PoolOk, PendingTokens, PendingSet, ResultOf, Text;
      var j := pool[i];
      PendingBody(pool, i, sqs.aws.q, model);
      var text;
      ok, text := Build(j, outcome, pass, plenty);
      if ok {
        var done := j.(m := j.m.(body := ""), ids := [], state := JobState.Finished, result := text);
        FinishedOk(pool, i, done, sqs.aws.q, model);
        poolTokens := poolTokens - j.nIds;
        pool := pool[i := done];
      }
    }

    // ---- the network phase: results out, jobs deleted --------------------------------------------------

    // A result SQS can never take is dropped, so that it cannot block the pool; nothing else is.
    method DropTooBig()
      requires Jobs()
      modifies `pool, `poolTokens
      ensures Jobs() && |pool| <= |old(pool)| && PendingSet(pool) == PendingSet(old(pool)) && Sendable(pool)
      ensures forall j :: j in pool <==> j in old(pool) && !TooBig(j)
    {
      hide Jobs, PendingSet;
      var i := 0;
      while i < |pool|
        invariant 0 <= i <= |pool| && |pool| <= |old(pool)|
        invariant Jobs() && PendingSet(pool) == PendingSet(old(pool))
        invariant forall k :: 0 <= k < i ==> !TooBig(pool[k])
        invariant forall j :: j in old(pool) && !TooBig(j) ==> j in pool
        invariant forall j :: j in pool ==> j in old(pool)
        decreases |pool| - i
      {
        if TooBig(pool[i]) {
          ghost var was := pool;
          Remove(i);
          assert forall k :: 0 <= k < i ==> pool[k] == was[k];
        } else {
          i := i + 1;
        }
      }
    }

    // The next batch of results: at most ten not tried yet, in order, as many as fit.
    method Gather(tried: array<bool>) returns (idx: seq<nat>)
      requires tried.Length == |pool| && Sendable(pool)
      ensures Chosen(pool, idx, tried[..]) && |idx| <= MAX_BATCH && Sum(Bodies(pool, idx)) <= MAX_BATCH_BYTES
      ensures idx == NextBatch(pool, tried[..], |pool|)
      ensures idx == [] ==> forall i :: 0 <= i < |pool| ==> !(pool[i].state.Finished? && !tried[i])
    {
      hide Sum, Bodies, NextBatch, Chosen, Sendable, Fits;
      NoBodies(pool);
      ghost var before := tried[..];
      NoBatch(pool, before);
      idx := [];
      var total, i := 0, 0;
      while i < |pool| && |idx| < MAX_BATCH
        invariant 0 <= i <= |pool| && |idx| <= MAX_BATCH
        invariant idx == NextBatch(pool, before, i) && total == Sum(Bodies(pool, idx))
      {
        var j := pool[i];
        BatchTakes(pool, before, i);
        if Fits(j, tried[i], total) {
          idx := idx + [i];
          total := total + |j.result|;
        }
        i := i + 1;
      }
      BatchFull(pool, before, i);
      BatchFits(pool, before, |pool|);
    }

    // What the reply says of each: tried, and done with if SQS took it.
    method Mark(idx: seq<nat>, ok: array<bool>, tried: array<bool>) returns (sent: nat)
      requires Jobs() && tried.Length == |pool| && Chosen(pool, idx, tried[..]) && |idx| <= ok.Length && ok != tried
      requires forall b :: 0 <= b < |idx| && ok[b] ==> pool[idx[b]].result in sqs.aws.q.results
      modifies `pool, tried
      ensures Jobs() && |pool| == |old(pool)| && PendingSet(pool) == PendingSet(old(pool)) && Sent(old(pool), pool)
      ensures forall i :: 0 <= i < |pool| ==> tried[i] == (old(tried[i]) || i in idx)
      ensures MarkedBy(old(pool), pool, idx, ok[..])
      ensures sent <= |idx| && (sent == 0 <==> pool == old(pool))
    {
      hide PoolOk, PendingSet, PendingTokens, ResultOf, Sent, MarkedTo;
      SentSame(pool);
      NoneMarked(pool, idx, ok[..]);
      sent := 0;
      var jobs, b := pool, 0;
      while b < |idx|
        invariant 0 <= b <= |idx| && sent <= b && |jobs| == |pool|
        invariant PoolOk(jobs, sqs.aws.q, model)
        invariant PendingTokens(jobs) == PendingTokens(pool) && PendingSet(jobs) == PendingSet(pool)
        invariant Sent(pool, jobs) && (sent == 0 <==> jobs == pool) && MarkedTo(pool, jobs, idx, ok[..], b)
        invariant forall i :: 0 <= i < |pool| && i !in idx ==> tried[i] == old(tried[i])
        invariant forall c :: 0 <= c < b ==> tried[idx[c]]
        modifies tried
      {
        tried[idx[b]] := true;
        if ok[b] {
          var done := jobs[idx[b]].(state := JobState.Deleting);
          MarkedMore(pool, jobs, idx, ok[..], b);
          SentMore(pool, jobs, idx[b]);
          AcceptedOk(jobs, idx[b], done, sqs.aws.q, model);
          jobs := jobs[idx[b] := done];
          sent := sent + 1;
        } else {
          MarkedMore(pool, jobs, idx, ok[..], b);
        }
        b := b + 1;
      }
      pool := jobs;
    }

    // The results of these jobs, sent to Cal's queue.
    method Offer(idx: seq<nat>, ok: array<bool>, healthy: bool) returns (rc: int)
      requires Jobs() && Env() && |idx| <= ok.Length && forall b :: 0 <= b < |idx| ==> idx[b] < |pool|
      modifies ok, sqs.aws
      ensures Jobs() && Env() && old(sqs.aws.q).next <= sqs.aws.q.next && (rc == 0 || rc == -1)
      ensures 1 <= |idx| <= MAX_BATCH && Sum(Bodies(pool, idx)) <= MAX_BATCH_BYTES ==>
        sqs.aws.q.asks == old(sqs.aws.q).asks + [Ask.Offer(Bodies(pool, idx))]
      ensures forall b :: 0 <= b < |idx| && ok[b] ==> rc == 0 && pool[idx[b]].result in sqs.aws.q.results
      ensures healthy && 1 <= |idx| <= MAX_BATCH && Sum(Bodies(pool, idx)) <= MAX_BATCH_BYTES ==>
        rc == 0 && forall b :: 0 <= b < |idx| ==> ok[b]
    {
      hide PoolOk, PendingTokens, Aws.Valid, Aws.Ideal, Careful, Strict, Grown, Sum, Bodies;
      ghost var was := sqs.aws.q;
      var code, _ := sqs.SendBatch(Bodies(pool, idx), ok, healthy);
      rc := code;
      NextGrows(was, sqs.aws.q);
      PoolStays(pool, was, sqs.aws.q, model);
    }

    // One batch of them, and what came of it; over if there is none, or the call failed.
    method SendSome(tried: array<bool>, healthy: bool) returns (sent: nat, over: bool, clean: bool, ghost asked: seq<Ask>)
      requires Jobs() && Env() && Sendable(pool) && tried.Length == |pool|
      modifies `pool, tried, sqs.aws
      ensures old(sqs.aws.q).next <= sqs.aws.q.next && sqs.aws.q.asks == old(sqs.aws.q).asks + asked
      ensures OfferCalls(asked) && Among(asked, FinishedTexts(old(pool)))
      ensures asked == [] ==> over && forall i :: 0 <= i < |old(pool)| && old(pool)[i].state.Finished? ==> old(tried[i])
      ensures Jobs() && Env() && |pool| == |old(pool)| && PendingSet(pool) == PendingSet(old(pool)) && Sendable(pool)
      ensures Sent(old(pool), pool) && (sent == 0 <==> pool == old(pool))
      ensures if over then Left(tried[..]) <= Left(old(tried[..])) else Left(tried[..]) < Left(old(tried[..]))
      ensures forall i :: 0 <= i < |pool| && old(tried[i]) ==> tried[i] && pool[i] == old(pool)[i]
      ensures clean ==> forall i :: 0 <= i < |pool| && tried[i] && !old(tried[i]) ==> !pool[i].state.Finished?
      ensures clean && over ==> forall i :: 0 <= i < |pool| ==> !(pool[i].state.Finished? && !tried[i])
      ensures healthy ==> clean
    {
      hide Jobs, Env, PendingSet, Left, Sum, Bodies, Text, TooBig, FinishedTexts, Among, OfferCalls, Sent, Sendable, MarkedTo;
      sent, over, clean := 0, false, true;
      SentSame(pool);
      asked := NoOffers(pool);
      var idx := Gather(tried);
      if idx == [] { return 0, true, true, []; }
      var ok := new bool[MAX_BATCH];
      ghost var held, before := pool, tried[..];
      OneOffer(pool, idx, before);
      asked := [Ask.Offer(Bodies(pool, idx))];
      var rc := Offer(idx, ok, healthy);
      sent := Mark(idx, ok, tried);
      FewerLeft(held, idx, before, tried[..]);
      SentSendable(held, pool);
      AfterReply(held, pool, idx, ok[..], before, tried[..]);
      if rc != 0 { return sent, true, false, asked; }
      clean := AllOk(ok, |idx|);
    }

    // Finished results to Cal. clean says that memory held, every call worked and every entry was taken;
    // then no result is left.
    method SendResults(plenty: bool, healthy: bool) returns (sent: nat, clean: bool, ghost asked: seq<Ask>)
      requires Jobs() && Env() && Sendable(pool)
      modifies `pool, sqs.aws
      ensures old(sqs.aws.q).next <= sqs.aws.q.next && sqs.aws.q.asks == old(sqs.aws.q).asks + asked
      ensures OfferCalls(asked) && Among(asked, FinishedTexts(old(pool)))
      ensures (plenty || healthy) && asked == [] ==> forall i :: 0 <= i < |old(pool)| ==> !old(pool)[i].state.Finished?
      ensures Jobs() && Env() && |pool| == |old(pool)| && PendingSet(pool) == PendingSet(old(pool))
      ensures Sent(old(pool), pool) && (sent == 0 <==> pool == old(pool))
      ensures clean ==> forall i :: 0 <= i < |pool| ==> !pool[i].state.Finished?
      ensures healthy ==> clean
    {
      hide Jobs, Env, PendingSet, Sendable, Left, FinishedTexts, Among, OfferCalls;
      sent, clean := 0, true;
      asked := NoOffers(pool);
      var memory: bool := *;
      if !memory && !plenty && !healthy { return 0, false, []; }
      var tried := new bool[|pool|](_ => false);
      var over := false;
      while !over
        invariant old(sqs.aws.q).next <= sqs.aws.q.next && sqs.aws.q.asks == old(sqs.aws.q).asks + asked
        invariant OfferCalls(asked) && Among(asked, FinishedTexts(old(pool)))
        invariant over && asked == [] ==> forall i :: 0 <= i < |old(pool)| ==> !old(pool)[i].state.Finished?
        invariant !over && asked == [] ==> pool == old(pool) && forall i :: 0 <= i < tried.Length ==> !tried[i]
        invariant Jobs() && Env() && |pool| == |old(pool)| && PendingSet(pool) == PendingSet(old(pool)) && Sendable(pool)
        invariant tried.Length == |pool| && fresh(tried) && Sent(old(pool), pool) && (sent == 0 <==> pool == old(pool))
        invariant clean ==> forall i :: 0 <= i < |pool| && tried[i] ==> !pool[i].state.Finished?
        invariant clean && over ==> forall i :: 0 <= i < |pool| ==> !(pool[i].state.Finished? && !tried[i])
        invariant healthy ==> clean
        decreases Left(tried[..]), !over
      {
        ghost var before := pool;
        SentTexts(old(pool), before);
        var k, last, fine, more := SendSome(tried, healthy);
        SentOn(old(pool), before, pool);
        MoreOffers(asked, more, FinishedTexts(before), FinishedTexts(old(pool)));
        asked := asked + more;
        sent, over, clean := sent + k, last, clean && fine;
      }
    }

    // The next receipts to delete: at most ten not tried yet.
    method GatherDeleting(tried: array<bool>) returns (idx: seq<nat>)
      requires tried.Length == |pool|
      ensures Picked(idx, tried[..]) && |idx| <= MAX_BATCH && forall b :: 0 <= b < |idx| ==> pool[idx[b]].state.Deleting?
      ensures idx == [] ==> forall i :: 0 <= i < |pool| ==> !(pool[i].state.Deleting? && !tried[i])
    {
      idx := [];
      var i := 0;
      while i < |pool| && |idx| < MAX_BATCH
        invariant 0 <= i <= |pool| && |idx| <= MAX_BATCH
        invariant Picked(idx, tried[..]) && forall b :: 0 <= b < |idx| ==> idx[b] < i && pool[idx[b]].state.Deleting?
        invariant idx == [] ==> forall k :: 0 <= k < i ==> !(pool[k].state.Deleting? && !tried[k])
      {
        if pool[i].state.Deleting? && !tried[i] {
          idx := idx + [i];
        }
        i := i + 1;
      }
    }

    // A call that worked is the end of it, whatever it said of each; one that failed counts as a try.
    method Counted(idx: seq<nat>, rc: int, tried: array<bool>)
      requires Jobs() && tried.Length == |pool| && Picked(idx, tried[..])
      requires forall b :: 0 <= b < |idx| ==> pool[idx[b]].state.Deleting?
      requires rc == 0 ==> forall b :: 0 <= b < |idx| ==> DeleteAsked(sqs.aws.q, pool[idx[b]].m.receipt)
      modifies `pool, tried
      ensures Jobs() && |pool| == |old(pool)| && PendingSet(pool) == PendingSet(old(pool))
      ensures forall i :: 0 <= i < |pool| ==> tried[i] == (old(tried[i]) || i in idx)
      ensures forall i :: 0 <= i < |pool| ==> Tallied(old(pool)[i], pool[i])
      ensures forall i :: 0 <= i < |pool| && i !in idx ==> pool[i] == old(pool)[i]
      ensures rc == 0 ==> forall b :: 0 <= b < |idx| ==> pool[idx[b]].deleteTries < 0
      ensures rc != 0 ==> forall b :: 0 <= b < |idx| ==> pool[idx[b]].deleteTries == old(pool)[idx[b]].deleteTries + 1
    {
      hide PoolOk, PendingSet, PendingTokens, CountedTo, DeleteAsked;
      NoneCounted(pool, idx, rc);
      var jobs, b := pool, 0;
      while b < |idx|
        invariant 0 <= b <= |idx| && |jobs| == |pool|
        invariant PoolOk(jobs, sqs.aws.q, model)
        invariant PendingTokens(jobs) == PendingTokens(pool) && PendingSet(jobs) == PendingSet(pool)
        invariant CountedTo(pool, jobs, idx, rc, b)
        invariant forall i :: 0 <= i < |pool| && i !in idx ==> tried[i] == old(tried[i])
        invariant forall c :: 0 <= c < b ==> tried[idx[c]]
        modifies tried
      {
        tried[idx[b]] := true;
        NextUncounted(pool, jobs, idx, rc, b);
        var j := jobs[idx[b]];
        var done := j.(deleteTries := if rc != 0 then j.deleteTries + 1 else -1);
        TouchKeeps(jobs, idx[b], done, sqs.aws.q, model);
        CountedMore(pool, jobs, idx, rc, b);
        jobs := jobs[idx[b] := done];
        b := b + 1;
      }
      CountedAll(pool, jobs, idx, rc);
      pool := jobs;
    }

    // One batch of them; over if there is none, or the call failed.
    method DeleteSome(tried: array<bool>, healthy: bool) returns (over: bool, clean: bool, ghost asked: seq<Ask>)
      requires Jobs() && Env() && tried.Length == |pool|
      modifies `pool, tried, sqs.aws
      ensures old(sqs.aws.q).next <= sqs.aws.q.next && sqs.aws.q.asks == old(sqs.aws.q).asks + asked
      ensures RemoveCalls(asked)
      ensures asked == [] ==> over && pool == old(pool) && forall i :: 0 <= i < |pool| && pool[i].state.Deleting? ==> old(tried[i])
      ensures Jobs() && Env() && |pool| == |old(pool)| && PendingSet(pool) == PendingSet(old(pool))
      ensures forall i :: 0 <= i < |pool| ==> Tallied(old(pool)[i], pool[i]) && (!tried[i] ==> pool[i] == old(pool)[i])
      ensures if over then Left(tried[..]) <= Left(old(tried[..])) else Left(tried[..]) < Left(old(tried[..]))
      ensures forall i :: 0 <= i < |pool| && old(tried[i]) ==> tried[i] && pool[i] == old(pool)[i]
      ensures clean ==> forall i :: 0 <= i < |pool| && tried[i] && !old(tried[i]) ==> pool[i].deleteTries < 0
      ensures clean && over ==> forall i :: 0 <= i < |pool| ==> !(pool[i].state.Deleting? && !tried[i])
      ensures healthy ==> clean
    {
      hide PoolOk, PendingSet, PendingTokens, Aws.Valid, Aws.Ideal, Careful, Strict, Grown, Left, Handed, DeleteAsked, Receipts;
      over, clean, asked := false, true, [];
      var idx := GatherDeleting(tried);
      if idx == [] { return true, true, []; }
      var ok := new bool[MAX_BATCH];
      ghost var was, before := sqs.aws.q, tried[..];
      AllHanded(pool, idx, sqs.aws.q, model);
      var rc, _ := sqs.DeleteBatch(Receipts(pool, idx), ok, healthy);
      asked := [Ask.Remove(Receipts(pool, idx))];
      JustAsked(sqs.aws.q, pool, idx);
      NextGrows(was, sqs.aws.q);
      PoolStays(pool, was, sqs.aws.q, model);
      Counted(idx, rc, tried);
      FewerTried(idx, before, tried[..]);
      if rc != 0 { return true, false, asked; }
    }

    // The ingest jobs whose results SQS has accepted, deleted ten at a time.
    method DeleteAll(plenty: bool, healthy: bool) returns (clean: bool, ghost asked: seq<Ask>)
      requires Jobs() && Env()
      modifies `pool, sqs.aws
      ensures old(sqs.aws.q).next <= sqs.aws.q.next && sqs.aws.q.asks == old(sqs.aws.q).asks + asked
      ensures RemoveCalls(asked)
      ensures (plenty || healthy) && asked == [] ==> forall i :: 0 <= i < |old(pool)| ==> !old(pool)[i].state.Deleting?
      ensures Jobs() && Env() && |pool| == |old(pool)| && PendingSet(pool) == PendingSet(old(pool))
      ensures forall i :: 0 <= i < |pool| ==> Tallied(old(pool)[i], pool[i])
      ensures clean ==> forall i :: 0 <= i < |pool| && pool[i].state.Deleting? ==> pool[i].deleteTries < 0
      ensures healthy ==> clean
    {
      hide Jobs, Env, PendingSet, Left;
      clean, asked := true, [];
      var memory: bool := *;
      if !memory && !plenty && !healthy { return false, []; }
      var tried := new bool[|pool|](_ => false);
      var over := false;
      while !over
        invariant old(sqs.aws.q).next <= sqs.aws.q.next && sqs.aws.q.asks == old(sqs.aws.q).asks + asked
        invariant RemoveCalls(asked)
        invariant over && asked == [] ==> forall i :: 0 <= i < |old(pool)| ==> !old(pool)[i].state.Deleting?
        invariant !over && asked == [] ==> pool == old(pool) && forall i :: 0 <= i < tried.Length ==> !tried[i]
        invariant Jobs() && Env() && |pool| == |old(pool)| && PendingSet(pool) == PendingSet(old(pool))
        invariant tried.Length == |pool| && fresh(tried)
        invariant forall i :: 0 <= i < |pool| ==> Tallied(old(pool)[i], pool[i]) && (!tried[i] ==> pool[i] == old(pool)[i])
        invariant clean ==> forall i :: 0 <= i < |pool| && tried[i] ==> pool[i].deleteTries < 0
        invariant clean && over ==> forall i :: 0 <= i < |pool| ==> !(pool[i].state.Deleting? && !tried[i])
        invariant healthy ==> clean
        decreases Left(tried[..]), !over
      {
        var last, fine, more := DeleteSome(tried, healthy);
        over, clean, asked := last, clean && fine, asked + more;
      }
    }

    // Done with, or given up after three calls that failed: out of the pool; nothing else is.
    method DropDeleted()
      requires Jobs()
      modifies `pool, `poolTokens
      ensures Jobs() && |pool| <= |old(pool)| && PendingSet(pool) == PendingSet(old(pool))
      ensures forall j :: j in pool <==> j in old(pool) && !DoneWith(j)
    {
      hide Jobs, PendingSet;
      var i := |pool|;
      while i > 0
        invariant 0 <= i <= |pool| <= |old(pool)| && Jobs() && PendingSet(pool) == PendingSet(old(pool))
        invariant forall j :: j in pool ==> j in old(pool)
        invariant forall j :: j in old(pool) && !DoneWith(j) ==> j in pool
        invariant forall k :: i <= k < |pool| ==> !DoneWith(pool[k])
      {
        i := i - 1;
        if DoneWith(pool[i]) {
          ghost var was := pool;
          Remove(i);
          assert forall k :: i <= k < |pool| ==> pool[k] == was[k + 1];
        }
      }
    }

    // handoff. clean says that memory held, every call worked and every result was taken; then only
    // pending jobs are left. In good health that is so.
    method Handoff(plenty: bool, healthy: bool) returns (clean: bool, sent: nat, ghost offered: seq<Ask>, ghost removed: seq<Ask>)
      requires Jobs() && Env()
      modifies `pool, `poolTokens, `progressAt, sqs.aws, board
      ensures old(sqs.aws.q).next <= sqs.aws.q.next && sqs.aws.q.asks == old(sqs.aws.q).asks + offered + removed
      ensures OfferCalls(offered) && Among(offered, FinishedTexts(old(pool))) && RemoveCalls(removed)
      ensures (plenty || healthy) && (exists j :: j in old(pool) && j.state.Finished? && |j.result| <= 262144) ==> offered != []
      ensures (plenty || healthy) && (exists j :: j in old(pool) && j.state.Deleting?) ==> removed != []
      ensures forall j :: j in old(pool) ==>
        || Holding(pool, j.m.receipt) || |j.result| > 262144
        || DeleteAsked(sqs.aws.q, j.m.receipt) || j.deleteTries >= 2
      ensures forall j :: j in pool && j.state.Finished? ==> |j.result| <= 262144
      ensures forall j :: j in pool && j.state.Deleting? ==> 0 <= j.deleteTries < 3
      ensures Jobs() && Env() && |pool| <= |old(pool)| && PendingSet(pool) == PendingSet(old(pool))
      ensures board.time >= old(board.time)
      ensures if sent == 0 then progressAt == old(progressAt) else 0 < progressAt && old(board.time) <= progressAt
      ensures sent == 0 ==> forall j :: j in old(pool) && j.state.Finished? && !TooBig(j) ==> j in pool
      ensures forall j: Job :: j.state.Pending? ==> (j in old(pool) <==> j in pool)
      ensures forall j :: j in pool && j.state.Finished? ==> j in old(pool)
      ensures forall j :: j in old(pool) && j.state.Finished? && !TooBig(j) ==> j in pool || j.result in sqs.aws.q.results
      ensures clean ==> forall i :: 0 <= i < |pool| ==> pool[i].state.Pending?
      ensures healthy ==> clean
    {
      hide PoolOk, PendingSet, PendingTokens, Aws.Valid, Aws.Ideal, Careful, Strict, Sent, Tallied, DoneWith, TooBig, FinishedTexts,
        Among, OfferCalls, RemoveCalls, DeleteAsked, Holding;
      DropTooBig();
      ghost var fit := pool;
      FewerTexts(old(pool), fit);
      var out;
      sent, out, offered := SendResults(plenty, healthy);
      StillAmong(offered, FinishedTexts(fit), FinishedTexts(old(pool)));
      if sent > 0 {
        progressAt := board.Now();
      }
      ghost var kept := pool;
      var gone, gones := DeleteAll(plenty, healthy);
      removed := gones;
      ghost var tried := pool;
      DeletingHeld(tried, sqs.aws.q, model);
      DropDeleted();
      HandedOff(old(pool), fit, kept, tried, pool, sqs.aws.q.results);
      LeftOut(old(pool), fit, kept, tried, pool, sqs.aws.q, model);
      StillThere(old(pool), fit, kept);
      if sent == 0 { NoneSent(old(pool), fit, tried, pool); }
      clean := out && gone;
      if clean {
        OnlyPending(kept, tried, pool);
      }
    }

    // ---- the network phase: visibility ----------------------------------------------------------------

    // The next receipts to extend: at most ten not tried yet.
    method GatherExpiring(tried: array<bool>, all: bool, t: int) returns (idx: seq<nat>)
      requires tried.Length == |pool|
      ensures Picked(idx, tried[..]) && |idx| <= MAX_BATCH && forall b :: 0 <= b < |idx| ==> Wanted(pool[idx[b]], all, t)
      ensures idx == [] ==> forall i :: 0 <= i < |pool| ==> !(Wanted(pool[i], all, t) && !tried[i])
    {
      idx := [];
      var i := 0;
      while i < |pool| && |idx| < MAX_BATCH
        invariant 0 <= i <= |pool| && |idx| <= MAX_BATCH
        invariant Picked(idx, tried[..]) && forall b :: 0 <= b < |idx| ==> idx[b] < i && Wanted(pool[idx[b]], all, t)
        invariant idx == [] ==> forall k :: 0 <= k < i ==> !(Wanted(pool[k], all, t) && !tried[k])
      {
        if Wanted(pool[i], all, t) && !tried[i] {
          idx := idx + [i];
        }
        i := i + 1;
      }
    }

    // Each job of the batch, after the call.
    method MarkExtended(idx: seq<nat>, rc: int, ok: array<bool>, tried: array<bool>, all: bool, until: int)
      requires Jobs() && tried.Length == |pool| && Picked(idx, tried[..]) && |idx| <= ok.Length && ok != tried
      modifies `pool, tried
      ensures Jobs() && Shifted(old(pool), pool) && PendingSet(pool) == PendingSet(old(pool))
      ensures forall i :: 0 <= i < |pool| ==> tried[i] == (old(tried[i]) || i in idx)
      ensures forall i :: 0 <= i < |pool| && i !in idx ==> pool[i] == old(pool)[i]
      ensures forall b :: 0 <= b < |idx| ==> pool[idx[b]] == Asked(old(pool)[idx[b]], rc, ok[b], all, until)
    {
      hide PoolOk, PendingSet, PendingTokens, Shifted, Asked;
      var jobs, b := pool, 0;
      while b < |idx|
        invariant 0 <= b <= |idx| && |jobs| == |pool| == |old(pool)|
        invariant PoolOk(jobs, sqs.aws.q, model)
        invariant PendingTokens(jobs) == PendingTokens(pool) && PendingSet(jobs) == PendingSet(pool)
        invariant forall i :: 0 <= i < |pool| && i !in idx ==> tried[i] == old(tried[i]) && jobs[i] == pool[i]
        invariant forall c :: 0 <= c < b ==> tried[idx[c]] && jobs[idx[c]] == Asked(pool[idx[c]], rc, ok[c], all, until)
        invariant forall c :: b <= c < |idx| ==> jobs[idx[c]] == pool[idx[c]]
        modifies tried
      {
        tried[idx[b]] := true;
        var done := Asked(jobs[idx[b]], rc, ok[b], all, until);
        AskedTouches(jobs[idx[b]], rc, ok[b], all, until);
        TouchKeeps(jobs, idx[b], done, sqs.aws.q, model);
        jobs := jobs[idx[b] := done];
        b := b + 1;
      }
      OnlyShifted(pool, jobs, idx, rc, ok[..|idx|], all, until);
      pool := jobs;
    }

    // What the call took is hidden till then; what it did not may be someone else's.
    method Extended(idx: seq<nat>, rc: int, ok: array<bool>, tried: array<bool>, all: bool, until: int)
      requires Jobs() && tried.Length == |pool| && Picked(idx, tried[..]) && |idx| <= ok.Length && ok != tried
      modifies `pool, tried
      ensures Jobs() && Shifted(old(pool), pool) && PendingSet(pool) == PendingSet(old(pool))
      ensures forall i :: 0 <= i < |pool| ==> tried[i] == (old(tried[i]) || i in idx)
      ensures forall i :: 0 <= i < |pool| && i !in idx ==> pool[i] == old(pool)[i]
      ensures rc == 0 ==> forall b :: 0 <= b < |idx| && ok[b] ==> pool[idx[b]] == old(pool)[idx[b]].(visibleUntil := until)
      ensures rc == 0 ==> forall b :: 0 <= b < |idx| && !ok[b] ==>
        pool[idx[b]] == if old(pool)[idx[b]].state.Pending? && !all then old(pool)[idx[b]].(visibleUntil := -1) else old(pool)[idx[b]]
      ensures rc != 0 ==> pool == old(pool)
    {
      hide PoolOk, PendingSet, PendingTokens, Asked;
      MarkExtended(idx, rc, ok, tried, all, until);
      AskedMeans(old(pool), pool, idx, rc, ok[..|idx|], all, until);
    }

    // One batch of them, and what came of it; over if there is none, or the call failed.
    method ExtendSome(tried: array<bool>, all: bool, seconds: nat, t: int, healthy: bool, ghost wanted: set<nat>)
      returns (over: bool, clean: bool, ghost asked: seq<Ask>)
      requires Jobs() && Env() && tried.Length == |pool|
      requires forall i :: 0 <= i < |pool| && !tried[i] && Wanted(pool[i], all, t) ==> pool[i].m.receipt in wanted
      modifies `pool, tried, sqs.aws
      ensures old(sqs.aws.q).next <= sqs.aws.q.next && sqs.aws.q.asks == old(sqs.aws.q).asks + asked
      ensures HideCalls(asked, seconds) && HidesOnly(asked, wanted)
      ensures Jobs() && Env() && Shifted(old(pool), pool) && PendingSet(pool) == PendingSet(old(pool))
      ensures forall i :: 0 <= i < |pool| && !tried[i] ==> pool[i] == old(pool)[i]
      ensures forall i :: 0 <= i < |pool| && tried[i] && !old(tried[i]) ==> HideAsked(asked, pool[i].m.receipt)
      ensures asked == [] ==> clean && pool == old(pool) && forall i :: 0 <= i < |pool| ==> tried[i] == old(tried[i])
      ensures if over then Left(tried[..]) <= Left(old(tried[..])) else Left(tried[..]) < Left(old(tried[..]))
      ensures forall i :: 0 <= i < |pool| && old(tried[i]) ==> tried[i] && pool[i] == old(pool)[i]
      ensures clean && !all ==> forall i :: 0 <= i < |pool| && tried[i] && !old(tried[i]) && pool[i].state.Pending? ==>
        pool[i].visibleUntil == t + seconds || pool[i].visibleUntil == -1
      ensures clean && over ==> forall i :: 0 <= i < |pool| ==> !(Wanted(pool[i], all, t) && !tried[i])
      ensures healthy ==> clean
    {
      hide PoolOk, PendingSet, PendingTokens, Aws.Valid, Aws.Ideal, Careful, Strict, Grown, Left, Wanted, HideCalls, HidesOnly,
        HideAsked, Receipts;
      over, clean := false, true;
      asked := NoHides(seconds, wanted);
      var idx := GatherExpiring(tried, all, t);
      if idx == [] { return true, true, []; }
      var ok := new bool[MAX_BATCH];
      ghost var was, before := sqs.aws.q, tried[..];
      OneHide(pool, idx, seconds, wanted);
      asked := [Ask.Hide(Receipts(pool, idx), seconds)];
      var rc, _ := sqs.VisibilityBatch(Receipts(pool, idx), seconds, ok, healthy);
      NextGrows(was, sqs.aws.q);
      PoolStays(pool, was, sqs.aws.q, model);
      Extended(idx, rc, ok, tried, all, t + seconds);
      FewerTried(idx, before, tried[..]);
      if rc != 0 { return true, false, asked; }
    }

    // Out of the pool with pending jobs that may be someone else's, and with no other.
    method DropStale()
      requires Jobs()
      modifies `pool, `poolTokens
      ensures Jobs() && |pool| <= |old(pool)| && PendingSet(pool) <= PendingSet(old(pool))
      ensures forall j :: j in pool <==> j in old(pool) && !Stale(j)
    {
      hide Jobs, PendingSet;
      var i := |pool|;
      while i > 0
        invariant 0 <= i <= |pool| <= |old(pool)| && Jobs() && PendingSet(pool) <= PendingSet(old(pool))
        invariant forall j :: j in pool ==> j in old(pool)
        invariant forall j :: j in old(pool) && !Stale(j) ==> j in pool
        invariant forall k :: i <= k < |pool| ==> !Stale(pool[k])
      {
        i := i - 1;
        if Stale(pool[i]) {
          ghost var was := pool;
          Remove(i);
          assert forall k :: i <= k < |pool| ==> pool[k] == was[k + 1];
        }
      }
    }

    // Every job wanted at t, a batch at a time. All of them are asked about, unless a call fails.
    method ExtendAll(all: bool, seconds: nat, t: int, healthy: bool) returns (clean: bool, ghost asked: seq<Ask>)
      requires Jobs() && Env()
      modifies `pool, sqs.aws
      ensures old(sqs.aws.q).next <= sqs.aws.q.next && sqs.aws.q.asks == old(sqs.aws.q).asks + asked
      ensures Jobs() && Env() && Shifted(old(pool), pool) && PendingSet(pool) == PendingSet(old(pool)) && |pool| == |old(pool)|
      ensures HideCalls(asked, seconds) && HidesOnly(asked, WantedSet(old(pool), all, t))
      ensures WantedSet(old(pool), all, t) != {} ==> asked != []
      ensures clean ==> forall r :: r in WantedSet(old(pool), all, t) ==> HideAsked(asked, r)
      ensures forall j :: j in old(pool) ==> j in pool || HideAsked(asked, j.m.receipt)
      ensures clean && !all ==> forall i :: 0 <= i < |pool| && pool[i].state.Pending? ==>
        !Wanted(pool[i], false, t) || pool[i].visibleUntil == t + seconds || pool[i].visibleUntil == -1
      ensures healthy ==> clean
    {
      hide Jobs, PendingSet, Left, Aws.Valid, Aws.Ideal, Careful, Strict, HideCalls, HidesOnly, HideAsked, WantedSet, Wanted;
      ghost var wanted := WantedSet(pool, all, t);
      asked := NoHides(seconds, wanted);
      InWanted(pool, all, t);
      SameShifted(pool);
      var tried := new bool[|pool|](_ => false);
      var over := false;
      clean := true;
      while !over
        invariant old(sqs.aws.q).next <= sqs.aws.q.next && sqs.aws.q.asks == old(sqs.aws.q).asks + asked
        invariant HideCalls(asked, seconds) && HidesOnly(asked, wanted)
        invariant Jobs() && Env() && Shifted(old(pool), pool) && PendingSet(pool) == PendingSet(old(pool))
        invariant tried.Length == |pool| && fresh(tried)
        invariant forall i :: 0 <= i < |pool| ==> if tried[i] then HideAsked(asked, pool[i].m.receipt) else pool[i] == old(pool)[i]
        invariant clean && !all ==> forall i :: 0 <= i < |pool| && tried[i] && pool[i].state.Pending? ==>
          pool[i].visibleUntil == t + seconds || pool[i].visibleUntil == -1
        invariant clean && over ==> forall i :: 0 <= i < |pool| ==> !(Wanted(pool[i], all, t) && !tried[i])
        invariant asked == [] ==> clean && pool == old(pool) && forall i :: 0 <= i < |pool| ==> !tried[i]
        invariant healthy ==> clean
        decreases Left(tried[..]), !over
      {
        ghost var before := pool;
        var last, fine, more := ExtendSome(tried, all, seconds, t, healthy, wanted);
        ShiftedOn(old(pool), before, pool);
        MoreHides(asked, more, seconds, wanted);
        over, clean, asked := last, clean && fine, asked + more;
      }
      if asked == [] { NoneWanted(old(pool), all, t); }
      AllAsked(old(pool), pool, tried[..], asked, all, t, clean);
    }

    // visibility: at t, every job wanted is extended. If all the calls worked, every job still pending is
    // hidden, as far as this worker can tell, until the horizon after t. All of them are asked for then, and no
    // job leaves that was not.
    method Visibility(all: bool, seconds: nat, plenty: bool, healthy: bool) returns (rc: int, t: int, ghost asked: seq<Ask>)
      requires Jobs() && Env() && (all || seconds >= EXTEND_HORIZON)
      modifies `pool, `poolTokens, sqs.aws, board
      ensures old(sqs.aws.q).next <= sqs.aws.q.next && sqs.aws.q.asks == old(sqs.aws.q).asks + asked
      ensures HideCalls(asked, seconds) && HidesOnly(asked, WantedSet(old(pool), all, t))
      ensures rc == 0 ==> forall r :: r in WantedSet(old(pool), all, t) ==> HideAsked(asked, r)
      ensures (plenty || healthy) && WantedSet(old(pool), all, t) != {} ==> asked != []
      ensures rc == 0 ==> forall j :: j in old(pool) && (if all then j.state.Pending? else j.visibleUntil < t + 600) ==>
        HideAsked(asked, j.m.receipt)
      ensures forall j :: j in old(pool) ==> j.visibleUntil == -1 || j in pool || HideAsked(asked, j.m.receipt)
      ensures Jobs() && Env() && |pool| <= |old(pool)| && PendingSet(pool) <= PendingSet(old(pool))
      ensures old(board.time) <= t <= board.time
      ensures rc == 0 || rc == -1
      ensures rc == 0 && !all ==> Hidden(pool, t + EXTEND_HORIZON)
      ensures healthy ==> rc == 0
      ensures Undelivered(pool) == Undelivered(old(pool)) && (AnyResult() <==> old(AnyResult()))
    {
      hide Jobs, PendingSet, Aws.Valid, Aws.Ideal, Careful, Strict, HideCalls, HidesOnly, HideAsked, WantedSet, Wanted, Shifted;
      t := board.Now();
      asked := NoHides(seconds, WantedSet(pool, all, t));
      var memory: bool := *;
      if !memory && !plenty && !healthy { return -1, t, []; }
      var clean;
      clean, asked := ExtendAll(all, seconds, t, healthy);
      WantedMeans(old(pool), all, t);
      ghost var was := pool;
      DropStale();
      ResultsStay(old(pool), was, pool);
      rc := if clean then 0 else -1;
      if clean && !all {
        AllHidden(was, pool, t, seconds);
      }
    }

    // ---- the network phase: topping up -----------------------------------------------------------------

    method PoolBytes() returns (bytes: nat)
      ensures bytes == BytesHeld(pool)
    {
      bytes := 0;
      var i := 0;
      while i < |pool|
        invariant 0 <= i <= |pool| && bytes == BytesHeld(pool[..i])
      {
        assert pool[..i + 1][..i] == pool[..i];
        bytes := bytes + |pool[i].m.body| + |pool[i].result| + pool[i].nIds * 4;
        i := i + 1;
      }
      assert pool[..i] == pool;
    }

    // How many messages to ask for.
    method Places() returns (max: int)
      ensures max == Room(pool, cfg) <= 10 && max <= cfg.poolMax - |pool|
    {
      hide BytesHeld;
      var used := PoolBytes();
      var room := if used < cfg.budget then (cfg.budget - used) / WORST_BODY else 0;
      max := if room < 10 then room else 10;
      if max > cfg.poolMax - |pool| { max := cfg.poolMax - |pool|; }
    }

    // One message in, if it is to be kept; with plenty of memory, every one that is an envelope.
    method TakeIn(m: Message, plenty: bool)
      requires Jobs() && Env() && Genuine(sqs.aws.q, m) && m.receipt < sqs.aws.q.next && |pool| < cfg.poolMax
      requires forall i :: 0 <= i < |pool| ==> pool[i].m.receipt < m.receipt
      modifies `pool, `poolTokens, board
      ensures Jobs() && Env() && board.time >= old(board.time)
      ensures pool == old(pool) || (model.envelope(m.body).Some? &&
        pool == old(pool) + [Taken(model, cfg, sick, m, board.time + VISIBILITY)])
      ensures plenty && model.envelope(m.body).Some? ==> |pool| == |old(pool)| + 1
      ensures forall r :: r in PendingSet(pool) ==> r in PendingSet(old(pool)) || r == m.receipt
    {
      hide PoolOk, PendingSet, PendingTokens, Aws.Valid, Aws.Ideal, Careful, Strict, JobOk, WhyNot, Genuine, Text;
      var verdict, j := Arrive(m, plenty);
      if verdict == Keep && !(j.state.Pending? && j.ids == []) {
        AppendKeeps(pool, j, sqs.aws.q, model);
        if j.state.Pending? { poolTokens := poolTokens + j.nIds; }
        pool := pool + [j];
      }
    }

    // top_up: up to three receives, while the pool is short of its target and has room. In good health
    // something arrives if the queue has anything, and with fewer than three no more was wanted, or there.
    method TopUp(healthy: bool) returns (arrived: nat, ghost asked: seq<Ask>)
      requires Jobs() && Env()
      modifies `pool, `poolTokens, sqs.aws, board
      ensures old(sqs.aws.q).next <= sqs.aws.q.next && sqs.aws.q.asks == old(sqs.aws.q).asks + asked && PollCalls(asked)
      ensures asked == [] <==> old(poolTokens) >= cfg.target || Room(old(pool), cfg) < 1
      ensures asked != [] ==> asked[0] == Poll(Room(old(pool), cfg), if old(pool) == [] then 20 else 0, 900)
      ensures healthy && |asked| < 3 ==> poolTokens >= cfg.target || Room(pool, cfg) < 1 || sqs.aws.q.ingest == {}
      ensures Jobs() && Env() && board.time >= old(board.time)
      ensures forall r :: r in PendingSet(pool) ==> r in PendingSet(old(pool)) || r >= old(sqs.aws.q).next
      ensures |pool| > |old(pool)| ==> arrived > 0
      ensures asked == [] ==> arrived == 0
      ensures old(pool) <= pool && NewSince(pool[|old(pool)|..], old(sqs.aws.q).next)
      ensures healthy && old(poolTokens) < cfg.target && Room(old(pool), cfg) >= 1 ==> arrived > 0 || sqs.aws.q.ingest == {}
    {
      hide PoolOk, PendingSet, PendingTokens, Aws.Valid, Aws.Ideal, Careful, Strict, Grown, Genuine, Room;
      arrived, asked := 0, [];
      SameGrown(sqs.aws.q);
      var r := 0;
      while r < MAX_RECEIVE
        invariant 0 <= r <= MAX_RECEIVE && Jobs() && Env() && board.time >= old(board.time)
        invariant sqs.aws.q.asks == old(sqs.aws.q).asks + asked && PollCalls(asked) && |asked| == r
        invariant asked != [] ==> old(poolTokens) < cfg.target && Room(old(pool), cfg) >= 1
        invariant asked != [] ==> asked[0] == Poll(Room(old(pool), cfg), if old(pool) == [] then 20 else 0, 900)
        invariant forall r :: r in PendingSet(pool) ==> r in PendingSet(old(pool)) || r >= old(sqs.aws.q).next
        invariant old(sqs.aws.q).next <= sqs.aws.q.next
        invariant (|pool| > |old(pool)| ==> arrived > 0) && old(pool) <= pool
        invariant NewSince(pool[|old(pool)|..], old(sqs.aws.q).next)
        invariant if r == 0 then arrived == 0 && pool == old(pool) && poolTokens == old(poolTokens) else arrived > 0
      {
        if poolTokens >= cfg.target { break; }
        var max := Places();
        if max < 1 { break; }
        var plenty: bool := *;
        ghost var held, from := pool, sqs.aws.q.next;
        var rc, got, _ := ReceiveInto(max, plenty || healthy, healthy);
        NewOn(old(pool), held, pool, old(sqs.aws.q).next, from);
        asked := asked + [Poll(max, if held == [] then 20 else 0, 900)];
        if rc != 0 { break; }
        arrived := arrived + got;
        if got == 0 { break; }
        r := r + 1;
      }
    }

    // One receive, and what becomes of each message. The jobs there were stay as they are; with plenty of
    // memory every envelope received is among the jobs.
    method ReceiveInto(max: nat, plenty: bool, healthy: bool) returns (rc: int, got: nat, ghost msgs: seq<Message>)
      requires Jobs() && Env() && 1 <= max <= 10 && |pool| + max <= cfg.poolMax
      modifies `pool, `poolTokens, sqs.aws, board
      ensures Jobs() && Env() && board.time >= old(board.time) && old(sqs.aws.q).next <= sqs.aws.q.next
      ensures sqs.aws.q.asks == old(sqs.aws.q).asks + [Poll(max, if old(pool) == [] then 20 else 0, 900)]
      ensures forall r :: r in PendingSet(pool) ==> r in PendingSet(old(pool)) || r >= old(sqs.aws.q).next
      ensures rc != 0 || got == 0 ==> pool == old(pool)
      ensures got == |msgs| && old(pool) <= pool && NewSince(pool[|old(pool)|..], old(sqs.aws.q).next)
      ensures healthy && plenty ==> rc == 0 && (got > 0 || sqs.aws.q.ingest == {})
      ensures plenty ==> forall k :: 0 <= k < |msgs| && model.envelope(msgs[k].body).Some? ==> Holding(pool, msgs[k].receipt)
    {
      hide PendingSet, PendingTokens, Aws.Valid, Aws.Ideal, Careful, Strict, Genuine, JobOk, Taken, Holding;
      ghost var was := sqs.aws.q;
      var status, received, _ := sqs.Receive(max, if pool == [] then LONG_POLL else 0, VISIBILITY, plenty, healthy);
      rc := status;
      PoolStays(pool, was, sqs.aws.q, model);
      NextGrows(was, sqs.aws.q);
      got, msgs := |received|, received;
      TakeEach(received, was.next, plenty);
    }

    // Each message of a reply, in order.
    method TakeEach(received: seq<Message>, ghost from: nat, plenty: bool)
      requires Jobs() && Env() && |pool| + |received| <= cfg.poolMax
      requires forall k :: 0 <= k < |received| ==> Genuine(sqs.aws.q, received[k]) && received[k].receipt < sqs.aws.q.next
      requires forall k, l :: 0 <= k < l < |received| ==> received[k].receipt < received[l].receipt
      requires forall i, k :: 0 <= i < |pool| && 0 <= k < |received| ==> pool[i].m.receipt < received[k].receipt
      requires forall k :: 0 <= k < |received| ==> from <= received[k].receipt
      modifies `pool, `poolTokens, board
      ensures Jobs() && Env() && board.time >= old(board.time) && old(pool) <= pool
      ensures received == [] ==> pool == old(pool)
      ensures NewSince(pool[|old(pool)|..], from)
      ensures forall r :: r in PendingSet(pool) ==> r in PendingSet(old(pool)) || exists k :: 0 <= k < |received| && received[k].receipt == r
      ensures plenty ==> forall k :: 0 <= k < |received| && model.envelope(received[k].body).Some? ==> Holding(pool, received[k].receipt)
    {
      hide PendingSet, PendingTokens, Aws.Valid, Aws.Ideal, Careful, Strict, Genuine, JobOk, Taken, PoolOk;
      var i := 0;
      while i < |received|
        invariant 0 <= i <= |received| && Jobs() && Env() && board.time >= old(board.time)
        invariant |pool| <= |old(pool)| + i && (i == 0 ==> pool == old(pool)) && old(pool) <= pool
        invariant NewSince(pool[|old(pool)|..], from)
        invariant forall k, l :: 0 <= k < |pool| && i <= l < |received| ==> pool[k].m.receipt < received[l].receipt
        invariant forall r :: r in PendingSet(pool) ==> r in PendingSet(old(pool)) || exists k :: 0 <= k < i && received[k].receipt == r
        invariant plenty ==> forall k :: 0 <= k < i && model.envelope(received[k].body).Some? ==> Holding(pool, received[k].receipt)
      {
        ghost var before := pool;
        TakeIn(received[i], plenty);
        TakenReceipt(model, cfg, sick, received[i], board.time + VISIBILITY);
        StillHolding(before, pool);
        i := i + 1;
      }
    }

    // ---- the pass ----------------------------------------------------------------------------------------

    // The oldest pending jobs, at most as many as a pass has room for.
    method GatherPending() returns (pend: seq<nat>)
      requires forall i :: 0 <= i < |pool| && pool[i].state.Pending? ==> pool[i].ids != []
      ensures Oldest(pool, pend)
    {
      pend := [];
      var i := 0;
      while i < |pool| && |pend| < PASS_JOBS
        invariant 0 <= i <= |pool| && |pend| <= PASS_JOBS
        invariant forall k :: 0 <= k < |pend| ==> pend[k] < i && pool[pend[k]].state.Pending?
        invariant forall k, l :: 0 <= k < l < |pend| ==> pend[k] < pend[l]
        invariant forall k :: 0 <= k < i && pool[k].state.Pending? ==> k in pend
      {
        if pool[i].state.Pending? && pool[i].ids != [] {
          pend := pend + [i];
        }
        i := i + 1;
      }
    }

    // Which of them go: the oldest, alone if it is on its second delivery; or with whatever the planner
    // fits in beside it, and nothing on its second delivery ever joins.
    method Choose(pend: seq<nat>) returns (picks: seq<nat>)
      requires 0 < |pend| <= PASS_JOBS && forall k :: 0 <= k < |pend| ==> pend[k] < |pool|
      ensures picks == Picks(pool, pend, cfg.target)
    {
      hide PlanLens, Batch.Plan;
      NoLens(pool);
      if pool[pend[0]].solo { return [0]; }
      var lens: seq<int> := [];
      var k := 0;
      while k < |pend|
        invariant 0 <= k <= |pend| && lens == PlanLens(pool, pend[..k])
      {
        LensMore(pool, pend, k);
        lens := lens + [if pool[pend[k]].solo then MAX_TOKENS + 1 else pool[pend[k]].nIds];
        k := k + 1;
      }
      assert pend[..k] == pend;
      var pick := new nat[PASS_JOBS];
      var np := Batch.BatchPlan(lens, MAX_TOKENS, cfg.target, pick);
      return pick[..np];
    }

    // The ids of the jobs chosen, one after the other, and how many each has.
    method Pack(chosen: seq<nat>) returns (ids: seq<int>, lens: seq<nat>)
      requires forall k :: 0 <= k < |chosen| ==> chosen[k] < |pool| && pool[chosen[k]].nIds == |pool[chosen[k]].ids|
      ensures ids == Concat(IdsOf(pool, chosen)) && lens == Lengths(IdsOf(pool, chosen))
    {
      hide Concat, Lengths, IdsOf;
      NoIds(pool);
      ids, lens := [], [];
      var k := 0;
      while k < |chosen|
        invariant 0 <= k <= |chosen|
        invariant ids == Concat(IdsOf(pool, chosen[..k])) && lens == Lengths(IdsOf(pool, chosen[..k]))
      {
        var j := pool[chosen[k]];
        assert chosen[..k + 1][..k] == chosen[..k];
        IdsOfSnoc(pool, chosen[..k], chosen[k]);
        assert chosen[..k + 1] == chosen[..k] + [chosen[k]];
        ids := ids + j.ids;
        lens := lens + [j.nIds];
        k := k + 1;
      }
      assert chosen[..k] == chosen;
    }

    // A vector each, and each fit for Cal; or not.
    method Clean(vecs: seq<seq<Bits>>) returns (ok: bool)
      ensures ok <==> forall k :: 0 <= k < |vecs| ==> Acceptable(model, vecs[k])
    {
      var k := 0;
      while k < |vecs|
        invariant 0 <= k <= |vecs| && forall l :: 0 <= l < k ==> Acceptable(model, vecs[l])
      {
        var fine := VectorOk(model, vecs[k]);
        if !fine { return false; }
        k := k + 1;
      }
      return true;
    }

    // The results of a good pass, each job its own vector. lost are those memory ran out on.
    method FinishAll(chosen: seq<nat>, vecs: seq<seq<Bits>>, stats: Results.Pass, plenty: bool) returns (lost: nat)
      requires Jobs() && Strict(model) && Going(pool, chosen) && |vecs| == |chosen|
      requires forall k :: 0 <= k < |chosen| ==>
        && Acceptable(model, vecs[k]) && vecs[k] == model.embed(pool[chosen[k]].ids)
        && pool[chosen[k]].nIds == |pool[chosen[k]].ids|
      modifies `pool, `poolTokens
      ensures Jobs() && |pool| == |old(pool)| && PendingSet(pool) <= PendingSet(old(pool))
      ensures forall i :: 0 <= i < |pool| && i !in chosen ==> pool[i] == old(pool)[i]
      ensures forall k :: 0 <= k < |chosen| ==>
        WithVector(cfg, old(pool)[chosen[k]], pool[chosen[k]], vecs[k], stats) || (lost > 0 && pool[chosen[k]] == old(pool)[chosen[k]])
      ensures lost == 0 ==> PendingSet(pool) == PendingSet(old(pool)) - ReceiptSet(old(pool), chosen)
      ensures plenty ==> lost == 0
    {
      hide PoolOk, PendingSet, PendingTokens, Acceptable, Answered, WithVector, ReceiptSet, VectorsTo;
      NoVectors(cfg, pool, chosen, vecs, stats);
      lost := 0;
      assert chosen[..0] == [];
      NoReceipts(pool);
      var k := 0;
      while k < |chosen|
        invariant 0 <= k <= |chosen| && Jobs() && |pool| == |old(pool)| && PendingSet(pool) <= PendingSet(old(pool))
        invariant VectorsTo(cfg, old(pool), pool, chosen, vecs, stats, lost > 0, k)
        invariant lost == 0 ==> PendingSet(pool) == PendingSet(old(pool)) - ReceiptSet(old(pool), chosen[..k])
        invariant plenty ==> lost == 0
      {
        var i := chosen[k];
        ReceiptsMore(old(pool), chosen, k);
        ghost var before := pool;
        NextAsWas(cfg, old(pool), pool, chosen, vecs, stats, lost > 0, k);
        var ok := Finish(i, EmbeddedAs(cfg, pool[i], vecs[k]), Some(stats), plenty);
        if ok { IsWithVector(cfg, old(pool)[i], pool[i], vecs[k], stats); }
        VectorsMore(cfg, old(pool), before, pool, chosen, vecs, stats, lost > 0, k, ok);
        if !ok { lost := lost + 1; }
        k := k + 1;
      }
      VectorsSay(cfg, old(pool), pool, chosen, vecs, stats, lost > 0);
      assert chosen[..k] == chosen;
    }

    // The jobs of a bad pass, to Cal.
    method GiveBack(chosen: seq<nat>, plenty: bool) returns (lost: nat)
      requires Jobs() && Strict(model) && Going(pool, chosen)
      modifies `pool, `poolTokens
      ensures Jobs() && |pool| == |old(pool)| && PendingSet(pool) <= PendingSet(old(pool))
      ensures forall i :: 0 <= i < |pool| && i !in chosen ==> pool[i] == old(pool)[i]
      ensures forall k :: 0 <= k < |chosen| ==> Returned(cfg, old(pool)[chosen[k]], pool[chosen[k]], plenty)
      ensures lost == 0 ==> PendingSet(pool) == PendingSet(old(pool)) - ReceiptSet(old(pool), chosen)
      ensures plenty ==> lost == 0
    {
      hide PoolOk, PendingSet, PendingTokens, Answered, Returned, SentBack, ReceiptSet, ReturnedTo;
      NoneReturnedYet(cfg, pool, chosen, plenty);
      lost := 0;
      assert chosen[..0] == [];
      NoReceipts(pool);
      var k := 0;
      while k < |chosen|
        invariant 0 <= k <= |chosen| && Jobs() && |pool| == |old(pool)| && PendingSet(pool) <= PendingSet(old(pool))
        invariant ReturnedTo(cfg, old(pool), pool, chosen, plenty, k)
        invariant lost == 0 ==> PendingSet(pool) == PendingSet(old(pool)) - ReceiptSet(old(pool), chosen[..k])
        invariant plenty ==> lost == 0
      {
        var i := chosen[k];
        ReceiptsMore(old(pool), chosen, k);
        ghost var before := pool;
        NextStill(cfg, old(pool), pool, chosen, plenty, k);
        var ok := Unembedded(i, KATA_UNHEALTHY, plenty);
        IsReturned(cfg, old(pool)[i], pool[i], ok, plenty);
        ReturnedMore(cfg, old(pool), before, pool[i], chosen, plenty, k);
        assert pool == before[i := pool[i]];
        if !ok { lost := lost + 1; }
        k := k + 1;
      }
      ReturnedSay(cfg, old(pool), pool, chosen, plenty);
      assert chosen[..k] == chosen;
    }

    // Which jobs the next pass carries: none if nothing is pending, or memory runs out.
    method Prepare(plenty: bool) returns (chosen: seq<nat>)
      requires Jobs()
      ensures chosen != [] ==>
        AsPlanned(pool, cfg.target, chosen) && FitsPass(pool, chosen) && FirstPending(pool, chosen[0])
      ensures plenty && chosen == [] ==> PendingSet(pool) == {}
    {
      hide PoolOk, PendingTokens, Oldest, FitsPass, FirstPending, Picks;
      AllHaveIds(pool, sqs.aws.q, model);
      var pend := GatherPending();
      if pend == [] {
        NonePending(pool, pend);
        return [];
      }
      var picks := Choose(pend);
      var memory: bool := *;
      if !memory && !plenty { return []; }
      chosen := Select(pend, picks);
      ChosenOk(pool, pend, cfg.target, sqs.aws.q, model);
    }

    // The pass itself: a vector for each job, its own, if it comes back clean and every one is fit for Cal.
    method Carry(chosen: seq<nat>, clean: bool) returns (rc: int, vecs: seq<seq<Bits>>, stats: Results.Pass)
      requires chosen != [] && FitsPass(pool, chosen)
      modifies board
      ensures old(board.time) <= board.time && |vecs| == |chosen|
      ensures stats.segments == |chosen| && stats.tokens == CarriedTokens(Record(pool, chosen))
      ensures rc == 0 <==> clean && AllAcceptable(model, Record(pool, chosen))
      ensures rc == 0 ==> forall k :: 0 <= k < |chosen| ==>
        Acceptable(model, vecs[k]) && vecs[k] == model.embed(pool[chosen[k]].ids)
    {
      hide Acceptable, AllAcceptable, Concat, Lengths, Total, IdsOf, PassOk, Record, TokensOf, CarriedTokens;
      AcceptableRecord(model, pool, chosen);
      PackedTokens(pool, chosen);
      RecordTokens(pool, chosen);
      var ids, lens := Pack(chosen);
      ConcatLength(IdsOf(pool, chosen));
      var ms;
      rc, vecs, ms := board.Embed(model, ids, lens, clean);
      stats := Results.Pass(|chosen|, |ids|, ms);
      if rc == 0 {
        VectorsFit(pool, chosen, ids, lens, vecs, model);
      }
      var fine := Clean(vecs);
      if !fine { rc := -1; }
    }

    // What comes of it: results for all of them, or, of a bad pass, all of them to Cal; and after three
    // bad passes in a row, everything.
    method Settle(chosen: seq<nat>, rc: int, vecs: seq<seq<Bits>>, stats: Results.Pass, plenty: bool) returns (lost: nat)
      requires Jobs() && Env() && Flags() && !sick && Going(pool, chosen) && |vecs| == |chosen|
      requires rc == 0 ==> forall k :: 0 <= k < |chosen| ==>
        && Acceptable(model, vecs[k]) && vecs[k] == model.embed(pool[chosen[k]].ids)
        && pool[chosen[k]].nIds == |pool[chosen[k]].ids|
      modifies `pool, `poolTokens, `sick, `badInRow, `nextHealth, board
      ensures Jobs() && Env() && Flags() && |pool| == |old(pool)| && board.time >= old(board.time)
      ensures PendingSet(pool) <= PendingSet(old(pool))
      ensures lost == 0 ==> PendingSet(pool) <= PendingSet(old(pool)) - ReceiptSet(old(pool), chosen)
      ensures plenty ==> lost == 0
      ensures badInRow == if rc == 0 && lost == 0 then 0 else old(badInRow) + 1
      ensures if badInRow < 3 then nextHealth == old(nextHealth) else nextHealth == board.time + 1800
      ensures forall i :: 0 <= i < |pool| && i !in chosen ==>
        if sick then Returned(cfg, old(pool)[i], pool[i], plenty) else pool[i] == old(pool)[i]
      ensures forall k :: 0 <= k < |chosen| ==>
        if rc == 0 && lost == 0 then WithVector(cfg, old(pool)[chosen[k]], pool[chosen[k]], vecs[k], stats)
        else if rc == 0 then
          || WithVector(cfg, old(pool)[chosen[k]], pool[chosen[k]], vecs[k], stats)
          || Returned(cfg, old(pool)[chosen[k]], pool[chosen[k]], plenty)
        else Returned(cfg, old(pool)[chosen[k]], pool[chosen[k]], plenty)
    {
      hide PoolOk, PendingSet, PendingTokens, Aws.Valid, Aws.Ideal, Careful, Strict, Acceptable, ReceiptSet, WithVector, Returned;
      if rc == 0 {
        lost := FinishAll(chosen, vecs, stats, plenty);
        badInRow := if lost > 0 then badInRow + 1 else 0;
      } else {
        badInRow := badInRow + 1;
        lost := GiveBack(chosen, plenty);
      }
      ghost var mid := pool;
      if badInRow >= BAD_PASSES { GoSick(plenty); }
      StillReturned(cfg, old(pool), mid, pool, plenty);
      forall k | 0 <= k < |chosen| && WithVector(cfg, old(pool)[chosen[k]], mid[chosen[k]], vecs[k], stats)
        ensures WithVector(cfg, old(pool)[chosen[k]], pool[chosen[k]], vecs[k], stats)
      {
        StillWithVector(cfg, old(pool)[chosen[k]], mid[chosen[k]], pool[chosen[k]], vecs[k], stats, plenty);
      }
    }

    // pass: only when every pending job is hidden, as far as the worker can tell, until the horizon after
    // the scan. moved says that memory held throughout, as it does if there is plenty; then whatever was
    // chosen is no longer pending, the oldest first of all. clean says how the pass itself comes back: if well, and
    // with vectors that are all fit for Cal, every job has its own; if not, all of them go to Cal.
    method Pass(ghost scan: int, plenty: bool, clean: bool) returns (moved: bool, ghost chosen: seq<nat>)
      requires Jobs() && Env() && Flags() && !sick && Hidden(pool, scan + EXTEND_HORIZON)
      requires AllPassesOk(passes)
      modifies `pool, `poolTokens, `sick, `badInRow, `nextHealth, `progressAt, `passes, `undelivered, `turns, board
      ensures Jobs() && Env() && Flags() && |pool| == |old(pool)| && board.time >= old(board.time)
      ensures PendingSet(pool) <= PendingSet(old(pool))
      ensures if chosen == [] then progressAt == old(progressAt) else 0 < progressAt && old(board.time) <= progressAt
      ensures AllPassesOk(passes)
      ensures turns == old(turns) + (if moved then 1 else 0)
      ensures moved ==> Moved(PendingSet(old(pool)), PendingSet(pool))
      ensures plenty && PendingSet(old(pool)) != {} ==> moved
      ensures chosen == [] ==> pool == old(pool) && passes == old(passes) && undelivered == old(undelivered)
      ensures chosen == [] ==> !sick && badInRow == old(badInRow) && nextHealth == old(nextHealth)
      ensures chosen != [] ==> badInRow == 0 || badInRow == old(badInRow) + 1
      ensures if badInRow < 3 then !sick && nextHealth == old(nextHealth) else sick && nextHealth >= old(board.time) + 1800
      ensures chosen != [] ==> AsPlanned(old(pool), cfg.target, chosen) && FitsPass(old(pool), chosen)
      ensures chosen != [] ==> passes == old(passes) + [Record(old(pool), chosen)]
      ensures chosen != [] ==> HeldUntil(Record(old(pool), chosen), scan + 600)
      ensures chosen != [] && !(clean && AllAcceptable(model, Record(old(pool), chosen))) ==>
        badInRow == old(badInRow) + 1 && AllReturned(cfg, old(pool), pool, chosen, plenty)
      ensures chosen != [] && clean && plenty && AllAcceptable(model, Record(old(pool), chosen)) ==>
        badInRow == 0 && AllEmbedded(cfg, model, old(pool), pool, chosen, CarriedTokens(Record(old(pool), chosen)))
      ensures chosen != [] ==> undelivered == old(undelivered) + [Undelivered(old(pool))]
      ensures forall i :: 0 <= i < |pool| && i !in chosen ==>
        if sick then Returned(cfg, old(pool)[i], pool[i], plenty) else pool[i] == old(pool)[i]
      ensures chosen != [] ==> AllFated(cfg, model, old(pool), pool, chosen, CarriedTokens(Record(old(pool), chosen)))
    {
      hide Jobs, PendingSet, Aws.Valid, Aws.Ideal, Careful, Strict, PassOk, FitsPass, FirstPending, Acceptable, Moved,
        ReceiptSet, Record, Hidden, HeldUntil, AsPlanned, WithVector, Returned, AllReturned, AllFated, AllEmbedded, CarriedTokens,
        AllAcceptable;
      var going := Prepare(plenty);
      chosen := going;
      if going == [] { return false, []; }
      FitsFacts(pool, going);
      RecordHeld(pool, going, scan + EXTEND_HORIZON);
      passes := passes + [Record(pool, going)];
      undelivered := undelivered + [Undelivered(pool)];
      var rc, vecs, stats := Carry(going, clean);
      progressAt := board.Now();
      var lost := Settle(going, rc, vecs, stats, plenty);
      moved := lost == 0;
      FatesOf(cfg, model, old(pool), pool, going, rc, vecs, stats, plenty);
      if rc == 0 && lost == 0 { EmbeddingsOf(cfg, model, old(pool), pool, going, vecs, stats); }
      if moved {
        turns := turns + 1;
        OldestGone(old(pool), going, PendingSet(pool));
      }
    }

    // ---- a step --------------------------------------------------------------------------------------------

    ghost predicate Valid()
      reads this, sqs.aws, board
    {
      && Env() && Jobs() && Flags() && AllPassesOk(passes) && |undelivered| == |passes|
      && (parked ==> pool == [])
      && progressAt >= 0 && (pool != [] ==> progressAt > 0)
      && Waiting(retry)
    }

    // How long the last failures made it wait: not at all, or one of these.
    static predicate Waiting(retry: nat) {
      retry in {0, 30, 60, 120, 240, 300}
    }

    // Thirty seconds, then twice as long each time, up to five minutes.
    method Backoff() returns (wait: nat)
      requires Waiting(retry)
      modifies `retry
      ensures Waiting(retry) && wait == retry > 0 && old(retry) <= retry
    {
      retry := if retry == 0 then 30 else if retry * 2 > 300 then 300 else retry * 2;
      wait := retry;
    }

    // A sick worker checks its health now and then, and is well again if it finds itself so; if not, the next
    // check is half an hour later. well is what a check finds; at is when it asks whether one is due.
    method CheckHealth(well: bool) returns (due: bool, ghost at: int)
      requires Valid()
      modifies `sick, `badInRow, `nextHealth, board
      ensures Valid() && old(board.time) <= at <= board.time
      ensures due <==> old(sick) && !parkRequested && at >= old(nextHealth)
      ensures due && well ==> !sick && badInRow == 0 && nextHealth == old(nextHealth)
      ensures due && !well ==> sick && badInRow == old(badInRow) && nextHealth == board.time + 1800
      ensures !due ==> sick == old(sick) && badInRow == old(badInRow) && nextHealth == old(nextHealth)
    {
      hide Aws.Valid, Aws.Ideal, Careful, Strict, Jobs, AllPassesOk;
      due, at := false, board.time;
      if sick && !parkRequested {
        var t := board.Now();
        at := t;
        if t >= nextHealth {
          due := true;
          if well {
            sick, badInRow := false, 0;
          } else {
            t := board.Now();
            nextHealth := t + HEALTH_EVERY;
          }
        }
      }
    }

    // Pending jobs back to the queue; results stay.
    method DropPending()
      requires Jobs()
      modifies `pool, `poolTokens
      ensures Jobs() && |pool| <= |old(pool)| && PendingSet(pool) == {}
      ensures forall j :: j in pool <==> j in old(pool) && !j.state.Pending?
    {
      hide Jobs, PendingSet;
      var i := |pool|;
      while i > 0
        invariant 0 <= i <= |pool| <= |old(pool)| && Jobs()
        invariant forall j :: j in pool ==> j in old(pool)
        invariant forall j :: j in old(pool) && !j.state.Pending? ==> j in pool
        invariant forall k :: i <= k < |pool| ==> !pool[k].state.Pending?
      {
        i := i - 1;
        if pool[i].state.Pending? {
          ghost var was := pool;
          Remove(i);
          assert forall k :: i <= k < |pool| ==> pool[k] == was[k + 1];
        }
      }
      NonePendingAt(pool);
    }

    // For an update: what is finished has been handed off, what is not goes back to the queue at once. What could
    // not be handed off stays, and stays hidden.
    method Park(plenty: bool, healthy: bool) returns (wait: nat, ghost released: seq<Ask>, ghost hidden: seq<Ask>)
      requires Jobs() && Env() && progressAt >= 0 && (pool != [] ==> progressAt > 0) && !parked
      modifies `pool, `poolTokens, `progressAt, `parked, sqs.aws, board
      ensures old(sqs.aws.q).next <= sqs.aws.q.next && sqs.aws.q.asks == old(sqs.aws.q).asks + released + hidden
      ensures HideCalls(released, 0) && HidesOnly(released, PendingSet(old(pool))) && HideCalls(hidden, 900)
      ensures (plenty || healthy) && PendingSet(old(pool)) != {} ==> released != []
      ensures healthy ==> forall r :: r in PendingSet(old(pool)) ==> HideAsked(released, r)
      ensures Undelivered(pool) == Undelivered(old(pool)) && wait == if parked then 0 else 5
      ensures (parked <==> !old(AnyResult())) && (parked ==> progressAt == 0)
      ensures Jobs() && Env() && board.time >= old(board.time) && (parked ==> pool == [])
      ensures PendingSet(pool) == {} && progressAt >= 0 && (pool != [] ==> progressAt > 0)
    {
      hide Jobs, PendingSet, Undelivered, Aws.Valid, Aws.Ideal, Careful, Strict, HideCalls, HidesOnly, HideAsked, WantedSet;
      var _, t, asked := Visibility(true, 0, plenty, healthy);
      AllWanted(old(pool), t);
      released, hidden := asked, [];
      NoneHidden();
      ghost var was := pool;
      DropPending();
      KeptResults(was, pool);
      if |pool| == 0 {
        progressAt := 0;
        parked := true;
        return 0, released, [];
      }
      var online: bool := *;
      if online {
        var _, _, more := Visibility(false, VISIBILITY, plenty, healthy);
        hidden := more;
        NoneLeft(pool);
      }
      return 5, released, hidden;
    }

    predicate AnyResult() reads `pool { exists i :: 0 <= i < |pool| && !pool[i].state.Pending? }

    predicate AnyUndelivered() reads `pool { exists i :: 0 <= i < |pool| && pool[i].state.Finished? }

    predicate AnyPending() reads `pool { exists i :: 0 <= i < |pool| && pool[i].state.Pending? }

    // The hand-off a step begins with. In good health it leaves pending jobs only, and as much room as there was.
    method Deliver(plenty: bool, healthy: bool) returns (ghost offered: seq<Ask>, ghost removed: seq<Ask>)
      requires Valid() && !parked
      modifies `pool, `poolTokens, `progressAt, sqs.aws, board
      ensures Valid() && old(sqs.aws.q).next <= sqs.aws.q.next && PendingSet(pool) == PendingSet(old(pool))
      ensures board.time >= old(board.time)
      ensures sqs.aws.q.asks == old(sqs.aws.q).asks + offered + removed && OfferCalls(offered) && RemoveCalls(removed)
      ensures Among(offered, FinishedTexts(old(pool)))
      ensures (plenty || healthy) && (exists j :: j in old(pool) && j.state.Finished? && |j.result| <= 262144) ==> offered != []
      ensures healthy ==> !AnyResult() && poolTokens <= old(poolTokens) && Room(old(pool), cfg) <= Room(pool, cfg)
    {
      hide Aws.Valid, Aws.Ideal, Careful, Strict, PoolOk, PendingTokens, PendingSet, AllPassesOk, Room, OfferCalls, RemoveCalls, Among,
        FinishedTexts, DeleteAsked, Holding;
      ghost var before := sqs.aws.q;
      var _, _, o, r := Handoff(plenty, healthy);
      offered, removed := o, r;
      if healthy {
        RoomGrows(pool, old(pool), sqs.aws.q, before, model, cfg);
      }
    }

    // More time for every job of the pool that needs it.
    method Extend(plenty: bool, healthy: bool) returns (ghost hidden: seq<Ask>)
      requires Valid() && !parked
      modifies `pool, `poolTokens, sqs.aws, board
      ensures Valid() && old(sqs.aws.q).next <= sqs.aws.q.next && PendingSet(pool) <= PendingSet(old(pool))
      ensures sqs.aws.q.asks == old(sqs.aws.q).asks + hidden && HideCalls(hidden, 900)
      ensures (plenty || healthy) && WantedSet(old(pool), false, old(board.time)) != {} ==> hidden != []
      ensures healthy ==> forall r :: r in WantedSet(old(pool), false, old(board.time)) ==> HideAsked(hidden, r)
      ensures Undelivered(pool) == Undelivered(old(pool))
    {
      hide Env, Jobs, PendingSet, AllPassesOk, Undelivered, HideCalls, HidesOnly, HideAsked, WantedSet;
      var _, t, asked := Visibility(false, VISIBILITY, plenty, healthy);
      WantedLater(old(pool), old(board.time), t);
      hidden := asked;
    }

    // worker_step: a network phase and then, if there is work and it is safe to start, one pass. It says
    // how long to wait before the next. In good health it parks if that is asked for, and otherwise either
    // gets further with the pending jobs or has none left. came are the jobs its top-up took in, and left the
    // results its second hand-off did not deliver: a pass starts with those undelivered and no others. well is what
    // a health check finds, if one is due, and clean how the pass comes back; talk is all it asks of SQS, in order.
    method Step(healthy: bool, plenty: bool, well: bool, clean: bool)
      returns (wait: nat, ghost came: seq<Job>, ghost left: set<nat>, ghost talk: Talk, ghost due: bool, ghost at: int)
      requires Valid()
      modifies this, sqs.aws, board
      ensures old(sqs.aws.q).next <= sqs.aws.q.next
      ensures Valid() && old(passes) <= passes && old(turns) <= turns
      ensures PassedWith(old(undelivered), undelivered, came, left, old(sqs.aws.q).next)
      ensures healthy ==> left == {}
      ensures old(parked) ==> pool == old(pool) && passes == old(passes) && parked
      ensures healthy && parkRequested ==> parked
      ensures healthy && !parked ==> turns == old(turns) + 1 || PendingSet(pool) == {}
      ensures !parked && !parkRequested ==> WaitFits(wait, talk.arrived)
      ensures Waits(PendingSet(old(pool)), PendingSet(pool), old(sqs.aws.q).next, turns - old(turns))
      ensures came != [] ==> talk.arrived > 0
      ensures plenty && (exists j :: j in came && j.state.Finished? && |j.result| <= 262144) ==> talk.forwarded != []
      ensures old(board.time) <= at && (old(parked) ==> wait == 5 && !due && talk == SILENT)
      ensures !old(parked) ==> (due <==> old(sick) && !old(parkRequested) && at >= old(nextHealth))
      ensures due && well ==> !sick && badInRow <= 1
      ensures due && !well ==> sick && badInRow == old(badInRow) && nextHealth >= at + 1800
      ensures old(sick) && !due ==> sick && badInRow == old(badInRow) && nextHealth == old(nextHealth)
      ensures !old(sick) && passes == old(passes) ==> !sick && badInRow == old(badInRow)
      ensures old(sick) && !(due && well) ==> passes == old(passes)
      ensures !old(sick) ==> badInRow == old(badInRow) || badInRow == 0 || badInRow == old(badInRow) + 1
      ensures sqs.aws.q.asks == old(sqs.aws.q).asks + talk.offered + talk.removed + talk.polled + talk.forwarded + talk.cleared
        + talk.released + talk.hidden
      ensures Proper(talk) && Among(talk.offered, FinishedTexts(old(pool)))
      ensures healthy && !old(parked) && (exists j :: j in old(pool) && j.state.Finished? && |j.result| <= 262144) ==>
        talk.offered != []
      ensures parkRequested ==> talk.polled == talk.forwarded == talk.cleared == []
      ensures !parkRequested ==> talk.released == []
      ensures healthy && parkRequested && !old(parked) ==>
        wait == 0 && forall r :: r in PendingSet(old(pool)) ==> HideAsked(talk.released, r)
      ensures healthy && !parkRequested && !old(parked) && old(poolTokens) < cfg.target && Room(old(pool), cfg) >= 1 ==>
        talk.polled != []
      ensures passes == old(passes) ||
        (|passes| == |old(passes)| + 1 && HeldUntil(passes[|old(passes)|], old(board.time) + 600))
      ensures passes != old(passes) ==>
        PassCounts(old(passes), passes, if due then 0 else old(badInRow), badInRow, clean, plenty || healthy)
    {
      hide Env, Jobs, PendingSet, Waits, AllPassesOk, Moved, PassedWith, Undelivered, NewSince, Flags, OfferCalls, RemoveCalls, Among,
        FinishedTexts, HideAsked, HideCalls, PollCalls, Room, HeldUntil, PassCounts;
      NoWait(PendingSet(pool), sqs.aws.q.next);
      came, left, talk, due, at := [], {}, SILENT, false, board.time;
      ProperSilence(FinishedTexts(pool));
      NoPass(undelivered, [], {}, sqs.aws.q.next);
      if parked { return 5, [], {}, SILENT, false, board.time; }
      ghost var checked;
      due, checked := CheckHealth(well);
      at := checked;
      var online: bool := *;
      if !online && !healthy {
        wait := Backoff();
        return;
      }
      ghost var offered, removed := Deliver(plenty, healthy);
      Fewer(PendingSet(old(pool)), PendingSet(pool), old(sqs.aws.q).next);
      ghost var before, next, from := PendingSet(pool), sqs.aws.q.next, board.time;
      wait, came, left, talk := Online(healthy, plenty, clean);
      talk := talk.(offered := offered, removed := removed);
      if passes != old(passes) { HeldLonger(passes[|old(passes)|], from + 600, old(board.time) + 600); }
      StillNew(old(undelivered), undelivered, came, left, old(sqs.aws.q).next, next);
      WaitsOn(PendingSet(old(pool)), before, PendingSet(pool), old(sqs.aws.q).next, next, 0, turns - old(turns));
    }

    // The step from there: it parks if that is asked for, waits with a result Cal did not take, and else works.
    method Online(healthy: bool, plenty: bool, clean: bool) returns (wait: nat, ghost came: seq<Job>, ghost left: set<nat>, ghost talk: Talk)
      requires Valid() && !parked && (healthy ==> !AnyResult())
      modifies this, sqs.aws, board
      ensures old(sqs.aws.q).next <= sqs.aws.q.next
      ensures Valid() && old(passes) <= passes && old(turns) <= turns
      ensures PassedWith(old(undelivered), undelivered, came, left, old(sqs.aws.q).next)
      ensures healthy ==> left == {}
      ensures healthy && parkRequested ==> parked
      ensures healthy && !parked ==> turns == old(turns) + 1 || PendingSet(pool) == {}
      ensures !parked && !parkRequested ==> WaitFits(wait, talk.arrived)
      ensures came != [] ==> talk.arrived > 0
      ensures plenty && (exists j :: j in came && j.state.Finished? && |j.result| <= 262144) ==> talk.forwarded != []
      ensures plenty && parkRequested && PendingSet(old(pool)) != {} ==> talk.released != []
      ensures plenty && !parkRequested && old(AnyResult()) && WantedSet(old(pool), false, old(board.time)) != {} ==>
        talk.hidden != []
      ensures Waits(PendingSet(old(pool)), PendingSet(pool), old(sqs.aws.q).next, turns - old(turns))
      ensures sqs.aws.q.asks == old(sqs.aws.q).asks + talk.polled + talk.forwarded + talk.cleared + talk.released + talk.hidden
      ensures Proper(talk) && talk.offered == talk.removed == []
      ensures parkRequested ==> talk.polled == talk.forwarded == talk.cleared == []
      ensures !parkRequested ==> talk.released == []
      ensures healthy && parkRequested ==> wait == 0 && forall r :: r in PendingSet(old(pool)) ==> HideAsked(talk.released, r)
      ensures !parkRequested && !old(AnyResult()) ==>
        (talk.polled == [] <==> old(poolTokens) >= cfg.target || Room(old(pool), cfg) < 1)
      ensures (old(sick) || passes == old(passes)) ==>
        sick == old(sick) && badInRow == old(badInRow) && nextHealth == old(nextHealth)
      ensures old(sick) ==> passes == old(passes)
      ensures badInRow == old(badInRow) || badInRow == 0 || badInRow == old(badInRow) + 1
      ensures sick ==> badInRow >= 3
      ensures passes == old(passes) ||
        (|passes| == |old(passes)| + 1 && HeldUntil(passes[|old(passes)|], old(board.time) + 600))
      ensures passes != old(passes) ==> PassCounts(old(passes), passes, old(badInRow), badInRow, clean, plenty || healthy)
    {
      hide Env, Jobs, PendingSet, Waits, AllPassesOk, Moved, PassedWith, Undelivered, NewSince, OfferCalls, RemoveCalls, HideAsked,
        HideCalls, PollCalls, Room, HeldUntil, HidesOnly, WantedSet, PassCounts;
      came, left, talk := [], {}, SILENT;
      ProperSilence({});
      NoPass(undelivered, [], {}, sqs.aws.q.next);
      var asked: bool := *;
      parkRequested := parkRequested || asked;
      if parkRequested {
        ghost var released, hidden;
        wait, released, hidden := Park(plenty, healthy);
        talk := SILENT.(released := released, hidden := hidden);
        Fewer(PendingSet(old(pool)), PendingSet(pool), old(sqs.aws.q).next);
        return;
      }
      if AnyResult() {
        ghost var hidden := Extend(plenty, healthy);
        talk := SILENT.(hidden := hidden);
        Fewer(PendingSet(old(pool)), PendingSet(pool), old(sqs.aws.q).next);
        wait := Backoff();
        return;
      }
      wait, came, left, talk := Work(healthy, plenty, clean);
    }

    // What goes straight to Cal, and the hand-off of it, if there is any.
    method Forward(plenty: bool, healthy: bool) returns (ghost offered: seq<Ask>, ghost removed: seq<Ask>)
      requires Jobs() && Env() && forall j :: j in pool ==> !j.state.Deleting?
      modifies `pool, `poolTokens, `progressAt, sqs.aws, board
      ensures sqs.aws.q.asks == old(sqs.aws.q).asks + offered + removed && OfferCalls(offered) && RemoveCalls(removed)
      ensures !sick ==> Among(offered, FinishedTexts(old(pool)))
      ensures (plenty || healthy) && (exists j :: j in old(pool) && j.state.Finished? && |j.result| <= 262144) ==> offered != []
      ensures Jobs() && Env() && board.time >= old(board.time)
      ensures old(sqs.aws.q).next <= sqs.aws.q.next && |pool| <= |old(pool)| && PendingSet(pool) <= PendingSet(old(pool))
      ensures progressAt == old(progressAt) || progressAt > 0
      ensures !sick ==> forall j: Job :: j.state.Pending? ==> (j in pool <==> j in old(pool))
      ensures !sick ==> forall j :: j in pool && j.state.Finished? ==> j in old(pool)
      ensures !sick && !old(AnyUndelivered()) ==> pool == old(pool)
      ensures forall j :: j in old(pool) && j.state.Finished? && !TooBig(j) ==> j in pool || j.result in sqs.aws.q.results
      ensures (plenty || healthy) && sick ==> PendingSet(pool) == {}
      ensures healthy ==> !AnyResult()
    {
      hide Jobs, PendingSet, Aws.Valid, Aws.Ideal, Careful, Strict, Returned, OfferCalls, RemoveCalls, Among, FinishedTexts,
        DeleteAsked, Holding;
      ProperSilence(FinishedTexts(pool));
      offered, removed := [], [];
      if sick {
        ghost var was := pool;
        AllUnembedded(plenty || healthy);
        ReturnedStates(cfg, was, pool, plenty || healthy);
        AnsweredStay(cfg, was, pool, plenty || healthy);
        if plenty || healthy { NoneReturned(cfg, was, pool); }
      }
      if AnyUndelivered() {
        var _, _, o, r := Handoff(plenty, healthy);
        offered, removed := o, r;
      }
    }

    // New jobs in, and what of them goes straight to Cal out again. The stall clock runs from here while
    // there is work, and stops when there is none. left are the results the hand-off did not deliver: none of a
    // job that was here before, unless the worker is sick, and none at all if every job that came is pending.
    method Refresh(plenty: bool, healthy: bool) returns (arrived: nat, ghost came: seq<Job>, ghost left: set<nat>, ghost talk: Talk)
      requires Jobs() && Env() && progressAt >= 0 && !AnyResult()
      modifies `pool, `poolTokens, `progressAt, sqs.aws, board
      ensures sqs.aws.q.asks == old(sqs.aws.q).asks + talk.polled + talk.forwarded + talk.cleared && Proper(talk)
      ensures talk.offered == talk.removed == talk.released == talk.hidden == []
      ensures talk.polled == [] <==> old(poolTokens) >= cfg.target || Room(old(pool), cfg) < 1
      ensures Jobs() && Env() && board.time >= old(board.time)
      ensures old(sqs.aws.q).next <= sqs.aws.q.next
      ensures progressAt >= 0 && (pool != [] ==> progressAt > 0) && (pool == [] && arrived == 0 ==> progressAt == 0)
      ensures forall r :: r in PendingSet(pool) ==> r in PendingSet(old(pool)) || r >= old(sqs.aws.q).next
      ensures NewSince(came, old(sqs.aws.q).next) && left == Undelivered(pool)
      ensures !sick ==> left <= Undelivered(came)
      ensures RestDelivered(came, left, sqs.aws.q.results)
      ensures !sick ==> SamePending(old(pool) + came, pool)
      ensures !sick && AllPending(came) ==> pool == old(pool) + came && left == {}
      ensures (plenty || healthy) && sick ==> PendingSet(pool) == {}
      ensures healthy ==> !AnyResult() && left == {}
      ensures talk.arrived == arrived && (came != [] ==> arrived > 0)
      ensures plenty && (exists j :: j in came && j.state.Finished? && |j.result| <= 262144) ==> talk.forwarded != []
    {
      hide Jobs, PendingSet, Undelivered, Aws.Valid, Aws.Ideal, Careful, Strict, NewSince, TooBig, OfferCalls, RemoveCalls, HideCalls,
        PollCalls, Among, FinishedTexts, Room;
      ProperSilence({});
      ghost var polled;
      arrived, polled := TopUp(healthy);
      came := pool[|old(pool)|..];
      NoneDeleting(old(pool), came, old(sqs.aws.q).next);
      assert pool == old(pool) + came;
      ghost var offered, removed := Forward(plenty, healthy);
      talk := SILENT.(polled := polled, forwarded := offered, cleared := removed, arrived := arrived);
      left := Undelivered(pool);
      AllIn(pool);
      if !sick { LeftOfThese(old(pool), came, pool); }
      NoneUndelivered(came);
      NoneUndelivered(pool);
      if |pool| == 0 && arrived == 0 {
        progressAt := 0;
      } else if progressAt == 0 {
        progressAt := board.Now();
      }
    }

    // After a failure as long as failures make it; else not at all while it holds results or has just made a pass,
    // and if neither five seconds, as more may be waiting where something came, or forty.
    predicate WaitFits(wait: nat, arrived: nat)
      reads `retry, `pool
    {
      || (retry > 0 && wait == retry)
      || (retry == 0 && (wait == 0 || wait == if arrived > 0 then 5 else 40) &&
          (AnyResult() ==> wait == 0) && (pool == [] ==> wait != 0))
    }

    // New jobs in, what of them goes straight to Cal out, and more time for what is held.
    method Replenish(healthy: bool, plenty: bool)
      returns (failed: int, scan: int, arrived: nat, ghost came: seq<Job>, ghost left: set<nat>, ghost talk: Talk)
      requires Valid() && !parked && !AnyResult()
      modifies `pool, `poolTokens, `progressAt, sqs.aws, board
      ensures Valid() && old(sqs.aws.q).next <= sqs.aws.q.next && old(board.time) <= scan <= board.time
      ensures sqs.aws.q.asks == old(sqs.aws.q).asks + talk.polled + talk.forwarded + talk.cleared + talk.hidden
      ensures Proper(talk) && talk.offered == talk.removed == talk.released == [] && talk.arrived == arrived
      ensures talk.polled == [] <==> old(poolTokens) >= cfg.target || Room(old(pool), cfg) < 1
      ensures forall r :: r in PendingSet(pool) ==> r in PendingSet(old(pool)) || r >= old(sqs.aws.q).next
      ensures NewSince(came, old(sqs.aws.q).next) && left == Undelivered(pool) && (!sick ==> left <= Undelivered(came))
      ensures came != [] ==> arrived > 0
      ensures plenty && (exists j :: j in came && j.state.Finished? && |j.result| <= 262144) ==> talk.forwarded != []
      ensures failed == 0 ==> Hidden(pool, scan + EXTEND_HORIZON)
      ensures healthy && sick ==> PendingSet(pool) == {}
      ensures healthy ==> failed == 0 && !AnyResult() && left == {}
    {
      hide Env, Jobs, PendingSet, Undelivered, AllPassesOk, Hidden, NewSince, Flags, AllPending, RestDelivered, SamePending, OfferCalls,
        RemoveCalls, HideCalls, PollCalls, HidesOnly, WantedSet, HideAsked, Room, Proper;
      arrived, came, left, talk := Refresh(plenty, healthy);
      ghost var asked;
      failed, scan, asked := Visibility(false, VISIBILITY, plenty, healthy);
      ThenHidden(talk, asked);
      talk := talk.(hidden := asked);
    }

    // The rest of a step, once nothing is left to hand off. In good health, if there is a job to embed, one
    // pass gets further with them.
    method Work(healthy: bool, plenty: bool, clean: bool) returns (wait: nat, ghost came: seq<Job>, ghost left: set<nat>, ghost talk: Talk)
      requires Valid() && !parked && !AnyResult()
      modifies this, sqs.aws, board
      ensures sqs.aws.q.asks == old(sqs.aws.q).asks + talk.polled + talk.forwarded + talk.cleared + talk.hidden
      ensures Proper(talk) && talk.offered == talk.removed == talk.released == []
      ensures talk.polled == [] <==> old(poolTokens) >= cfg.target || Room(old(pool), cfg) < 1
      ensures (old(sick) || passes == old(passes)) ==>
        sick == old(sick) && badInRow == old(badInRow) && nextHealth == old(nextHealth)
      ensures old(sick) ==> passes == old(passes)
      ensures badInRow == old(badInRow) || badInRow == 0 || badInRow == old(badInRow) + 1
      ensures passes == old(passes) ||
        (|passes| == |old(passes)| + 1 && HeldUntil(passes[|old(passes)|], old(board.time) + 600))
      ensures passes != old(passes) ==> PassCounts(old(passes), passes, old(badInRow), badInRow, clean, plenty || healthy)
      ensures old(sqs.aws.q).next <= sqs.aws.q.next
      ensures Valid() && old(passes) <= passes && old(turns) <= turns && !parked
      ensures Waits(PendingSet(old(pool)), PendingSet(pool), old(sqs.aws.q).next, turns - old(turns))
      ensures healthy ==> turns == old(turns) + 1 || PendingSet(pool) == {}
      ensures parkRequested == old(parkRequested)
      ensures WaitFits(wait, talk.arrived) && (came != [] ==> talk.arrived > 0)
      ensures plenty && (exists j :: j in came && j.state.Finished? && |j.result| <= 262144) ==> talk.forwarded != []
      ensures PassedWith(old(undelivered), undelivered, came, left, old(sqs.aws.q).next)
      ensures healthy ==> left == {}
    {
      hide Env, Jobs, PendingSet, Undelivered, Waits, AllPassesOk, Moved, Hidden, NewSince, PassedWith, Flags, AllPending, RestDelivered,
        SamePending, OfferCalls, RemoveCalls, HideCalls, PollCalls, HidesOnly, WantedSet, HideAsked, Room, HeldUntil, Proper, AllAcceptable;
      var failed, scan, arrived;
      failed, scan, arrived, came, left, talk := Replenish(healthy, plenty);
      NoPass(undelivered, came, left, old(sqs.aws.q).next);
      ghost var waiting := PendingSet(pool);
      if failed != 0 {
        Waited(PendingSet(old(pool)), waiting, PendingSet(pool), old(sqs.aws.q).next, 0);
        wait := Backoff();
        return;
      }
      retry := 0;
      if AnyPending() && !sick {
        SomePending(pool);
        OnePass(undelivered, came, left, old(sqs.aws.q).next);
        var moved := Start(scan, plenty || healthy, clean);
        if passes != old(passes) { HeldLonger(passes[|old(passes)|], scan + 600, old(board.time) + 600); }
        Waited(PendingSet(old(pool)), waiting, PendingSet(pool), old(sqs.aws.q).next, if moved then 1 else 0);
        return 0, came, left, talk;
      }
      Waited(PendingSet(old(pool)), waiting, PendingSet(pool), old(sqs.aws.q).next, 0);
      if !AnyPending() { NonePendingAt(pool); }
      if AnyResult() { return 0, came, left, talk; }
      return if arrived > 0 then 5 else 40, came, left, talk;
    }

    // Of one more pass: a clean one with vectors that Cal takes ends a run of bad ones, any other makes it longer.
    predicate PassCounts(was: seq<seq<Carried>>, now: seq<seq<Carried>>, badBefore: nat, bad: nat, clean: bool, plenty: bool) {
      |now| == |was| + 1 &&
      if !(clean && AllAcceptable(model, now[|was|])) then bad == badBefore + 1 else plenty ==> bad == 0
    }

    // The step's one pass: nothing chosen, or one more pass and what was undelivered when it began.
    method Start(ghost scan: int, plenty: bool, clean: bool) returns (moved: bool)
      requires Valid() && !sick && !parked && Hidden(pool, scan + EXTEND_HORIZON)
      modifies `pool, `poolTokens, `sick, `badInRow, `nextHealth, `progressAt, `passes, `undelivered, `turns, board
      ensures Valid() && |pool| == |old(pool)| && PendingSet(pool) <= PendingSet(old(pool))
      ensures old(passes) <= passes && turns == old(turns) + (if moved then 1 else 0)
      ensures moved ==> Moved(PendingSet(old(pool)), PendingSet(pool))
      ensures plenty && PendingSet(old(pool)) != {} ==> moved
      ensures undelivered == old(undelivered) || undelivered == old(undelivered) + [Undelivered(old(pool))]
      ensures passes == old(passes) ==> !sick && badInRow == old(badInRow) && nextHealth == old(nextHealth)
      ensures badInRow == old(badInRow) || badInRow == 0 || badInRow == old(badInRow) + 1
      ensures passes == old(passes) || (|passes| == |old(passes)| + 1 && HeldUntil(passes[|old(passes)|], scan + 600))
      ensures passes != old(passes) ==> PassCounts(old(passes), passes, old(badInRow), badInRow, clean, plenty)
    {
      hide Env, Jobs, PendingSet, Undelivered, AllPassesOk, Moved, Hidden, AllFated, AsPlanned, FitsPass, Record, Returned,
        CarriedTokens, Flags, HeldUntil, AllAcceptable, AllReturned, AllEmbedded;
      var went, chosen := Pass(scan, plenty, clean);
      moved := went;
    }

    // Everything goes to Cal until a health check passes, the first half an hour from now.
    method SetSick(plenty: bool)
      requires Valid()
      modifies `pool, `poolTokens, `sick, `badInRow, `nextHealth, board
      ensures Valid() && sick && badInRow == 3 && PendingSet(pool) <= PendingSet(old(pool)) && |pool| == |old(pool)|
      ensures nextHealth == board.time + 1800 && board.time >= old(board.time)
      ensures forall i :: 0 <= i < |pool| ==> Returned(cfg, old(pool)[i], pool[i], plenty)
    {
      hide Jobs, PendingSet, Aws.Valid, Aws.Ideal, Careful, Strict, AllPassesOk, Returned;
      badInRow := BAD_PASSES;
      GoSick(plenty);
    }

    method RequestPark()
      requires Valid()
      modifies `parkRequested
      ensures Valid() && parkRequested
    {
      hide Env, Jobs, Flags, AllPassesOk;
      parkRequested := true;
    }

    method Resume()
      requires Valid()
      modifies `parked, `parkRequested
      ensures Valid() && !parked && !parkRequested
    {
      hide Env, Jobs, Flags, AllPassesOk;
      parkRequested, parked := false, false;
    }

    // Any number of steps, with health checks that fail, updates that start and fail, whatever comes
    // between. A job still pending at the end has had, for every pass that memory held for, one job fewer
    // ahead of it: with k ahead it leaves within the next k + 1 of them.
    method Run()
      requires Valid()
      modifies this, sqs.aws, board
      ensures Valid() && old(passes) <= passes && old(turns) <= turns
      ensures forall r :: r in PendingSet(old(pool)) && r in PendingSet(pool) ==>
        Ahead(PendingSet(pool), r) + (turns - old(turns)) <= Ahead(PendingSet(old(pool)), r)
    {
      hide Valid, PendingSet, Waits, Ahead;
      AllBelow();
      NoWait(PendingSet(pool), sqs.aws.q.next);
      var n: nat :| 0 <= n;
      while n > 0
        invariant Valid() && old(passes) <= passes && old(turns) <= turns && old(sqs.aws.q).next <= sqs.aws.q.next
        invariant Waits(PendingSet(old(pool)), PendingSet(pool), old(sqs.aws.q).next, turns - old(turns))
      {
        ghost var was, next, before := PendingSet(pool), sqs.aws.q.next, turns;
        Once();
        WaitsOn(PendingSet(old(pool)), was, PendingSet(pool), old(sqs.aws.q).next, next, before - old(turns), turns - before);
        n := n - 1;
      }
      WaitsSays(PendingSet(old(pool)), PendingSet(pool), old(sqs.aws.q).next, turns - old(turns));
    }

    lemma AllBelow()
      requires Valid()
      ensures forall r :: r in PendingSet(pool) ==> r < sqs.aws.q.next
    {
      hide PendingSet, PoolOk;
      ReceiptsBelow(pool, sqs.aws.q, model);
    }

    method Once()
      requires Valid()
      modifies this, sqs.aws, board
      ensures Valid() && old(passes) <= passes && old(turns) <= turns && old(sqs.aws.q).next <= sqs.aws.q.next
      ensures Waits(PendingSet(old(pool)), PendingSet(pool), old(sqs.aws.q).next, turns - old(turns))
    {
      hide Valid, PendingSet, Waits;
      NoWait(PendingSet(pool), sqs.aws.q.next);
      var what: int := *;
      if what == 0 {
        var plenty: bool := *;
        SetSick(plenty);
        Fewer(PendingSet(old(pool)), PendingSet(pool), old(sqs.aws.q).next);
      } else if what == 1 {
        RequestPark();
      } else if what == 2 {
        Resume();
      } else {
        var healthy, plenty, well, clean: bool := *, *, *, *;
        var _, _, _, _, _, _ := Step(healthy, plenty, well, clean);
      }
    }

    // Whatever the worker has done, and at every moment while it was doing it: every message there ever was
    // is in the ingest queue or its dead-letter queue, or the results queue holds its body byte for byte.
    lemma NothingIsLost(n: nat)
      requires Valid() && n <= |sqs.aws.log|
      ensures InCustody(Replay(sqs.aws.log[..n]))
    {
      CustodyThroughout(sqs.aws.log, n);
    }

    ghost predicate Vector(j: Job, e: Embedding) {
      && Acceptable(model, e.vector) && e.vector == model.embed(j.ids) && e.tokens == |j.ids|
    }
  }
}
