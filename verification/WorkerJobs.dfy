// What Kata's worker makes of a message (esp32-embedder/worker/worker.c:101-142, 264-328): a pending job or
// one already answered, and the result each job ends with.
module WorkerJobs {
  import opened Bytes
  import opened Results
  import opened Sqs
  import opened WorkerPool

  datatype Config = Config(target: int, budget: int, poolMax: int, identity: bool, board: string, fw: string, embedder: string)

  const CLAIM_CHECK := "claim-check"
  const DECRYPT_FAILED := "decrypt-failed"
  const RETRIES := "retries"
  const TOO_LONG := "too-long"
  const KATA_UNHEALTHY := "kata-unhealthy"

  // Why a message goes to Cal unembedded, if it does.
  function WhyNot(model: Model, identity: bool, sick: bool, m: Message): Option<string>
    requires model.envelope(m.body).Some?
  {
    var e := model.envelope(m.body).value;
    if e.ciphertext.None? && e.s3 then Some(CLAIM_CHECK)
    else if m.receives >= RETRIES_RECEIVE then Some(RETRIES)
    else if |m.body| > WORST_BODY then Some(TOO_LONG)
    else if sick then Some(KATA_UNHEALTHY)
    else if !identity || Opens(model, m.body).None? then Some(DECRYPT_FAILED)
    else None
  }

  // What Cal is told of a message.
  function ResultFor(cfg: Config, m: Message, uuid: string, outcome: Outcome, pass: Option<Pass>): Result {
    Result(Some(uuid), m.body, outcome, Some(cfg.board), Some(cfg.fw), pass, Some(m.messageId), m.receives)
  }

  // The job, its result built: of the message and the ids no more than the result needs is kept.
  function Answered(cfg: Config, j: Job, outcome: Outcome, pass: Option<Pass>): Job {
    j.(m := j.m.(body := ""), ids := [], state := JobState.Finished, result := Text(ResultFor(cfg, j.m, j.uuid, outcome, pass)))
  }

  function EmbeddedAs(cfg: Config, j: Job, v: seq<Bits>): Outcome {
    Outcome.Embedded(Embedding(Some(cfg.embedder), v, j.nIds, j.truncated))
  }

  function SentBack(reason: string): Outcome {
    Outcome.Unembedded(Some(reason))
  }

  // The job's result carries the vector.
  predicate WithVector(cfg: Config, was: Job, now: Job, v: seq<Bits>, stats: Results.Pass) {
    now == Answered(cfg, was, EmbeddedAs(cfg, was, v), Some(stats))
  }

  // What a pass that carried so much makes of a job it carried: a result with the job's own vector, one that
  // hands it to Cal, or, memory being short, nothing.
  ghost predicate Fated(cfg: Config, model: Model, was: Job, now: Job, segments: nat, tokens: nat) {
    || Returned(cfg, was, now, false)
    || (exists ms, v :: WithVector(cfg, was, now, v, Results.Pass(segments, tokens, ms))
          && Acceptable(model, v) && v == model.embed(was.ids))
  }

  // A job embedded: its result carries the model's vector of its own ids.
  ghost predicate EmbeddedIn(cfg: Config, model: Model, was: Job, now: Job, segments: nat, tokens: nat) {
    exists ms :: WithVector(cfg, was, now, model.embed(was.ids), Results.Pass(segments, tokens, ms))
  }

  lemma IsEmbedded(cfg: Config, model: Model, was: Job, now: Job, v: seq<Bits>, stats: Results.Pass)
    requires WithVector(cfg, was, now, v, stats) && v == model.embed(was.ids)
    ensures EmbeddedIn(cfg, model, was, now, stats.segments, stats.tokens)
  {
    hide WithVector;
    assert stats == Results.Pass(stats.segments, stats.tokens, stats.ms);
  }

  // A pending job has gone to Cal as Kata's trouble, or memory was short and it is as it was; any other is as it was.
  predicate Returned(cfg: Config, was: Job, now: Job, plenty: bool) {
    if !was.state.Pending? then now == was
    else now == Answered(cfg, was, SentBack(KATA_UNHEALTHY), None) || (!plenty && now == was)
  }

  // The job made of a message that memory does not run out on: pending, or answered already.
  function Taken(model: Model, cfg: Config, sick: bool, m: Message, until: int): Job
    requires model.envelope(m.body).Some?
  {
    var blank := Job(m, model.envelope(m.body).value.uuid, until, JobState.Pending, false, [], 0, false, "", 0);
    match WhyNot(model, cfg.identity, sick, m)
    case Some(reason) => Answered(cfg, blank, SentBack(reason), None)
    case None =>
      var inside := Opens(model, m.body).value;
      blank.(solo := m.receives == SOLO_RECEIVE, ids := inside.ids, nIds := |inside.ids|, truncated := inside.truncated)
  }

  // The reason Cal is given is the first that applies, and the result carries the body and how the message came;
  // a message without one waits with the ids of what is inside, to go alone if it comes the second time.
  lemma TakenMeans(model: Model, cfg: Config, sick: bool, m: Message, until: int)
    requires model.envelope(m.body).Some?
    ensures var j, e := Taken(model, cfg, sick, m, until), model.envelope(m.body).value;
      var shut := !cfg.identity || e.ciphertext == None || model.open(e.ciphertext.value, e.uuid) == None;
      var reason :=
        if e.ciphertext == None && e.s3 then "claim-check"
        else if m.receives >= 3 then "retries"
        else if |m.body| > 40960 then "too-long"
        else if sick then "kata-unhealthy"
        else if shut then "decrypt-failed"
        else "";
      && j.uuid == e.uuid && j.visibleUntil == until && j.deleteTries == 0
      && j.m.receipt == m.receipt && j.m.messageId == m.messageId && j.m.receives == m.receives
      && (reason != "" ==>
            && j.state.Finished? && j.m.body == "" && j.ids == []
            && j.result == Text(Result(Some(e.uuid), m.body, Outcome.Unembedded(Some(reason)), Some(cfg.board), Some(cfg.fw),
                                       None, Some(m.messageId), m.receives)))
      && (reason == "" ==>
            var inside := model.open(e.ciphertext.value, e.uuid).value;
            && j.state.Pending? && j.m.body == m.body && j.solo == (m.receives == 2)
            && j.ids == inside.ids && j.nIds == |inside.ids| && j.truncated == inside.truncated)
  {
    hide Text;
  }

  // A job with its vector: the result says whose it is, what the model made of it and in what pass; what it was made
  // of is gone.
  lemma VectorMeans(cfg: Config, was: Job, now: Job, v: seq<Bits>, stats: Results.Pass)
    requires WithVector(cfg, was, now, v, stats)
    ensures now.state.Finished? && now.m == was.m.(body := "") && now.ids == [] && now.uuid == was.uuid
    ensures now.result ==
      Text(Result(Some(was.uuid), was.m.body, Outcome.Embedded(Embedding(Some(cfg.embedder), v, was.nIds, was.truncated)),
                  Some(cfg.board), Some(cfg.fw), Some(stats), Some(was.m.messageId), was.m.receives))
  {
    hide Text;
  }

  // A pending job handed to Cal: no vector, no pass, and that Kata is not well.
  lemma ReturnedMeans(cfg: Config, was: Job, now: Job)
    requires was.state.Pending? && Returned(cfg, was, now, true)
    ensures now.state.Finished? && now.m == was.m.(body := "") && now.ids == [] && now.uuid == was.uuid
    ensures now.result ==
      Text(Result(Some(was.uuid), was.m.body, Outcome.Unembedded(Some("kata-unhealthy")), Some(cfg.board), Some(cfg.fw),
                  None, Some(was.m.messageId), was.m.receives))
  {
    hide Text;
  }

  // What was answered, or stayed as it was, going sick makes no worse.
  lemma StillReturned(cfg: Config, was: seq<Job>, mid: seq<Job>, now: seq<Job>, plenty: bool)
    requires |was| == |mid| == |now|
    requires now == mid || forall i :: 0 <= i < |mid| ==> Returned(cfg, mid[i], now[i], plenty)
    ensures forall i :: 0 <= i < |was| && Returned(cfg, was[i], mid[i], plenty) ==> Returned(cfg, was[i], now[i], plenty)
    ensures !plenty ==> forall i :: 0 <= i < |was| && was[i] == mid[i] ==> Returned(cfg, was[i], now[i], plenty)
  {
    hide Text;
  }

  lemma IsReturned(cfg: Config, was: Job, now: Job, ok: bool, plenty: bool)
    requires was.state.Pending? && (ok || !plenty)
    requires now == if ok then Answered(cfg, was, SentBack(KATA_UNHEALTHY), None) else was
    ensures Returned(cfg, was, now, plenty)
  {
    hide Answered;
  }

  lemma IsWithVector(cfg: Config, was: Job, now: Job, v: seq<Bits>, stats: Results.Pass)
    requires now == Answered(cfg, was, EmbeddedAs(cfg, was, v), Some(stats))
    ensures WithVector(cfg, was, now, v, stats)
  {
    hide Answered;
  }

  // The first k of those chosen have their vectors, unless memory ran out on some; no other job has changed.
  predicate VectorsTo(cfg: Config, was: seq<Job>, now: seq<Job>, chosen: seq<nat>, vecs: seq<seq<Bits>>, stats: Results.Pass,
                      some: bool, k: nat)
    requires |vecs| == |chosen| && forall l :: 0 <= l < |chosen| ==> chosen[l] < |was|
  {
    && |now| == |was| && k <= |chosen|
    && (forall i :: 0 <= i < |now| && i !in chosen ==> now[i] == was[i])
    && (forall l :: k <= l < |chosen| ==> now[chosen[l]] == was[chosen[l]])
    && (forall l :: 0 <= l < k ==>
          WithVector(cfg, was[chosen[l]], now[chosen[l]], vecs[l], stats) || (some && now[chosen[l]] == was[chosen[l]]))
  }

  lemma NoVectors(cfg: Config, pool: seq<Job>, chosen: seq<nat>, vecs: seq<seq<Bits>>, stats: Results.Pass)
    requires |vecs| == |chosen| && forall l :: 0 <= l < |chosen| ==> chosen[l] < |pool|
    ensures VectorsTo(cfg, pool, pool, chosen, vecs, stats, false, 0)
  {
  }

  lemma NextAsWas(cfg: Config, was: seq<Job>, now: seq<Job>, chosen: seq<nat>, vecs: seq<seq<Bits>>, stats: Results.Pass,
                  some: bool, k: nat)
    requires |vecs| == |chosen| && k < |chosen| && forall l :: 0 <= l < |chosen| ==> chosen[l] < |was|
    requires VectorsTo(cfg, was, now, chosen, vecs, stats, some, k)
    ensures |now| == |was| && now[chosen[k]] == was[chosen[k]]
  {
  }

  lemma VectorsSay(cfg: Config, was: seq<Job>, now: seq<Job>, chosen: seq<nat>, vecs: seq<seq<Bits>>, stats: Results.Pass, some: bool)
    requires |vecs| == |chosen| && forall l :: 0 <= l < |chosen| ==> chosen[l] < |was|
    requires VectorsTo(cfg, was, now, chosen, vecs, stats, some, |chosen|)
    ensures |now| == |was| && forall i :: 0 <= i < |now| && i !in chosen ==> now[i] == was[i]
    ensures forall l :: 0 <= l < |chosen| ==>
      WithVector(cfg, was[chosen[l]], now[chosen[l]], vecs[l], stats) || (some && now[chosen[l]] == was[chosen[l]])
  {
    hide WithVector;
  }

  lemma VectorsMore(cfg: Config, was: seq<Job>, now: seq<Job>, more: seq<Job>, chosen: seq<nat>, vecs: seq<seq<Bits>>,
                    stats: Results.Pass, some: bool, k: nat, ok: bool)
    requires |vecs| == |chosen| && k < |chosen| && forall l :: 0 <= l < |chosen| ==> chosen[l] < |was|
    requires forall a, b :: 0 <= a < b < |chosen| ==> chosen[a] < chosen[b]
    requires VectorsTo(cfg, was, now, chosen, vecs, stats, some, k)
    requires |more| == |now|
    requires if ok then more == now[chosen[k] := more[chosen[k]]] && WithVector(cfg, was[chosen[k]], more[chosen[k]], vecs[k], stats) else more == now
    ensures VectorsTo(cfg, was, more, chosen, vecs, stats, some || !ok, k + 1)
  {
    hide WithVector;
  }

  // The first k of those chosen have gone to Cal, or memory ran out; no other job has changed.
  predicate ReturnedTo(cfg: Config, was: seq<Job>, now: seq<Job>, chosen: seq<nat>, plenty: bool, k: nat)
    requires forall l :: 0 <= l < |chosen| ==> chosen[l] < |was|
  {
    && |now| == |was| && k <= |chosen|
    && (forall i :: 0 <= i < |now| && i !in chosen ==> now[i] == was[i])
    && (forall l :: k <= l < |chosen| ==> now[chosen[l]] == was[chosen[l]])
    && (forall l :: 0 <= l < k ==> Returned(cfg, was[chosen[l]], now[chosen[l]], plenty))
  }

  lemma NoneReturnedYet(cfg: Config, pool: seq<Job>, chosen: seq<nat>, plenty: bool)
    requires forall l :: 0 <= l < |chosen| ==> chosen[l] < |pool|
    ensures ReturnedTo(cfg, pool, pool, chosen, plenty, 0)
  {
  }

  lemma NextStill(cfg: Config, was: seq<Job>, now: seq<Job>, chosen: seq<nat>, plenty: bool, k: nat)
    requires (forall l :: 0 <= l < |chosen| ==> chosen[l] < |was|) && k < |chosen| && ReturnedTo(cfg, was, now, chosen, plenty, k)
    ensures |now| == |was| && now[chosen[k]] == was[chosen[k]]
  {
  }

  lemma ReturnedMore(cfg: Config, was: seq<Job>, now: seq<Job>, j: Job, chosen: seq<nat>, plenty: bool, k: nat)
    requires (forall l :: 0 <= l < |chosen| ==> chosen[l] < |was|) && forall a, b :: 0 <= a < b < |chosen| ==> chosen[a] < chosen[b]
    requires k < |chosen| && ReturnedTo(cfg, was, now, chosen, plenty, k) && Returned(cfg, was[chosen[k]], j, plenty)
    ensures |now| == |was| && ReturnedTo(cfg, was, now[chosen[k] := j], chosen, plenty, k + 1)
  {
    hide Returned;
  }

  lemma ReturnedSay(cfg: Config, was: seq<Job>, now: seq<Job>, chosen: seq<nat>, plenty: bool)
    requires (forall l :: 0 <= l < |chosen| ==> chosen[l] < |was|) && ReturnedTo(cfg, was, now, chosen, plenty, |chosen|)
    ensures |now| == |was| && forall i :: 0 <= i < |now| && i !in chosen ==> now[i] == was[i]
    ensures forall l :: 0 <= l < |chosen| ==> Returned(cfg, was[chosen[l]], now[chosen[l]], plenty)
  {
    hide Returned;
  }

  lemma StillWithVector(cfg: Config, was: Job, mid: Job, now: Job, v: seq<Bits>, stats: Results.Pass, plenty: bool)
    requires WithVector(cfg, was, mid, v, stats) && (now == mid || Returned(cfg, mid, now, plenty))
    ensures WithVector(cfg, was, now, v, stats)
  {
    hide Text;
  }

  ghost predicate AllFated(cfg: Config, model: Model, was: seq<Job>, now: seq<Job>, chosen: seq<nat>, tokens: nat) {
    |was| == |now| && forall k :: 0 <= k < |chosen| ==>
      chosen[k] < |was| && Fated(cfg, model, was[chosen[k]], now[chosen[k]], |chosen|, tokens)
  }

  predicate AllReturned(cfg: Config, was: seq<Job>, now: seq<Job>, chosen: seq<nat>, plenty: bool) {
    |was| == |now| && forall k :: 0 <= k < |chosen| ==>
      chosen[k] < |was| && Returned(cfg, was[chosen[k]], now[chosen[k]], plenty)
  }

  ghost predicate AllEmbedded(cfg: Config, model: Model, was: seq<Job>, now: seq<Job>, chosen: seq<nat>, tokens: nat) {
    |was| == |now| && forall k :: 0 <= k < |chosen| ==>
      chosen[k] < |was| && EmbeddedIn(cfg, model, was[chosen[k]], now[chosen[k]], |chosen|, tokens)
  }

  lemma FatesOf(cfg: Config, model: Model, was: seq<Job>, now: seq<Job>, chosen: seq<nat>, rc: int, vecs: seq<seq<Bits>>,
                 stats: Results.Pass, plenty: bool)
    requires |was| == |now| && |vecs| == |chosen| && forall k :: 0 <= k < |chosen| ==> chosen[k] < |was|
    requires rc == 0 ==> forall k :: 0 <= k < |chosen| ==>
      Acceptable(model, vecs[k]) && vecs[k] == model.embed(was[chosen[k]].ids)
    requires forall k :: 0 <= k < |chosen| ==>
      || (rc == 0 && WithVector(cfg, was[chosen[k]], now[chosen[k]], vecs[k], stats))
      || Returned(cfg, was[chosen[k]], now[chosen[k]], plenty)
    requires stats.segments == |chosen|
    ensures AllFated(cfg, model, was, now, chosen, stats.tokens)
    ensures rc != 0 ==> AllReturned(cfg, was, now, chosen, plenty)
  {
    hide Answered, Acceptable, WithVector;
    forall k | 0 <= k < |chosen|
      ensures Fated(cfg, model, was[chosen[k]], now[chosen[k]], stats.segments, stats.tokens)
    {
      if rc == 0 && WithVector(cfg, was[chosen[k]], now[chosen[k]], vecs[k], stats) {
        assert stats == Results.Pass(stats.segments, stats.tokens, stats.ms);
      }
    }
  }

  lemma EmbeddingsOf(cfg: Config, model: Model, was: seq<Job>, now: seq<Job>, chosen: seq<nat>, vecs: seq<seq<Bits>>, stats: Results.Pass)
    requires |was| == |now| && |vecs| == |chosen| && forall k :: 0 <= k < |chosen| ==> chosen[k] < |was|
    requires forall k :: 0 <= k < |chosen| ==>
      vecs[k] == model.embed(was[chosen[k]].ids) && WithVector(cfg, was[chosen[k]], now[chosen[k]], vecs[k], stats)
    requires stats.segments == |chosen|
    ensures AllEmbedded(cfg, model, was, now, chosen, stats.tokens)
  {
    hide WithVector, EmbeddedIn;
    forall k | 0 <= k < |chosen|
      ensures EmbeddedIn(cfg, model, was[chosen[k]], now[chosen[k]], stats.segments, stats.tokens)
    {
      IsEmbedded(cfg, model, was[chosen[k]], now[chosen[k]], vecs[k], stats);
    }
  }

  lemma NoneReturned(cfg: Config, was: seq<Job>, now: seq<Job>)
    requires |was| == |now| && forall i :: 0 <= i < |was| ==> Returned(cfg, was[i], now[i], true)
    ensures PendingSet(now) == {}
  {
    hide Text;
  }

  lemma SomePending(pool: seq<Job>)
    requires exists i :: 0 <= i < |pool| && pool[i].state.Pending?
    ensures PendingSet(pool) != {}
  {
    var i :| 0 <= i < |pool| && pool[i].state.Pending?;
    assert pool[i].m.receipt in PendingSet(pool);
  }

  lemma NonePendingAt(pool: seq<Job>)
    requires forall i :: 0 <= i < |pool| ==> !pool[i].state.Pending?
    ensures PendingSet(pool) == {}
  {
  }

  // How many messages the next receive may bring.
  function Room(pool: seq<Job>, cfg: Config): int {
    var used := BytesHeld(pool);
    var room := if used < cfg.budget then (cfg.budget - used) / WORST_BODY else 0;
    var max := if room < 10 then room else 10;
    if max > cfg.poolMax - |pool| then cfg.poolMax - |pool| else max
  }

  predicate Holding(pool: seq<Job>, receipt: nat) {
    exists i :: 0 <= i < |pool| && pool[i].m.receipt == receipt
  }

  lemma StillHolding(was: seq<Job>, now: seq<Job>)
    requires was <= now
    ensures forall r :: Holding(was, r) ==> Holding(now, r)
    ensures was < now ==> Holding(now, now[|was|].m.receipt)
  {
    forall r | Holding(was, r)
      ensures Holding(now, r)
    {
      var i :| 0 <= i < |was| && was[i].m.receipt == r;
      assert now[i] == was[i];
    }
  }

  lemma TakenReceipt(model: Model, cfg: Config, sick: bool, m: Message, until: int)
    ensures model.envelope(m.body).Some? ==>
      var j := Taken(model, cfg, sick, m, until); j.m.receipt == m.receipt && !j.state.Deleting?
  {
    hide Text;
  }

  function BytesHeld(pool: seq<Job>): nat {
    if pool == [] then 0
    else
      var j := pool[|pool| - 1];
      BytesHeld(pool[..|pool| - 1]) + |j.m.body| + |j.result| + j.nIds * 4
  }

  lemma ReceiptsBelow(pool: seq<Job>, q: Queues, model: Model)
    requires PoolOk(pool, q, model)
    ensures forall r :: r in PendingSet(pool) ==> r < q.next
  {
    hide JobOk;
  }

  lemma NoneLeft(pool: seq<Job>)
    ensures pool == [] ==> PendingSet(pool) == {}
  {
  }

  lemma PendingBody(pool: seq<Job>, i: nat, q: Queues, model: Model)
    requires PoolOk(pool, q, model) && Strict(model) && i < |pool| && pool[i].state.Pending?
    ensures Whole(pool[i].m.body) && PendingOk(pool[i], model) && Tokens(pool[i]) == pool[i].nIds
    ensures Known(q, pool[i].m.receipt) && pool[i].m.body == BodyOf(q, pool[i].m.receipt)
  {
    hide Steady;
    assert JobOk(pool[i], q, model);
  }

  lemma FinishedOk(pool: seq<Job>, i: nat, done: Job, q: Queues, model: Model)
    requires PoolOk(pool, q, model) && i < |pool| && pool[i].state.Pending?
    requires done.state.Finished? && done.deleteTries == pool[i].deleteTries
    requires done.m.receipt == pool[i].m.receipt && ResultOf(done.result, pool[i].m.body, model)
    ensures PoolOk(pool[i := done], q, model)
    ensures PendingTokens(pool[i := done]) == PendingTokens(pool) - pool[i].nIds
    ensures PendingSet(pool[i := done]) == PendingSet(pool) - {done.m.receipt}
  {
    hide ResultOf, PendingTokens, PendingSet;
    assert JobOk(pool[i], q, model);
    TokensUpdate(pool, i, done);
    UpdateKeeps(pool, i, done, q, model);
  }

  // Jobs of messages received from then on, each pending or answered.
  predicate NewSince(jobs: seq<Job>, from: nat) {
    forall k :: 0 <= k < |jobs| ==> from <= jobs[k].m.receipt && !jobs[k].state.Deleting?
  }

  lemma NewOn(was: seq<Job>, mid: seq<Job>, now: seq<Job>, from: nat, later: nat)
    requires was <= mid <= now && from <= later && NewSince(mid[|was|..], from) && NewSince(now[|mid|..], later)
    ensures NewSince(now[|was|..], from)
  {
    var n := |mid| - |was|;
    assert forall k :: 0 <= k < |now| - |was| ==>
      now[|was|..][k] == if k < n then mid[|was|..][k] else now[|mid|..][k - n];
  }

  predicate AllPending(jobs: seq<Job>) {
    forall k :: 0 <= k < |jobs| ==> jobs[k].state.Pending?
  }

  // Of one step: no pass; or one, and what was undelivered as it started is what the hand-off before it left of
  // the jobs that had just come, which is nothing if they all were pending.
  predicate PassedWith(was: seq<set<nat>>, now: seq<set<nat>>, came: seq<Job>, left: set<nat>, next: nat) {
    && NewSince(came, next)
    && (now == was || (now == was + [left] && left <= Undelivered(came) && (AllPending(came) ==> left == {})))
  }

  lemma OnePass(undelivered: seq<set<nat>>, came: seq<Job>, left: set<nat>, next: nat)
    requires NewSince(came, next) && left <= Undelivered(came)
    ensures PassedWith(undelivered, undelivered + [left], came, left, next)
  {
    hide Undelivered;
    NoneUndelivered(came);
  }

  lemma NoPass(undelivered: seq<set<nat>>, came: seq<Job>, left: set<nat>, next: nat)
    requires NewSince(came, next)
    ensures PassedWith(undelivered, undelivered, came, left, next)
  {
  }

  lemma StillNew(was: seq<set<nat>>, now: seq<set<nat>>, came: seq<Job>, left: set<nat>, next: nat, later: nat)
    requires next <= later && PassedWith(was, now, came, left, later)
    ensures PassedWith(was, now, came, left, next)
  {
    hide Undelivered;
  }

  lemma NoneUndelivered(jobs: seq<Job>)
    ensures Undelivered(jobs) == {} <==> !exists i :: 0 <= i < |jobs| && jobs[i].state.Finished?
    ensures AllPending(jobs) ==> Undelivered(jobs) == {}
  {
    if i :| 0 <= i < |jobs| && jobs[i].state.Finished? {
      assert jobs[i].m.receipt in Undelivered(jobs);
    }
  }

  lemma AllIn(jobs: seq<Job>)
    ensures forall j :: j in jobs && j.state.Finished? ==> j.m.receipt in Undelivered(jobs)
  {
  }

  lemma AnsweredStay(cfg: Config, was: seq<Job>, now: seq<Job>, plenty: bool)
    requires |was| == |now| && forall i :: 0 <= i < |was| ==> Returned(cfg, was[i], now[i], plenty)
    ensures forall j :: j in was && !j.state.Pending? ==> j in now
  {
    hide Answered;
  }

  lemma NoneDeleting(was: seq<Job>, came: seq<Job>, from: nat)
    requires AllPending(was) && NewSince(came, from)
    ensures forall j :: j in was + came ==> !j.state.Deleting?
  {
  }

  lemma ReturnedStates(cfg: Config, was: seq<Job>, now: seq<Job>, plenty: bool)
    requires |was| == |now| && forall i :: 0 <= i < |was| ==> Returned(cfg, was[i], now[i], plenty)
    requires forall j :: j in was ==> !j.state.Deleting?
    ensures forall j :: j in now ==> !j.state.Deleting?
  {
    hide Text;
    forall i | 0 <= i < |now|
      ensures !now[i].state.Deleting?
    {
      assert was[i] in was;
    }
  }
}
