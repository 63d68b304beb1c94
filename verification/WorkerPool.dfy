// The worker's pool of jobs (esp32-embedder/worker/worker.h, worker.c:78-130) as values: what is true of
// each job in each of its states, and what every change to the pool keeps.
module WorkerPool {
  import opened Bytes
  import opened Results
  import opened Sqs

  const VISIBILITY: nat := 900
  const EXTEND_HORIZON: nat := 600
  const MAX_RECEIVE: nat := 3
  const SOLO_RECEIVE: nat := 2
  const RETRIES_RECEIVE: nat := 3
  const WORST_BODY: nat := 40960
  const MAX_TOKENS: nat := 512
  const BAD_PASSES: nat := 3
  const HEALTH_EVERY: nat := 1800
  const PASS_JOBS: nat := 64

  // ---- what Kata makes of a body ------------------------------------------------------------------------

  // [CLS] .. [SEP], truncated as the tokeniser truncates.
  type Ids = s: seq<int> | 2 <= |s| <= MAX_TOKENS witness [0, 0]

  datatype Envelope = Envelope(uuid: string, ciphertext: Option<string>, s3: bool)

  datatype Opened = Opened(ids: Ids, truncated: bool)

  // The strict reader of envelopes, decryption and the opening of the job inside, and the model's vector
  // for a list of ids; value is the number a float's bits stand for.
  datatype Model = Model(envelope: string -> Option<Envelope>, open: (string, string) -> Option<Opened>,
                         embed: seq<int> -> seq<Bits>, value: Bits -> real)

  // The reader takes nothing but one whole JSON value.
  ghost predicate Strict(model: Model) {
    forall body :: model.envelope(body).Some? ==> Whole(body)
  }

  function Opens(model: Model, body: string): Option<Opened> {
    var e := model.envelope(body);
    if e.None? || e.value.ciphertext.None? then None else model.open(e.value.ciphertext.value, e.value.uuid)
  }

  function SumOfSquares(model: Model, v: seq<Bits>): real {
    if v == [] then 0.0
    else
      var x := model.value(v[|v| - 1]);
      SumOfSquares(model, v[..|v| - 1]) + x * x
  }

  predicate Finite(u: Bits) {
    u / 0x80_0000 % 256 != 255
  }

  // A vector Cal takes: every float finite, the norm between 10 and 30.
  predicate Acceptable(model: Model, v: seq<Bits>) {
    (forall i :: 0 <= i < |v| ==> Finite(v[i])) && 100.0 <= SumOfSquares(model, v) <= 900.0
  }

  // ---- jobs -----------------------------------------------------------------------------------------------

  datatype JobState = Pending | Finished | Deleting

  // The body is blanked once the result is built. Of the ids only their number is kept then.
  datatype Job = Job(m: Message, uuid: string, visibleUntil: int, state: JobState, solo: bool,
                     ids: seq<int>, nIds: nat, truncated: bool, result: string, deleteTries: int)

  // A result made of this very body: the envelope is the body, and a vector, if there is one, is the
  // model's for the ids of this body's own job.
  ghost predicate MadeOf(r: Result, body: string, model: Model) {
    && r.envelope == body && Whole(body)
    && (r.outcome.Embedded? ==>
          && Opens(model, body).Some? && Acceptable(model, r.outcome.e.vector)
          && r.outcome.e.vector == model.embed(Opens(model, body).value.ids)
          && r.outcome.e.tokens == |Opens(model, body).value.ids|)
  }

  ghost predicate ResultOf(text: string, body: string, model: Model) {
    exists r :: text == Text(r) && MadeOf(r, body, model)
  }

  predicate Known(q: Queues, receipt: nat) {
    receipt in q.receipts && q.receipts[receipt] in q.ever
  }

  function BodyOf(q: Queues, receipt: nat): string
    requires Known(q, receipt)
  {
    q.ever[q.receipts[receipt]]
  }

  ghost predicate PendingOk(j: Job, model: Model) {
    && j.m.receives < RETRIES_RECEIVE && j.solo == (j.m.receives == SOLO_RECEIVE)
    && 2 <= |j.ids| == j.nIds <= MAX_TOKENS
    && Opens(model, j.m.body) == Some(Opened(j.ids, j.truncated))
  }

  // Its deletion has been asked for.
  predicate DeleteAsked(q: Queues, receipt: nat) {
    exists a :: a in q.asks && a.Remove? && receipt in a.receipts
  }

  ghost predicate JobOk(j: Job, q: Queues, model: Model) {
    && Known(q, j.m.receipt)
    && (!j.state.Deleting? ==> j.deleteTries == 0)
    && match j.state
       case Pending => j.m.body == BodyOf(q, j.m.receipt) && PendingOk(j, model)
       case Finished => ResultOf(j.result, BodyOf(q, j.m.receipt), model)
       case Deleting => ResultOf(j.result, BodyOf(q, j.m.receipt), model) && j.result in q.results &&
                        (j.deleteTries < 0 ==> DeleteAsked(q, j.m.receipt))
  }

  ghost predicate PoolOk(pool: seq<Job>, q: Queues, model: Model) {
    && (forall i :: 0 <= i < |pool| ==> JobOk(pool[i], q, model))
    && (forall i, k :: 0 <= i < k < |pool| ==> pool[i].m.receipt < pool[k].m.receipt)
    && (forall i :: 0 <= i < |pool| ==> pool[i].m.receipt < q.next)
  }

  function Tokens(j: Job): nat {
    if j.state.Pending? then j.nIds else 0
  }

  function PendingTokens(pool: seq<Job>): nat {
    if pool == [] then 0 else PendingTokens(pool[..|pool| - 1]) + Tokens(pool[|pool| - 1])
  }

  // The receipts of the jobs still pending.
  function PendingSet(pool: seq<Job>): set<nat> {
    set i | 0 <= i < |pool| && pool[i].state.Pending? :: pool[i].m.receipt
  }

  // The receipts of the jobs whose results no queue has taken yet.
  function Undelivered(pool: seq<Job>): set<nat> {
    set i | 0 <= i < |pool| && pool[i].state.Finished? :: pool[i].m.receipt
  }

  function Without(pool: seq<Job>, i: nat): seq<Job>
    requires i < |pool|
  {
    pool[..i] + pool[i + 1..]
  }

  // ---- what changes keep -------------------------------------------------------------------------------------

  lemma {:induction false} TokensAdd(a: seq<Job>, b: seq<Job>)
    ensures PendingTokens(a + b) == PendingTokens(a) + PendingTokens(b)
    decreases |b|
  {
    if b == [] {
      assert a + b == a;
    } else {
      assert (a + b)[..|a + b| - 1] == a + b[..|b| - 1];
      TokensAdd(a, b[..|b| - 1]);
    }
  }

  lemma TokensOne(j: Job)
    ensures PendingTokens([j]) == Tokens(j)
  {
    assert [j][..0] == [];
  }

  lemma TokensWithout(pool: seq<Job>, i: nat)
    requires i < |pool|
    ensures PendingTokens(Without(pool, i)) == PendingTokens(pool) - Tokens(pool[i])
  {
    hide PendingTokens, Tokens;
    assert pool == pool[..i] + [pool[i]] + pool[i + 1..];
    TokensAdd(pool[..i] + [pool[i]], pool[i + 1..]);
    TokensAdd(pool[..i], [pool[i]]);
    TokensOne(pool[i]);
    TokensAdd(pool[..i], pool[i + 1..]);
  }

  lemma TokensUpdate(pool: seq<Job>, i: nat, j: Job)
    requires i < |pool|
    ensures PendingTokens(pool[i := j]) == PendingTokens(pool) - Tokens(pool[i]) + Tokens(j)
  {
    hide PendingTokens, Tokens;
    TokensWithout(pool, i);
    TokensWithout(pool[i := j], i);
    assert Without(pool[i := j], i) == Without(pool, i);
  }

  lemma WithoutKeeps(pool: seq<Job>, i: nat, q: Queues, model: Model)
    requires i < |pool| && PoolOk(pool, q, model)
    ensures PoolOk(Without(pool, i), q, model) && PendingSet(Without(pool, i)) <= PendingSet(pool)
    ensures PendingSet(Without(pool, i)) == PendingSet(pool) - if pool[i].state.Pending? then {pool[i].m.receipt} else {}
  {
    hide JobOk;
    var now := Without(pool, i);
    assert forall k :: 0 <= k < |now| ==> now[k] == if k < i then pool[k] else pool[k + 1];
    forall r | r in PendingSet(pool) && r != pool[i].m.receipt
      ensures r in PendingSet(now)
    {
      var k :| 0 <= k < |pool| && pool[k].state.Pending? && pool[k].m.receipt == r;
      assert now[if k < i then k else k - 1] == pool[k];
    }
  }

  // No two jobs are for one receipt: just the one is gone.
  lemma WithoutOne(pool: seq<Job>, i: nat, q: Queues, model: Model)
    requires i < |pool| && PoolOk(pool, q, model)
    ensures forall j :: j in Without(pool, i) <==> j in pool && j != pool[i]
  {
    hide JobOk;
    var now := Without(pool, i);
    forall j | j in pool && j != pool[i]
      ensures j in now
    {
      var k :| 0 <= k < |pool| && pool[k] == j;
      assert now[if k < i then k else k - 1] == j;
    }
    forall k | 0 <= k < |now|
      ensures now[k] in pool && now[k] != pool[i]
    {
      var at := if k < i then k else k + 1;
      assert now[k] == pool[at] && pool[at].m.receipt != pool[i].m.receipt;
    }
  }

  lemma UpdateKeeps(pool: seq<Job>, i: nat, j: Job, q: Queues, model: Model)
    requires i < |pool| && PoolOk(pool, q, model) && JobOk(j, q, model) && j.m.receipt == pool[i].m.receipt
    ensures PoolOk(pool[i := j], q, model)
    ensures j.state == pool[i].state ==> PendingSet(pool[i := j]) == PendingSet(pool)
    ensures !j.state.Pending? ==> PendingSet(pool[i := j]) == PendingSet(pool) - {j.m.receipt}
  {
    hide JobOk;
    var now := pool[i := j];
    forall r | r in PendingSet(pool) && r != j.m.receipt
      ensures r in PendingSet(now)
    {
      var k :| 0 <= k < |pool| && pool[k].state.Pending? && pool[k].m.receipt == r;
      assert now[k] == pool[k];
    }
    if j.state == pool[i].state && j.state.Pending? {
      assert now[i].m.receipt in PendingSet(now);
      assert pool[i].m.receipt in PendingSet(pool);
    }
  }

  lemma AppendKeeps(pool: seq<Job>, j: Job, q: Queues, model: Model)
    requires PoolOk(pool, q, model) && JobOk(j, q, model) && j.m.receipt < q.next
    requires forall i :: 0 <= i < |pool| ==> pool[i].m.receipt < j.m.receipt
    ensures PoolOk(pool + [j], q, model)
    ensures PendingSet(pool + [j]) == PendingSet(pool) + if j.state.Pending? then {j.m.receipt} else {}
    ensures PendingTokens(pool + [j]) == PendingTokens(pool) + Tokens(j)
  {
    hide JobOk, PendingTokens, Tokens;
    TokensAdd(pool, [j]);
    TokensOne(j);
    var now := pool + [j];
    forall r | r in PendingSet(pool)
      ensures r in PendingSet(now)
    {
      var k :| 0 <= k < |pool| && pool[k].state.Pending? && pool[k].m.receipt == r;
      assert now[k] == pool[k];
    }
    if j.state.Pending? {
      assert now[|pool|] == j;
    }
  }

  lemma StillAsked(was: Queues, now: Queues)
    requires Grown(was, now)
    ensures forall r :: DeleteAsked(was, r) ==> DeleteAsked(now, r)
  {
  }

  lemma JobStays(j: Job, was: Queues, now: Queues, model: Model)
    requires Grown(was, now) && JobOk(j, was, model)
    ensures JobOk(j, now, model)
  {
    hide ResultOf, PendingOk, DeleteAsked;
    StillAsked(was, now);
  }

  lemma PoolStays(pool: seq<Job>, was: Queues, now: Queues, model: Model)
    requires Grown(was, now) && PoolOk(pool, was, model)
    ensures PoolOk(pool, now, model)
  {
    hide JobOk;
    forall i | 0 <= i < |pool|
      ensures JobOk(pool[i], now, model)
    {
      JobStays(pool[i], was, now, model);
    }
  }

  // A job whose result the results queue holds may be deleted: the result holds its body.
  lemma ResultHolds(j: Job, q: Queues, model: Model)
    requires JobOk(j, q, model) && j.state.Deleting?
    ensures Handed(q, j.m.receipt)
  {
    hide Text, Members, Field, Steady;
    var body := BodyOf(q, j.m.receipt);
    var r :| j.result == Text(r) && MadeOf(r, body, model);
    MembersAsWritten(r);
    assert Holds(j.result, body);
  }
}
