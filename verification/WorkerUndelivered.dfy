// What a pass may start with undelivered (esp32-embedder/worker/worker.c:645-675). The hand-off just before it is
// for jobs answered as they came in, and what that leaves does not keep the pass from starting.
module WorkerUndelivered {
  import opened Bytes
  import opened Results
  import opened Sqs
  import opened WorkerPool
  import opened WorkerBoard
  import opened WorkerJobs
  import opened WorkerHandoff
  import opened WorkerVisibility
  import opened WorkerPass
  import Batch = BatchPlan
  import JsonText

  // A reply leaves undelivered what was, but for exactly the jobs offered whose results it took.
  lemma LeftByReply(was: seq<Job>, now: seq<Job>, idx: seq<nat>, ok: seq<bool>, q: Queues, model: Model)
    requires PoolOk(was, q, model) && |idx| <= |ok|
    requires forall b :: 0 <= b < |idx| ==> idx[b] < |was| && was[idx[b]].state.Finished?
    requires forall b, c :: 0 <= b < c < |idx| ==> idx[b] < idx[c]
    requires MarkedBy(was, now, idx, ok)
    ensures Undelivered(now) == Undelivered(was) - set b | 0 <= b < |idx| && ok[b] :: was[idx[b]].m.receipt
  {
    hide JobOk;
    var taken := set b | 0 <= b < |idx| && ok[b] :: was[idx[b]].m.receipt;
    forall i | 0 <= i < |was|
      ensures now[i].state.Finished? && was[i].m.receipt == now[i].m.receipt <==> was[i].state.Finished? && was[i].m.receipt !in taken
    {
      if i in idx {
        var b :| 0 <= b < |idx| && idx[b] == i;
      }
    }
  }

  // ---- one that starts with one undelivered ---------------------------------------------------------------

  // A board with an identity, and a queue of two messages: one new, one on its third delivery.
  const CFG: Config := Config(512, 1000000, 10, true, "", "", "")

  const ASIS: Model := Model(body => if body == "1" then Some(Envelope("", Some(""), false)) else None,
                             (text, uuid) => Some(Opened([0, 0], false)), ids => [], b => 0.0)

  const TWO: Queues := Queues(map[0 := "1", 1 := "1"], {0, 1}, {}, {}, map[0 := 0, 1 := 1], 2, [])

  const NEW: Message := Message("", 0, "1", 1)

  const AGAIN: Message := Message("", 1, "1", 3)

  function Came(until: int): seq<Job> {
    [Taken(ASIS, CFG, false, NEW, until), Taken(ASIS, CFG, false, AGAIN, until)]
  }

  lemma CameIs(until: int)
    ensures Came(until) == [
      Job(NEW, "", until, JobState.Pending, false, [0, 0], 2, false, "", 0),
      Job(AGAIN.(body := ""), "", until, JobState.Finished, false, [], 0, false,
          Text(ResultFor(CFG, AGAIN, "", SentBack(RETRIES), None)), 0)]
  {
    hide Text;
  }

  lemma CameOk(until: int)
    ensures Strict(ASIS) && PoolOk(Came(until), TWO, ASIS)
  {
    hide Text, Came;
    CameIs(until);
    var r := ResultFor(CFG, AGAIN, "", SentBack(RETRIES), None);
    assert Whole("1");
    assert MadeOf(r, "1", ASIS);
    assert ResultOf(Text(r), "1", ASIS);
  }

  lemma {:induction false} EscapedShort(s: string)
    ensures |JsonText.EscapeAll(s)| <= 6 * |s|
    decreases |s|
  {
    if s != "" {
      EscapedShort(s[..|s| - 1]);
    }
  }

  // Its result is a short one.
  lemma {:induction false} ResultShort(k: nat)
    requires k <= 13
    ensures |From(ResultFor(CFG, AGAIN, "", SentBack(RETRIES), None), k)| <= (13 - k) * 200 + 1
    decreases 13 - k
  {
    var r := ResultFor(CFG, AGAIN, "", SentBack(RETRIES), None);
    if k < 13 {
      hide From, Field;
      FieldShort(k);
      FromOn(r, k);
      ResultShort(k + 1);
    } else {
      FromEnd(r);
    }
  }

  lemma FromOn(r: Result, k: nat)
    requires k < 13
    ensures |From(r, k)| == 1 + |Field(r, k)| + |From(r, k + 1)|
  {
    hide Field;
  }

  lemma FieldShort(k: nat)
    requires k < 13
    ensures |Field(ResultFor(CFG, AGAIN, "", SentBack(RETRIES), None), k)| < 200
  {
    hide JsonText.EscapeAll;
    EscapedShort("");
    EscapedShort(RETRIES);
    assert |Name(k)| <= 15;
    assert Decimal(3) == "3";
  }

  // Only the new one is there to go, and it goes.
  lemma NewGoes(until: int)
    ensures AsPlanned(Came(until), CFG.target, [0]) && FitsPass(Came(until), [0])
  {
    hide Text, Came, Picks, FitsPass, PoolOk;
    CameIs(until);
    CameOk(until);
    var came, pend := Came(until), [0];
    assert Oldest(came, pend);
    var picks := Picks(came, pend, CFG.target);
    PicksCount(picks, 1);
    assert Select(pend, picks) == [0];
    ChosenOk(came, pend, CFG.target, TWO, ASIS);
  }

  lemma TextShort()
    ensures |Text(ResultFor(CFG, AGAIN, "", SentBack(RETRIES), None))| <= MAX_BATCH_BYTES
  {
    hide From;
    ResultShort(0);
  }

  lemma NextIsIt(until: int)
    ensures NextBatch(Came(until), [false, false], 2) == [1]
  {
    hide Text, Came, Bodies, NextBatch, Sum, ResultFor;
    CameIs(until);
    TextShort();
    var came, tried := Came(until), [false, false];
    NoBodies(came);
    NoBatch(came, tried);
    BatchOn(came, tried, 0);
    BatchOn(came, tried, 1);
  }

  // Two jobs come, the one on its third delivery is answered for Cal, the hand-off offers its result, and the
  // reply lists nothing: it is left, and the pass that starts then, as far as the worker can tell with every
  // pending job hidden for long enough, carries the other.
  lemma UndeliveredAtPass(t: int, md5: string -> string)
    ensures var came := Came(t + VISIBILITY);
      && Strict(ASIS) && PoolOk(came, TWO, ASIS) && Genuine(TWO, NEW) && Genuine(TWO, AGAIN)
      && NextBatch(came, [false, false], 2) == [1] && !Listed([], 0, Some(Bodies(came, [1])), md5)
      && MarkedBy(came, came, [1], [false]) && Undelivered(came) == {1}
      && Hidden(came, t + EXTEND_HORIZON) && AsPlanned(came, CFG.target, [0]) && FitsPass(came, [0])
  {
    hide Text, Came, PoolOk, AsPlanned, FitsPass, NextBatch, Bodies;
    CameIs(t + VISIBILITY);
    CameOk(t + VISIBILITY);
    NextIsIt(t + VISIBILITY);
    NewGoes(t + VISIBILITY);
    assert Came(t + VISIBILITY)[1].m.receipt in Undelivered(Came(t + VISIBILITY));
  }
}
