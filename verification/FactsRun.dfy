// A run of the facts service: imperative, against a database whose statements can fail, whose
// commits can succeed without the run learning of it, and under messages that keep arriving. The
// process may die after any statement.
module FactsRun {
  import opened FactsSplit
  import opened FactsService

  // What the caller of a statement sees. A systemic error leaves open whether it took effect.
  datatype Outcome = Done | ContentError | SystemicError

  datatype Extraction = Facts(texts: seq<string>) | Error(systemic: bool)

  // A row of pending_conversations.
  datatype Pending = Pending(id: int, lastSeq: int, failSeq: Option<int>, failCount: nat, idle: bool)

  datatype Verdict = NextConversation | StopRun | Died

  datatype Config = Config(limit: nat, maxAttempts: nat, maxSystemic: nat)

  predicate UpToDate(p: Pending, c: Conversation) {
    p.lastSeq == LastHandled(c) && p.failSeq == FailSeq(c) && p.failCount == FailCount(c)
  }

  // Only messages have arrived.
  predicate OnlyNewRows(c: Conversation, d: Conversation) {
    c.rows <= d.rows && d == c.(rows := d.rows)
  }

  // Every conversation but id only gains messages.
  ghost predicate OthersGrow(was: map<int, Conversation>, now: map<int, Conversation>, id: int) {
    forall k :: k in was && k != id ==> k in now && OnlyNewRows(was[k], now[k])
  }

  // No conversation is gone, and none has moved back.
  ghost predicate Onward(was: map<int, Conversation>, now: map<int, Conversation>) {
    forall id :: id in was ==> id in now && MovedOn(was[id], now[id])
  }

  lemma OnwardSelf(a: map<int, Conversation>)
    ensures Onward(a, a)
  {
  }

  lemma OnwardFrom(a: map<int, Conversation>, b: map<int, Conversation>)
    requires forall id :: id in a ==> id in b && OnlyNewRows(a[id], b[id])
    ensures Onward(a, b)
  {
  }

  lemma OnwardOn(a: map<int, Conversation>, b: map<int, Conversation>, c: map<int, Conversation>)
    requires Onward(a, b) && Onward(b, c)
    ensures Onward(a, c)
  {
  }

  lemma OnwardMore(a: map<int, Conversation>, b: map<int, Conversation>, c: map<int, Conversation>, id: int)
    requires Onward(a, b) && OthersGrow(b, c, id) && id in b && id in c && MovedOn(b[id], c[id])
    ensures Onward(a, c)
  {
    forall k | k in b
      ensures k in c && MovedOn(b[k], c[k])
    {
    }
    OnwardOn(a, b, c);
  }

  // From the j-th on, what was found pending is still so.
  ghost predicate UpToDateFrom(pending: seq<Pending>, j: nat, now: map<int, Conversation>) {
    forall i :: j <= i < |pending| ==> pending[i].id in now && UpToDate(pending[i], now[pending[i].id])
  }

  lemma AllUpToDate(pending: seq<Pending>, now: map<int, Conversation>)
    requires forall i :: 0 <= i < |pending| ==> pending[i].id in now && UpToDate(pending[i], now[pending[i].id])
    ensures UpToDateFrom(pending, 0, now)
  {
    hide UpToDate;
  }

  lemma NextUpToDate(pending: seq<Pending>, j: nat, now: map<int, Conversation>)
    requires UpToDateFrom(pending, j, now) && j < |pending|
    ensures pending[j].id in now && UpToDate(pending[j], now[pending[j].id])
  {
    hide UpToDate;
  }

  lemma LaterUpToDate(pending: seq<Pending>, j: nat, was: map<int, Conversation>, now: map<int, Conversation>)
    requires UpToDateFrom(pending, j, was) && j < |pending| && OthersGrow(was, now, pending[j].id)
    requires forall i, k :: 0 <= i < k < |pending| ==> pending[i].id != pending[k].id
    ensures UpToDateFrom(pending, j + 1, now)
  {
    forall i | j + 1 <= i < |pending|
      ensures pending[i].id in now && UpToDate(pending[i], now[pending[i].id])
    {
      assert OnlyNewRows(was[pending[i].id], now[pending[i].id]);
    }
  }

  lemma OthersGrowOn(a: map<int, Conversation>, b: map<int, Conversation>, c: map<int, Conversation>, id: int)
    requires OthersGrow(a, b, id) && OthersGrow(b, c, id)
    ensures OthersGrow(a, c, id)
  {
  }

  lemma OthersGrowFrom(a: map<int, Conversation>, b: map<int, Conversation>, id: int)
    requires forall k :: k in a ==> k in b && OnlyNewRows(a[k], b[k])
    ensures OthersGrow(a, b, id)
  {
  }

  // What the extractor said of an exchange.
  datatype Answer = Answer(x: Exchange, result: Extraction)

  // If an exchange was committed, its facts are those the extractor gave for it.
  ghost predicate Answers(a: Answer, e: Event) {
    e.Committed? ==> a.result.Facts? && e.firstSeq == a.x.firstSeq && Stores([], e.facts, a.x, a.result.texts)
  }

  // Whatever was committed in between is as the extractor said.
  ghost predicate AsSaid(was: seq<Event>, now: seq<Event>, said: seq<Answer>) {
    was <= now && forall k :: |was| <= k < |now| && now[k].Committed? ==> SaidOf(said, now[k])
  }

  ghost predicate SaidOf(said: seq<Answer>, e: Event) {
    exists a :: a in said && Answers(a, e)
  }

  lemma SaidNothing(log: seq<Event>, said: seq<Answer>)
    ensures AsSaid(log, log, said)
  {
  }

  lemma AsSaidOn(a: seq<Event>, b: seq<Event>, c: seq<Event>, first: seq<Answer>, more: seq<Answer>)
    requires AsSaid(a, b, first) && AsSaid(b, c, more)
    ensures AsSaid(a, c, first + more)
  {
    hide Answers;
    forall k | |a| <= k < |c| && c[k].Committed?
      ensures SaidOf(first + more, c[k])
    {
      if k < |b| {
        assert b[k] == c[k] && SaidOf(first, b[k]);
        var x :| x in first && Answers(x, c[k]);
        assert x in first + more;
      } else {
        var x :| x in more && Answers(x, c[k]);
        assert x in first + more;
      }
    }
  }

  lemma CommitSaid(c: Conversation, x: Exchange, texts: seq<string>)
    ensures AsSaid(c.log, CommitExchange(c, x, texts).log, [Answer(x, Facts(texts))])
  {
    hide Stores;
    CommitStores(c, x, texts);
    var e := CommitExchange(c, x, texts).log[|c.log|];
    assert Answer(x, Facts(texts)) in [Answer(x, Facts(texts))] && Answers(Answer(x, Facts(texts)), e);
  }

  ghost predicate AllAsSaid(was: map<int, Conversation>, now: map<int, Conversation>, said: seq<Answer>) {
    forall id :: id in was ==> id in now && AsSaid(was[id].log, now[id].log, said)
  }

  lemma NothingSaid(a: map<int, Conversation>, b: map<int, Conversation>)
    requires forall id :: id in a ==> id in b && b[id].log == a[id].log
    ensures AllAsSaid(a, b, [])
  {
  }

  lemma AllAsSaidOn(a: map<int, Conversation>, b: map<int, Conversation>, c: map<int, Conversation>, first: seq<Answer>, more: seq<Answer>)
    requires AllAsSaid(a, b, first) && AllAsSaid(b, c, more)
    ensures AllAsSaid(a, c, first + more)
  {
    hide AsSaid;
    forall id | id in a
      ensures id in c && AsSaid(a[id].log, c[id].log, first + more)
    {
      AsSaidOn(a[id].log, b[id].log, c[id].log, first, more);
    }
  }

  // One conversation's answers, and of the others nothing is new.
  lemma OneAsSaid(a: map<int, Conversation>, b: map<int, Conversation>, id: int, said: seq<Answer>)
    requires OthersGrow(a, b, id) && id in a && id in b && AsSaid(a[id].log, b[id].log, said)
    ensures AllAsSaid(a, b, said)
  {
    forall k | k in a
      ensures k in b && AsSaid(a[k].log, b[k].log, said)
    {
      if k != id {
        assert OnlyNewRows(a[k], b[k]);
      }
    }
  }

  class Database {
    var conversations: map<int, Conversation>
    const maxAttempts: nat

    constructor (maxAttempts: nat)
      ensures Inv() && this.maxAttempts == maxAttempts
    {
      this.maxAttempts := maxAttempts;
      conversations := map[];
    }

    ghost predicate Inv()
      reads this
    {
      forall id :: id in conversations ==> Sound(conversations[id], maxAttempts)
    }

    // Any conversations, old or new, get any messages, numbered upwards.
    method Arrivals()
      requires Inv()
      modifies this
      ensures Inv()
      ensures forall id :: id in old(conversations) ==>
        id in conversations && OnlyNewRows(old(conversations)[id], conversations[id])
    {
      hide Sound;
      var batches: nat :| 0 <= batches;
      for i := 0 to batches
        invariant Inv()
        invariant forall id :: id in old(conversations) ==>
          id in conversations && OnlyNewRows(old(conversations)[id], conversations[id])
      {
        var id: int := *;
        var more: seq<Row> := *;
        if id in conversations {
          if Increasing(conversations[id].rows + more) {
            NewRowsSound(conversations[id], more, maxAttempts);
            conversations := conversations[id := NewRows(conversations[id], more)];
          }
        } else if Increasing(more) {
          FreshSound(more, maxAttempts);
          conversations := conversations[id := Fresh(more)];
        }
      }
    }

    // Which conversations have unread messages, and in what order to take them, is SQL this model
    // leaves open: any list without repetition will do.
    method PendingConversations() returns (pending: seq<Pending>)
      requires Inv()
      modifies this
      ensures Inv()
      ensures forall id :: id in old(conversations) ==>
        id in conversations && OnlyNewRows(old(conversations)[id], conversations[id])
      ensures forall i, j :: 0 <= i < j < |pending| ==> pending[i].id != pending[j].id
      ensures forall i :: 0 <= i < |pending| ==>
        pending[i].id in conversations && UpToDate(pending[i], conversations[pending[i].id])
    {
      hide Sound;
      Arrivals();
      pending := Candidates();
    }

    // The query itself.
    method Candidates() returns (pending: seq<Pending>)
      ensures forall i, j :: 0 <= i < j < |pending| ==> pending[i].id != pending[j].id
      ensures forall i :: 0 <= i < |pending| ==>
        pending[i].id in conversations && UpToDate(pending[i], conversations[pending[i].id])
    {
      hide LastHandled, FailSeq, FailCount;
      pending := [];
      var candidates: seq<int> := *;
      for n := 0 to |candidates|
        invariant forall i, j :: 0 <= i < j < |pending| ==> pending[i].id != pending[j].id
        invariant forall i :: 0 <= i < |pending| ==>
          pending[i].id in conversations && UpToDate(pending[i], conversations[pending[i].id])
      {
        var id, idle := candidates[n], *;
        if id in conversations && forall i :: 0 <= i < |pending| ==> pending[i].id != id {
          var c := conversations[id];
          pending := pending + [Pending(id, LastHandled(c), FailSeq(c), FailCount(c), idle)];
        }
      }
    }

    // commit_exchange, as the caller sees it.
    method Commit(id: int, ghost read: seq<Row>, x: Exchange, texts: seq<string>, healthy: bool) returns (outcome: Outcome)
      requires Inv() && id in conversations && NextExchange(conversations[id], read, x)
      modifies this
      ensures Inv() && id in conversations && OthersGrow(old(conversations), conversations, id)
      ensures old(conversations)[id].rows <= conversations[id].rows
      ensures var before := old(conversations)[id].(rows := conversations[id].rows);
        var committed := CommitExchange(before, x, texts);
        match outcome
        case Done => conversations[id] == committed
        case ContentError => conversations[id] == before
        case SystemicError => conversations[id] == before || conversations[id] == committed
      ensures MovedOn(old(conversations)[id], conversations[id])
      ensures outcome.Done? ==> Settled(read, old(conversations)[id], x, conversations[id])
      ensures outcome.Done? ==> Stores(old(conversations)[id].facts, conversations[id].facts, x, texts)
      ensures AsSaid(old(conversations)[id].log, conversations[id].log, [Answer(x, Facts(texts))])
      ensures healthy ==> outcome.Done?
    {
      hide Sound, Split, After, MarkIn, Stores;
      Arrivals();
      var c := conversations[id];
      CommitSound(c, read, x, texts, maxAttempts);
      CommitSaid(c, x, texts);
      outcome := *;
      if healthy { outcome := Done; }
      var applied: bool := *;
      if outcome.Done? || (outcome.SystemicError? && applied) {
        conversations := conversations[id := CommitExchange(c, x, texts)];
      }
    }

    // advance(gave_up=True); an exception leaves open whether it took effect, and ends the run.
    method Advance(id: int, ghost read: seq<Row>, x: Exchange, healthy: bool) returns (ok: bool)
      requires Inv() && id in conversations && NextExchange(conversations[id], read, x)
      requires maxAttempts <= Failures(conversations[id].log, x.firstSeq)
      modifies this
      ensures Inv() && id in conversations && OthersGrow(old(conversations), conversations, id)
      ensures old(conversations)[id].rows <= conversations[id].rows
      ensures var before := old(conversations)[id].(rows := conversations[id].rows);
        conversations[id] == GiveUp(before, x) || (!ok && conversations[id] == before)
      ensures MovedOn(old(conversations)[id], conversations[id])
      ensures ok ==> Settled(read, old(conversations)[id], x, conversations[id])
      ensures AsSaid(old(conversations)[id].log, conversations[id].log, [])
      ensures healthy ==> ok
    {
      hide Sound, Split, After, MarkIn, Failures;
      Arrivals();
      var c := conversations[id];
      GiveUpSound(c, read, x, maxAttempts);
      ok := *;
      ok := ok || healthy;
      var applied: bool := *;
      if ok || applied {
        conversations := conversations[id := GiveUp(c, x)];
      }
    }

    // record_failure; likewise.
    method RecordFailure(id: int, lastSeq: int, firstSeq: int, priorFailSeq: Option<int>, priorCount: nat, healthy: bool)
      returns (ok: bool, count: nat)
      requires Inv() && id in conversations
      requires lastSeq == LastHandled(conversations[id])
      requires priorFailSeq == FailSeq(conversations[id]) && priorCount == FailCount(conversations[id])
      modifies this
      ensures Inv() && id in conversations && OthersGrow(old(conversations), conversations, id)
      ensures old(conversations)[id].rows <= conversations[id].rows
      ensures count == CountAfter(firstSeq, priorFailSeq, priorCount)
      ensures var before := old(conversations)[id].(rows := conversations[id].rows);
        var recorded := FactsService.RecordFailure(before, lastSeq, firstSeq, count);
        conversations[id] == recorded || (!ok && conversations[id] == before)
      ensures MovedOn(old(conversations)[id], conversations[id])
      ensures ok ==> count <= Failures(conversations[id].log, firstSeq)
      ensures LastHandled(conversations[id]) == lastSeq
      ensures AsSaid(old(conversations)[id].log, conversations[id].log, [])
      ensures healthy ==> ok
    {
      hide Sound, Failures;
      Arrivals();
      var c := conversations[id];
      RecordFailureSound(c, firstSeq, maxAttempts);
      count := CountAfter(firstSeq, priorFailSeq, priorCount);
      ok := *;
      ok := ok || healthy;
      var applied: bool := *;
      if ok || applied {
        conversations := conversations[id := FactsService.RecordFailure(c, lastSeq, firstSeq, count)];
      }
    }
  }

  // After x the run goes on with the exchanges behind it in what it read.
  ghost predicate Settled(read: seq<Row>, c: Conversation, x: Exchange, d: Conversation) {
    && LastHandled(d) == x.lastSeq && FailSeq(d) == None && FailCount(d) == 0
    && MarkIn(read, x.lastSeq)
    && Split(After(read, LastHandled(c)), MAX_CHARS) != []
    && Split(After(read, x.lastSeq), MAX_CHARS) == Split(After(read, LastHandled(c)), MAX_CHARS)[1..]
  }

  class Stats {
    var exchanges: nat
    var errors: nat
    var gaveUp: nat
    var skippedOpen: nat
    var systemicErrors: nat
    var aborted: bool
    var streak: nat   // consecutive systemic errors, a local of extract_pending

    constructor ()
      ensures exchanges == 0 && errors == 0 && gaveUp == 0 && streak == 0 && !aborted
    {
      exchanges, errors, gaveUp, skippedOpen, systemicErrors, aborted, streak := 0, 0, 0, 0, 0, false, 0;
    }

    function Counted(): nat
      reads this
    {
      exchanges + errors
    }

    // A run counts at most limit exchanges and errors together, and stops at maxSystemic outages in a row.
    predicate WithinLimits(cfg: Config)
      reads this
    {
      Counted() <= cfg.limit && (aborted <==> 0 < streak && cfg.maxSystemic <= streak)
    }
  }

  // The model behind the extractor, and what it was asked and said.
  class Extractor {
    ghost var answers: seq<Answer>

    constructor ()
      ensures answers == []
    {
      answers := [];
    }

    // Anything, in good health some facts.
    method Extract(x: Exchange, healthy: bool) returns (result: Extraction)
      modifies this
      ensures answers == old(answers) + [Answer(x, result)]
      ensures healthy ==> result.Facts?
    {
      var texts: seq<string> := *;
      result := Facts(texts);
      if !healthy {
        result := *;
      }
      answers := answers + [Answer(x, result)];
    }
  }

  datatype Fate = Retry | Refused | Lost

  // A failure that says something about the exchange is counted; at maxAttempts of them the
  // exchange is given up.
  method CountFailure(db: Database, id: int, ghost read: seq<Row>, x: Exchange,
                      lastSeq: int, failSeq: Option<int>, failCount: nat, healthy: bool)
    returns (fate: Fate)
    requires db.Inv() && id in db.conversations && NextExchange(db.conversations[id], read, x)
    requires UpToDate(Pending(id, lastSeq, failSeq, failCount, false), db.conversations[id])
    modifies db
    ensures db.Inv() && id in db.conversations && OthersGrow(old(db.conversations), db.conversations, id)
    ensures MovedOn(old(db.conversations)[id], db.conversations[id])
    ensures fate.Refused? ==> Settled(read, old(db.conversations)[id], x, db.conversations[id])
    ensures healthy ==> fate == if CountAfter(x.firstSeq, failSeq, failCount) < db.maxAttempts then Retry else Refused
    ensures fate.Retry? ==>
      FailCount(db.conversations[id]) == CountAfter(x.firstSeq, failSeq, failCount) < db.maxAttempts
    ensures AsSaid(old(db.conversations)[id].log, db.conversations[id].log, [])
  {
    hide Sound, Split, After, Failures, AsSaid;
    var ok, n := db.RecordFailure(id, lastSeq, x.firstSeq, failSeq, failCount, healthy);
    var died: bool := *;
    if !ok || (died && !healthy) {
      return Lost;
    }
    if n < db.maxAttempts {
      return Retry;
    }
    ghost var mid := db.conversations[id].log;
    ok := db.Advance(id, read, x, healthy);
    ghost var none: seq<Answer> := [];
    AsSaidOn(old(db.conversations)[id].log, mid, db.conversations[id].log, none, none);
    assert none + none == none;
    return if ok then Refused else Lost;
  }

  // No exchange it could take is left in what it read: there is none, or the next one is still open, or
  // the run has reached its limit.
  ghost predicate NothingToTake(read: seq<Row>, c: Conversation, idle: bool, full: bool) {
    var rest := Split(After(read, LastHandled(c)), MAX_CHARS);
    rest == [] || (!rest[0].closed && !idle) || full
  }

  datatype Attempted = Settles | Leaves | Stops | Dies

  // One exchange, once the extractor has answered: commit, and count what went wrong. In good health it
  // settles the exchange. An outage says nothing about the exchange, and touches nothing.
  method Attempt(db: Database, id: int, ghost read: seq<Row>, x: Exchange, result: Extraction,
                 lastSeq: int, failSeq: Option<int>, failCount: nat, cfg: Config, stats: Stats, healthy: bool)
    returns (end: Attempted)
    requires db.Inv() && id in db.conversations && NextExchange(db.conversations[id], read, x)
    requires UpToDate(Pending(id, lastSeq, failSeq, failCount, false), db.conversations[id])
    requires cfg.maxAttempts == db.maxAttempts
    requires stats.WithinLimits(cfg) && !stats.aborted && stats.Counted() < cfg.limit
    modifies db, stats
    ensures db.Inv() && id in db.conversations && OthersGrow(old(db.conversations), db.conversations, id)
    ensures MovedOn(old(db.conversations)[id], db.conversations[id])
    ensures stats.WithinLimits(cfg) && (stats.aborted ==> end.Stops?)
    ensures end.Settles? ==> Settled(read, old(db.conversations)[id], x, db.conversations[id])
    ensures healthy && result.Facts? ==> end.Settles? && stats.exchanges == old(stats.exchanges) + 1
    ensures stats.exchanges == old(stats.exchanges) + 1 ==>
      result.Facts? && Stores(old(db.conversations)[id].facts, db.conversations[id].facts, x, result.texts)
    ensures healthy && result.Error? && !result.systemic ==>
      end == if CountAfter(x.firstSeq, failSeq, failCount) < cfg.maxAttempts then Leaves else Settles
    ensures stats.Counted() == old(stats.Counted()) + 1
    ensures stats.streak == 0 || (stats.streak == old(stats.streak) + 1 && (end.Leaves? || end.Stops?))
    ensures result.Error? && result.systemic ==>
      stats.streak == old(stats.streak) + 1 && db.conversations == old(db.conversations)
    ensures result.Error? && !result.systemic ==> stats.streak == 0
    ensures stats.systemicErrors == old(stats.systemicErrors) + if stats.streak == old(stats.streak) + 1 then 1 else 0
    ensures end.Settles? ==>
      || (stats.exchanges == old(stats.exchanges) + 1 && stats.gaveUp == old(stats.gaveUp))
      || (stats.errors == old(stats.errors) + 1 && stats.gaveUp == old(stats.gaveUp) + 1)
    ensures !end.Settles? ==> stats.exchanges == old(stats.exchanges) && stats.errors == old(stats.errors) + 1 && stats.gaveUp == old(stats.gaveUp)
    ensures AsSaid(old(db.conversations)[id].log, db.conversations[id].log, [Answer(x, result)])
  {
    hide Sound, Split, After, Failures, SplitBlocks, MarkIn, CommitExchange, OthersGrow, AsSaid, Stores;
    SaidNothing(db.conversations[id].log, [Answer(x, result)]);
    var failed, systemic := result.Error?, result.Error? && result.systemic;
    ghost var was, mid := db.conversations, db.conversations;
    if !failed {
      var outcome := db.Commit(id, read, x, result.texts, healthy);
      failed, systemic := !outcome.Done?, outcome.SystemicError?;
      mid := db.conversations;
    } else {
      OthersGrowFrom(was, mid, id);
    }
    if failed {
      stats.errors := stats.errors + 1;
      if systemic {
        stats.systemicErrors, stats.streak := stats.systemicErrors + 1, stats.streak + 1;
        if stats.streak >= cfg.maxSystemic {
          stats.aborted := true;
          return Stops;
        }
        return Leaves;
      }
      stats.streak := 0;
      var fate := CountFailure(db, id, read, x, lastSeq, failSeq, failCount, healthy);
      OthersGrowOn(was, mid, db.conversations, id);
      AsSaidOn(was[id].log, mid[id].log, db.conversations[id].log, [Answer(x, result)], []);
      assert [Answer(x, result)] + [] == [Answer(x, result)];
      if fate.Refused? {
        stats.gaveUp := stats.gaveUp + 1;
      }
      return match fate case Refused => Settles case Retry => Leaves case Lost => Dies;
    }
    stats.streak := 0;
    stats.exchanges := stats.exchanges + 1;
    return Settles;
  }

  // The extractor was asked about the conversation's next exchanges, one after the other, and about none that is
  // still open, unless the conversation is idle.
  ghost predicate InTurn(said: seq<Answer>, read: seq<Row>, p: Pending) {
    var exchanges := Split(After(read, p.lastSeq), MAX_CHARS);
    |said| <= |exchanges| && forall k :: 0 <= k < |said| ==> said[k].x == exchanges[k] && (said[k].x.closed || p.idle)
  }

  lemma OneMoreTurn(said: seq<Answer>, a: Answer, read: seq<Row>, p: Pending, exchanges: seq<Exchange>)
    requires InTurn(said, read, p) && exchanges == Split(After(read, p.lastSeq), MAX_CHARS)
    requires |said| < |exchanges| && a.x == exchanges[|said|] && (a.x.closed || p.idle)
    ensures InTurn(said + [a], read, p)
  {
    hide Split, After;
  }

  lemma NoTurnYet(read: seq<Row>, p: Pending)
    ensures InTurn([], read, p)
  {
    hide Split, After;
  }

  // The body of extract_pending's loop over conversations. In good health it takes every exchange there is
  // to take in what it read.
  method ExtractConversation(db: Database, p: Pending, cfg: Config, ext: Extractor, stats: Stats, healthy: bool)
    returns (verdict: Verdict, ghost read: seq<Row>)
    requires db.Inv() && p.id in db.conversations && UpToDate(p, db.conversations[p.id])
    requires cfg.maxAttempts == db.maxAttempts
    requires stats.WithinLimits(cfg) && !stats.aborted
    modifies db, stats, ext
    ensures old(ext.answers) <= ext.answers && InTurn(ext.answers[|old(ext.answers)|..], read, p)
    ensures p.id in db.conversations
      && AsSaid(old(db.conversations)[p.id].log, db.conversations[p.id].log, ext.answers[|old(ext.answers)|..])
    ensures db.Inv() && p.id in db.conversations && OthersGrow(old(db.conversations), db.conversations, p.id)
    ensures MovedOn(old(db.conversations)[p.id], db.conversations[p.id])
    ensures stats.WithinLimits(cfg)
    ensures verdict.NextConversation? ==> !stats.aborted
    ensures stats.Counted() >= old(stats.Counted())
    ensures old(db.conversations)[p.id].rows <= read <= db.conversations[p.id].rows
    ensures healthy ==> verdict.NextConversation?
    ensures healthy ==>
      NothingToTake(read, db.conversations[p.id], p.idle, stats.Counted() >= cfg.limit)
  {
    hide Sound, Split, After, Failures, SplitBlocks, MarkIn, AsExchange, AsExchanges, OthersGrow, AsSaid, InTurn;
    ghost var was := db.conversations;
    db.Arrivals();
    OthersGrowFrom(was, db.conversations, p.id);
    SaidNothing(was[p.id].log, []);
    assert ext.answers[|old(ext.answers)|..] == [];
    MarkIsRead(db.conversations[p.id], db.maxAttempts);
    read := db.conversations[p.id].rows;
    var lastSeq, failSeq, failCount := p.lastSeq, p.failSeq, p.failCount;
    var exchanges := SplitExchanges(After(db.conversations[p.id].rows, lastSeq), MAX_CHARS);
    NoTurnYet(read, p);
    for i := 0 to |exchanges|
      invariant db.Inv() && p.id in db.conversations && OthersGrow(was, db.conversations, p.id)
      invariant MovedOn(old(db.conversations)[p.id], db.conversations[p.id])
      invariant UpToDate(Pending(p.id, lastSeq, failSeq, failCount, p.idle), db.conversations[p.id])
      invariant read <= db.conversations[p.id].rows && MarkIn(read, lastSeq)
      invariant exchanges[i..] == Split(After(read, lastSeq), MAX_CHARS)
      invariant stats.WithinLimits(cfg) && !stats.aborted && stats.Counted() >= old(stats.Counted())
      invariant old(ext.answers) <= ext.answers
      invariant AsSaid(was[p.id].log, db.conversations[p.id].log, ext.answers[|old(ext.answers)|..])
      invariant |ext.answers[|old(ext.answers)|..]| == i && InTurn(ext.answers[|old(ext.answers)|..], read, p)
    {
      var x := exchanges[i];
      verdict := NextConversation;
      if !x.closed && !p.idle {
        stats.skippedOpen := stats.skippedOpen + 1;
        return;
      }
      var late, died: bool := *, *;
      if stats.Counted() >= cfg.limit || (late && !healthy) {
        return;
      }
      if died && !healthy {
        verdict := Died;
        return;
      }
      assert exchanges[i..][0] == x && exchanges[i..][1..] == exchanges[i + 1..];
      ghost var mid, said := db.conversations, ext.answers[|old(ext.answers)|..];
      var result := ext.Extract(x, healthy);
      assert ext.answers[|old(ext.answers)|..] == said + [Answer(x, result)];
      OneMoreTurn(said, Answer(x, result), read, p, exchanges);
      var end := Attempt(db, p.id, read, x, result, lastSeq, failSeq, failCount, cfg, stats, healthy);
      OthersGrowOn(was, mid, db.conversations, p.id);
      AsSaidOn(was[p.id].log, mid[p.id].log, db.conversations[p.id].log, said, [Answer(x, result)]);
      if !end.Settles? {
        verdict := match end case Dies => Died case Stops => StopRun case _ => NextConversation;
        return;
      }
      lastSeq, failSeq, failCount := x.lastSeq, None, 0;
    }
    verdict := NextConversation;
  }

  // The conversations a run found, and the rows it read of those it visited.
  datatype Visits = Visits(found: seq<Pending>, taken: seq<seq<Row>>)

  // Nothing it could take is left in what it read of any conversation it visited.
  ghost predicate AllTaken(v: Visits, now: map<int, Conversation>, full: bool) {
    |v.taken| <= |v.found| && forall i :: 0 <= i < |v.taken| ==>
      v.found[i].id in now && NothingToTake(v.taken[i], now[v.found[i].id], v.found[i].idle, full)
  }

  lemma OneMoreTaken(v: Visits, was: map<int, Conversation>, now: map<int, Conversation>, read: seq<Row>, before: bool, full: bool)
    requires AllTaken(v, was, before) && (before ==> full) && |v.taken| < |v.found|
    requires forall i, j :: 0 <= i < j < |v.found| ==> v.found[i].id != v.found[j].id
    requires var p := v.found[|v.taken|];
      p.id in now && OthersGrow(was, now, p.id) && NothingToTake(read, now[p.id], p.idle, full)
    ensures AllTaken(v.(taken := v.taken + [read]), now, full)
  {
    hide Split, After;
    var more := v.taken + [read];
    forall i | 0 <= i < |more|
      ensures v.found[i].id in now && NothingToTake(more[i], now[v.found[i].id], v.found[i].idle, full)
    {
      if i < |v.taken| {
        assert OnlyNewRows(was[v.found[i].id], now[v.found[i].id]);
      }
    }
  }

  // extract_pending. In good health it visits every conversation it found, unless it reaches its limit.
  method ExtractPending(db: Database, cfg: Config, ext: Extractor, stats: Stats, healthy: bool) returns (died: bool, ghost visits: Visits)
    requires db.Inv() && cfg.maxAttempts == db.maxAttempts
    requires stats.WithinLimits(cfg) && !stats.aborted
    modifies db, stats, ext
    ensures db.Inv() && stats.WithinLimits(cfg)
    ensures Onward(old(db.conversations), db.conversations)
    ensures old(ext.answers) <= ext.answers
    ensures AllAsSaid(old(db.conversations), db.conversations, ext.answers[|old(ext.answers)|..])
    ensures healthy ==> !died && AllTaken(visits, db.conversations, stats.Counted() >= cfg.limit)
    ensures healthy ==> |visits.taken| == |visits.found| || stats.Counted() >= cfg.limit
  {
    hide Sound, NothingToTake, AllTaken, Onward, UpToDateFrom, MovedOn, OthersGrow, UpToDate, AsSaid,
      AllAsSaid;
    died := false;
    var pending := db.PendingConversations();
    OnwardFrom(old(db.conversations), db.conversations);
    NothingSaid(old(db.conversations), db.conversations);
    assert ext.answers[|old(ext.answers)|..] == [];
    AllUpToDate(pending, db.conversations);
    visits := Visits(pending, []);
    NoneTaken(pending, db.conversations, stats.Counted() >= cfg.limit);
    for j := 0 to |pending|
      invariant db.Inv() && stats.WithinLimits(cfg) && !stats.aborted
      invariant Onward(old(db.conversations), db.conversations)
      invariant UpToDateFrom(pending, j, db.conversations)
      invariant old(ext.answers) <= ext.answers
      invariant AllAsSaid(old(db.conversations), db.conversations, ext.answers[|old(ext.answers)|..])
      invariant visits.found == pending && |visits.taken| <= |pending|
      invariant healthy ==> |visits.taken| == j && AllTaken(visits, db.conversations, stats.Counted() >= cfg.limit)
    {
      var late: bool := *;
      if stats.Counted() >= cfg.limit || (late && !healthy) {
        return;
      }
      ghost var was, before, said := db.conversations, stats.Counted() >= cfg.limit, ext.answers;
      var verdict;
      ghost var read;
      NextUpToDate(pending, j, was);
      verdict, read := ExtractConversation(db, pending[j], cfg, ext, stats, healthy);
      OneAsSaid(was, db.conversations, pending[j].id, ext.answers[|said|..]);
      AllAsSaidOn(old(db.conversations), was, db.conversations, said[|old(ext.answers)|..], ext.answers[|said|..]);
      assert ext.answers[|old(ext.answers)|..] == said[|old(ext.answers)|..] + ext.answers[|said|..];
      OnwardMore(old(db.conversations), was, db.conversations, pending[j].id);
      LaterUpToDate(pending, j, was, db.conversations);
      if healthy {
        OneMoreTaken(visits, was, db.conversations, read, before, stats.Counted() >= cfg.limit);
        visits := visits.(taken := visits.taken + [read]);
      }
      if verdict != NextConversation {
        died := verdict == Died;
        return;
      }
    }
  }

  lemma NoneTaken(pending: seq<Pending>, now: map<int, Conversation>, full: bool)
    ensures AllTaken(Visits(pending, []), now, full)
  {
  }

  // Over any number of runs, each ending well or dying anywhere, with messages arriving throughout.
  method Service(db: Database, cfg: Config, ext: Extractor, runs: nat)
    requires db.Inv() && cfg.maxAttempts == db.maxAttempts
    modifies db, ext
    ensures db.Inv()
    ensures Onward(old(db.conversations), db.conversations)
    ensures old(ext.answers) <= ext.answers
    ensures AllAsSaid(old(db.conversations), db.conversations, ext.answers[|old(ext.answers)|..])
  {
    hide Sound, Onward, AllAsSaid;
    OnwardSelf(db.conversations);
    NothingSaid(db.conversations, db.conversations);
    assert ext.answers[|old(ext.answers)|..] == [];
    for run := 0 to runs
      invariant db.Inv()
      invariant Onward(old(db.conversations), db.conversations)
      invariant old(ext.answers) <= ext.answers
      invariant AllAsSaid(old(db.conversations), db.conversations, ext.answers[|old(ext.answers)|..])
    {
      var stats := new Stats();
      var healthy: bool := *;
      ghost var was, said := db.conversations, ext.answers;
      var died, _ := ExtractPending(db, cfg, ext, stats, healthy);
      AllAsSaidOn(old(db.conversations), was, db.conversations, said[|old(ext.answers)|..], ext.answers[|said|..]);
      assert ext.answers[|old(ext.answers)|..] == said[|old(ext.answers)|..] + ext.answers[|said|..];
      OnwardOn(old(db.conversations), was, db.conversations);
    }
  }
}
