// The facts service's database state (facts/service.py): per conversation its messages, its row of
// facts_progress and the facts drawn from it; the statements a run makes; and the run itself, which
// may die after any statement and be started again.
module FactsService {
  import opened FactsSplit

  datatype Fact = Fact(text: string, firstSeq: int, lastSeq: int)

  datatype Progress = Progress(lastSeq: int, failSeq: Option<int>, failCount: nat, gaveUp: nat)

  // What has become of a conversation's exchanges, in order. Not stored by the service: it is what
  // the properties below talk about.
  datatype Event =
    | Committed(firstSeq: int, facts: seq<Fact>)
    | GaveUp(firstSeq: int)
    | Failed(firstSeq: int)

  datatype Conversation = Conversation(rows: seq<Row>, progress: Option<Progress>, facts: seq<Fact>, log: seq<Event>)

  const MAX_CHARS := 3000

  // COALESCE(p.last_seq, -1)
  function LastHandled(c: Conversation): int {
    if c.progress.Some? then c.progress.value.lastSeq else -1
  }

  function FailSeq(c: Conversation): Option<int> {
    if c.progress.Some? then c.progress.value.failSeq else None
  }

  function FailCount(c: Conversation): nat {
    if c.progress.Some? then c.progress.value.failCount else 0
  }

  // ---- the statements ------------------------------------------------------------------------

  function Max(a: int, b: int): int {
    if a < b then b else a
  }

  // advance: the upsert on facts_progress.
  function Advanced(p: Option<Progress>, lastSeq: int, gaveUp: nat): Option<Progress> {
    if p.None? then Some(Progress(lastSeq, None, 0, gaveUp))
    else Some(Progress(Max(p.value.lastSeq, lastSeq), None, 0, p.value.gaveUp + gaveUp))
  }

  // commit_exchange: the facts and the advance, in one transaction.
  function CommitExchange(c: Conversation, x: Exchange, texts: seq<string>): Conversation {
    var facts := FactsOf(texts, x);
    Conversation(c.rows, Advanced(c.progress, x.lastSeq, 0), c.facts + facts, c.log + [Committed(x.firstSeq, facts)])
  }

  function FactsOf(texts: seq<string>, x: Exchange): seq<Fact> {
    seq(|texts|, i requires 0 <= i < |texts| => Fact(texts[i], x.firstSeq, x.lastSeq))
  }

  function GiveUp(c: Conversation, x: Exchange): Conversation {
    c.(progress := Advanced(c.progress, x.lastSeq, 1), log := c.log + [GaveUp(x.firstSeq)])
  }

  function CountAfter(firstSeq: int, priorFailSeq: Option<int>, priorCount: nat): nat {
    if priorFailSeq == Some(firstSeq) then priorCount + 1 else 1
  }

  // record_failure: the upsert that counts one more failure; last_seq is set only on a first insert.
  function RecordFailure(c: Conversation, lastSeq: int, firstSeq: int, count: nat): Conversation {
    c.(progress := Some(if c.progress.None? then Progress(lastSeq, Some(firstSeq), count, 0)
                        else c.progress.value.(failSeq := Some(firstSeq), failCount := count)),
       log := c.log + [Failed(firstSeq)])
  }

  // Messages keep arriving while a run is under way, each with a number above those before it.
  function NewRows(c: Conversation, more: seq<Row>): Conversation {
    c.(rows := c.rows + more)
  }

  // ---- what the log says -----------------------------------------------------------------------

  // The exchanges done with, by first sequence number, in the order they were.
  function Handled(log: seq<Event>): seq<int> {
    if log == [] then []
    else
      var e := log[|log| - 1];
      Handled(log[..|log| - 1]) + (if e.Failed? then [] else [e.firstSeq])
  }

  function Failures(log: seq<Event>, firstSeq: int): nat {
    if log == [] then 0
    else Failures(log[..|log| - 1], firstSeq) + (if log[|log| - 1] == Failed(firstSeq) then 1 else 0)
  }

  function CommittedFacts(log: seq<Event>): seq<Fact> {
    if log == [] then []
    else
      var e := log[|log| - 1];
      CommittedFacts(log[..|log| - 1]) + (if e.Committed? then e.facts else [])
  }

  lemma LogGrows(log: seq<Event>, e: Event)
    ensures Handled(log + [e]) == Handled(log) + (if e.Failed? then [] else [e.firstSeq])
    ensures forall f :: Failures(log + [e], f) == Failures(log, f) + (if e == Failed(f) then 1 else 0)
    ensures CommittedFacts(log + [e]) == CommittedFacts(log) + (if e.Committed? then e.facts else [])
  {
    assert (log + [e])[..|log|] == log;
  }

  // ---- the invariant ------------------------------------------------------------------------------

  // The exchanges done with are, in order and each once, the ones that begin before the progress
  // mark, which stands after the first n kept rows.
  ghost predicate SettledAt(c: Conversation, n: nat) {
    var k := Kept(c.rows);
    && n <= |k|
    && (n == 0 ==> LastHandled(c) == -1)
    && (n > 0 ==> k[n - 1].author == Claude && k[n - 1].seqNum == LastHandled(c))
    && Handled(c.log) == Firsts(Blocks(k[..n]))
  }

  // A given-up exchange had failed maxAttempts times by then.
  ghost predicate PatientLog(log: seq<Event>, maxAttempts: nat) {
    forall i :: 0 <= i < |log| && log[i].GaveUp? ==> maxAttempts <= Failures(log[..i], log[i].firstSeq)
  }

  ghost predicate HonestCount(c: Conversation) {
    FailSeq(c).Some? ==> FailCount(c) <= Failures(c.log, FailSeq(c).value)
  }

  ghost predicate Sound(c: Conversation, maxAttempts: nat) {
    && Increasing(c.rows)
    && (exists n: nat :: SettledAt(c, n))
    && PatientLog(c.log, maxAttempts)
    && HonestCount(c)
    && c.facts == CommittedFacts(c.log)
  }

  // c has moved on to d: nothing is taken back.
  ghost predicate MovedOn(c: Conversation, d: Conversation) {
    && c.rows <= d.rows
    && c.log <= d.log
    && LastHandled(c) <= LastHandled(d)
  }

  // ---- what the invariant means ---------------------------------------------------------------------

  lemma {:induction false} FirstsIncrease(k: seq<Row>)
    requires Increasing(k)
    ensures forall i, j :: 0 <= i < j < |Blocks(k)| ==> Firsts(Blocks(k))[i] < Firsts(Blocks(k))[j]
    ensures k != [] ==> forall i :: 0 <= i < |Blocks(k)| ==> k[0].seqNum <= Firsts(Blocks(k))[i]
    decreases |k|
  {
    hide FrontBlock;
    if k != [] {
      if k[0].author != Martin {
        FirstsIncrease(k[1..]);
      } else if FrontBlock(k) > 0 {
        FirstsIncrease(k[FrontBlock(k)..]);
      }
    }
  }

  lemma PrefixIncreasing(pre: seq<Row>, post: seq<Row>)
    requires Increasing(pre + post)
    ensures Increasing(pre) && Increasing(post)
  {
    assert forall i :: 0 <= i < |pre| ==> pre[i] == (pre + post)[i];
    assert forall i :: 0 <= i < |post| ==> post[i] == (pre + post)[|pre| + i];
  }

  predicate AllSpeak(k: seq<Row>) {
    forall i :: 0 <= i < |k| ==> Speaks(k[i])
  }

  lemma SpeakParts(pre: seq<Row>, post: seq<Row>)
    requires AllSpeak(pre + post)
    ensures AllSpeak(pre) && AllSpeak(post)
  {
    assert forall i :: 0 <= i < |pre| ==> pre[i] == (pre + post)[i];
    assert forall i :: 0 <= i < |post| ==> post[i] == (pre + post)[|pre| + i];
  }

  ghost predicate HasNumber(k: seq<Row>, f: int) {
    exists r :: r in k && r.seqNum == f
  }

  lemma {:induction false} FirstsAreStarts(k: seq<Row>)
    ensures forall f :: f in Firsts(Blocks(k)) ==> HasNumber(k, f)
    decreases |k|
  {
    if k != [] {
      if k[0].author != Martin {
        FirstsAreStarts(k[1..]);
        NumbersOfTail(k, 1);
      } else if FrontBlock(k) > 0 {
        var n := FrontBlock(k);
        FirstsAreStarts(k[n..]);
        NumbersOfTail(k, n);
        assert k[0] in k;
      }
    }
  }

  lemma NumbersOfTail(k: seq<Row>, n: nat)
    requires n <= |k|
    ensures forall f :: HasNumber(k[n..], f) ==> HasNumber(k, f)
  {
    forall f | HasNumber(k[n..], f)
      ensures HasNumber(k, f)
    {
      var r :| r in k[n..] && r.seqNum == f;
      assert r in k;
    }
  }

  // Exactly once: no two entries of the log settle the same exchange, be it by two commits, by two
  // refusals or by one of each.
  lemma SettledOnce(c: Conversation, maxAttempts: nat, i: nat, j: nat)
    requires Sound(c, maxAttempts)
    requires i < j < |c.log| && !c.log[i].Failed? && !c.log[j].Failed?
    ensures c.log[i].firstSeq < c.log[j].firstSeq
  {
    var pre, post := Mark(c, maxAttempts);
    KeptParts(c.rows, pre, post);
    FirstsIncrease(pre);
    var a := HandledAt(c.log, i);
    var b := HandledAt(c.log, j);
    HandledOrder(c.log, i, j, a, b);
  }

  function HandledAt(log: seq<Event>, i: nat): nat
    requires i < |log|
  {
    |Handled(log[..i])|
  }

  lemma {:induction false} HandledSplit(log: seq<Event>, i: nat)
    requires i <= |log|
    ensures Handled(log[..i]) <= Handled(log)
    decreases |log|
  {
    if i < |log| {
      var rest := log[..|log| - 1];
      HandledSplit(rest, i);
      assert rest[..i] == log[..i];
    } else {
      assert log[..i] == log;
    }
  }

  lemma HandledNext(log: seq<Event>, i: nat)
    requires i < |log| && !log[i].Failed?
    ensures Handled(log[..i + 1]) == Handled(log[..i]) + [log[i].firstSeq]
  {
    assert log[..i + 1][..i] == log[..i];
  }

  lemma HandledOrder(log: seq<Event>, i: nat, j: nat, a: nat, b: nat)
    requires i < j < |log| && !log[i].Failed? && !log[j].Failed?
    requires a == HandledAt(log, i) && b == HandledAt(log, j)
    ensures a < b < |Handled(log)|
    ensures Handled(log)[a] == log[i].firstSeq && Handled(log)[b] == log[j].firstSeq
  {
    hide Handled;
    HandledNext(log, i);
    HandledNext(log, j);
    HandledSplit(log, i + 1);
    HandledSplit(log, j + 1);
    HandledSplit(log[..j], i + 1);
    assert log[..j][..i + 1] == log[..i + 1];
  }

  // Where the mark stands: after the kept rows pre, before the kept rows post.
  lemma Mark(c: Conversation, maxAttempts: nat) returns (pre: seq<Row>, post: seq<Row>)
    requires Sound(c, maxAttempts)
    ensures Kept(c.rows) == pre + post && Increasing(c.rows)
    ensures pre == [] ==> LastHandled(c) == -1
    ensures pre != [] ==> pre[|pre| - 1].author == Claude && pre[|pre| - 1].seqNum == LastHandled(c)
    ensures Handled(c.log) == Firsts(Blocks(pre))
  {
    hide SettledAt, PatientLog, HonestCount, CommittedFacts, Kept, KeptFrom, Blocks, Firsts, Handled;
    var n: nat :| SettledAt(c, n);
    pre, post := MarkAt(c, n);
  }

  lemma MarkAt(c: Conversation, n: nat) returns (pre: seq<Row>, post: seq<Row>)
    requires SettledAt(c, n)
    ensures Kept(c.rows) == pre + post
    ensures pre == [] ==> LastHandled(c) == -1
    ensures pre != [] ==> pre[|pre| - 1].author == Claude && pre[|pre| - 1].seqNum == LastHandled(c)
    ensures Handled(c.log) == Firsts(Blocks(pre))
  {
    hide KeptFrom, Blocks, Firsts, Handled;
    pre, post := Kept(c.rows)[..n], Kept(c.rows)[n..];
  }

  lemma KeptParts(rows: seq<Row>, pre: seq<Row>, post: seq<Row>)
    requires Increasing(rows) && Kept(rows) == pre + post
    ensures Increasing(pre + post) && Increasing(pre) && Increasing(post)
    ensures AllSpeak(pre + post) && AllSpeak(pre) && AllSpeak(post)
  {
    hide KeptFrom;
    KeptSpeaks(None, rows);
    KeptIncreasing(None, rows);
    PrefixIncreasing(pre, post);
    SpeakParts(pre, post);
  }

  // Progress never passes an unhandled exchange, and never claims one it has not reached: the
  // exchanges done with are exactly those that begin at or before the mark.
  lemma HandledIffPassed(c: Conversation, maxAttempts: nat, e: nat)
    requires Sound(c, maxAttempts)
    requires e < |Split(c.rows, MAX_CHARS)|
    ensures var first := Split(c.rows, MAX_CHARS)[e].firstSeq;
      first in Handled(c.log) <==> first <= LastHandled(c)
  {
    hide Blocks, Firsts, KeptFrom, Handled, Failures, Sound, HasNumber;
    var pre, post := Mark(c, maxAttempts);
    var k := pre + post;
    KeptParts(c.rows, pre, post);
    CutAnywhere(pre, post);
    FirstsElement(Blocks(k), e);
    FirstsAreStarts(pre);
    FirstsAreStarts(post);
    NumbersApart(k, pre, post, LastHandled(c));
    var first := Firsts(Blocks(k))[e];
    assert first in Firsts(Blocks(k));
    assert first in Firsts(Blocks(pre)) || first in Firsts(Blocks(post));
  }

  // Kept rows up to the mark have numbers up to it, those past it greater ones.
  lemma NumbersApart(k: seq<Row>, pre: seq<Row>, post: seq<Row>, p: int)
    requires Increasing(k) && k == pre + post
    requires pre == [] ==> p == -1
    requires pre != [] ==> pre[|pre| - 1].seqNum == p
    ensures forall f :: HasNumber(pre, f) ==> f <= p
    ensures forall f :: HasNumber(post, f) ==> f > p
  {
    assert forall i :: 0 <= i < |pre| ==> pre[i] == k[i];
    assert forall i :: 0 <= i < |post| ==> post[i] == k[|pre| + i];
  }

  lemma {:induction false} FirstsElement(xs: seq<Block>, e: nat)
    requires e < |xs|
    ensures Firsts(xs)[e] == FirstSeq(xs[e])
    decreases |xs|
  {
    if e > 0 {
      FirstsElement(xs[1..], e - 1);
    }
  }

  // CutKept, allowing a cut before everything.
  lemma CutAnywhere(pre: seq<Row>, post: seq<Row>)
    requires AllSpeak(pre + post)
    requires pre != [] ==> pre[|pre| - 1].author == Claude
    ensures CutsCleanly(pre + post, pre, post)
  {
    var k := pre + post;
    if pre == [] {
      assert k == post;
      assert Blocks(pre) == [];
    } else {
      hide Blocks, Firsts;
      CutKept(k, |pre| - 1);
      assert k[..|pre|] == pre && k[|pre|..] == post;
    }
  }

  // ---- each statement keeps it --------------------------------------------------------------------

  lemma NewRowsSound(c: Conversation, more: seq<Row>, maxAttempts: nat)
    requires Sound(c, maxAttempts) && Increasing(c.rows + more)
    ensures Sound(NewRows(c, more), maxAttempts) && MovedOn(c, NewRows(c, more))
  {
    hide Blocks, Firsts, KeptFrom, Handled, Failures;
    var n: nat :| SettledAt(c, n);
    KeptConcat(None, c.rows, more);
    assert Kept(c.rows + more)[..n] == Kept(c.rows)[..n];
    assert SettledAt(NewRows(c, more), n);
  }

  lemma RecordFailureSound(c: Conversation, firstSeq: int, maxAttempts: nat)
    requires Sound(c, maxAttempts)
    ensures var count := CountAfter(firstSeq, FailSeq(c), FailCount(c));
      var d := RecordFailure(c, LastHandled(c), firstSeq, count);
      Sound(d, maxAttempts) && MovedOn(c, d) && count <= Failures(d.log, firstSeq)
  {
    hide Blocks, Firsts, KeptFrom, Handled, Failures, CommittedFacts;
    var d := RecordFailure(c, LastHandled(c), firstSeq, CountAfter(firstSeq, FailSeq(c), FailCount(c)));
    LogGrows(c.log, Failed(firstSeq));
    var n: nat :| SettledAt(c, n);
    assert SettledAt(d, n);
    assert forall i :: 0 <= i < |c.log| ==> d.log[..i] == c.log[..i];
  }

  // The rows read include the one the mark stands after.
  ghost predicate MarkIn(read: seq<Row>, p: int) {
    p == -1 || exists i :: 0 <= i < |read| && read[i].seqNum == p
  }

  // What a run may do next: x is the first exchange past the mark, in rows read at or before now.
  ghost predicate NextExchange(c: Conversation, read: seq<Row>, x: Exchange) {
    && read <= c.rows
    && MarkIn(read, LastHandled(c))
    && var xs := Split(After(read, LastHandled(c)), MAX_CHARS);
      xs != [] && xs[0] == x
  }

  // The progress mark moves to row q, and x joins the exchanges done with.
  ghost predicate Settles(c: Conversation, x: Exchange, d: Conversation) {
    && d.rows == c.rows
    && LastHandled(d) == (if c.progress.None? then x.lastSeq else Max(LastHandled(c), x.lastSeq))
    && Handled(d.log) == Handled(c.log) + [x.firstSeq]
  }

  // Settling x moves the mark to x's last row, and appends x to the exchanges done with.
  lemma NextSettles(c: Conversation, read: seq<Row>, x: Exchange, d: Conversation, maxAttempts: nat)
    requires Sound(c, maxAttempts) && NextExchange(c, read, x) && Settles(c, x, d)
    ensures (exists n: nat :: SettledAt(d, n)) && LastHandled(d) == x.lastSeq && LastHandled(c) < x.lastSeq
    ensures MarkIn(read, x.lastSeq)
    ensures Split(After(read, x.lastSeq), MAX_CHARS) == Split(After(read, LastHandled(c)), MAX_CHARS)[1..]
  {
    hide Blocks, Firsts, KeptFrom, Handled, Sound, AsExchanges, After, CutsCleanly, AllSpeak, Increasing;
    var pre, post := Mark(c, maxAttempts);
    KeptParts(c.rows, pre, post);
    var readPost, later := ReadIsPrefix(c.rows, read, pre, post, LastHandled(c));
    SpeakParts(readPost, later);
    var e := FirstEnds(pre, readPost);
    var front, back := readPost[..e + 1], readPost[e + 1..];
    assert front + back == readPost;
    assert pre + post == pre + front + (back + later);
    KeptParts(c.rows, pre + front, back + later);
    FirstsOfFront(pre, front);
    MarkMoves(c, x, d, pre, front, back + later);
    CutPointIn(read, pre + front, back);
    SplitFromBlocks(After(read, LastHandled(c)), After(read, x.lastSeq));
  }

  lemma FirstEnds(pre: seq<Row>, post: seq<Row>) returns (e: nat)
    requires AllSpeak(post)
    requires Blocks(post) != []
    ensures e < |post| && post[e].author == Claude && post[e].seqNum == LastSeq(Blocks(post)[0])
    ensures |Blocks(post[..e + 1])| == 1 && FirstSeq(Blocks(post[..e + 1])[0]) == FirstSeq(Blocks(post)[0])
    ensures Blocks(post[e + 1..]) == Blocks(post)[1..]
  {
    hide Blocks, Firsts;
    e := ExchangeEnd(post, 0);
    CutKept(post, e);
    FirstsElement(Blocks(post[..e + 1]), 0);
    FirstsElement(Blocks(post), 0);
  }

  lemma FirstsOfFront(pre: seq<Row>, front: seq<Row>)
    requires AllSpeak(pre + front)
    requires pre != [] ==> pre[|pre| - 1].author == Claude
    requires |Blocks(front)| == 1
    ensures Firsts(Blocks(pre + front)) == Firsts(Blocks(pre)) + [FirstSeq(Blocks(front)[0])]
  {
    hide Blocks;
    CutAnywhere(pre, front);
  }

  lemma MarkMoves(c: Conversation, x: Exchange, d: Conversation, pre: seq<Row>, front: seq<Row>, rest: seq<Row>)
    requires Settles(c, x, d)
    requires Kept(c.rows) == pre + front + rest && Increasing(Kept(c.rows))
    requires pre == [] ==> LastHandled(c) == -1
    requires pre != [] ==> pre[|pre| - 1].seqNum == LastHandled(c)
    requires front != [] && front[|front| - 1].author == Claude && front[|front| - 1].seqNum == x.lastSeq
    requires Handled(c.log) + [x.firstSeq] == Firsts(Blocks(pre + front))
    ensures exists n: nat :: SettledAt(d, n)
    ensures LastHandled(d) == x.lastSeq && LastHandled(c) < x.lastSeq
  {
    hide Blocks, Firsts, KeptFrom, Handled;
    var k := Kept(c.rows);
    var n := |pre| + |front|;
    assert k[n - 1] == front[|front| - 1] && k[..n] == pre + front;
    assert pre != [] ==> k[|pre| - 1] == pre[|pre| - 1];
    assert SettledAt(d, n);
  }

  lemma CutPointIn(read: seq<Row>, pre: seq<Row>, post: seq<Row>)
    requires Increasing(read) && Kept(read) == pre + post
    requires pre != [] && pre[|pre| - 1].author == Claude
    ensures SplitBlocks(After(read, pre[|pre| - 1].seqNum)) == Blocks(post)
    ensures MarkIn(read, pre[|pre| - 1].seqNum)
  {
    hide Blocks, KeptFrom, After;
    var k := Kept(read);
    assert k[|pre| - 1] == pre[|pre| - 1] && k[|pre|..] == post;
    KeptSpeaks(None, read);
    assert pre[|pre| - 1] in read;
    CutPoint(read, |pre| - 1);
  }

  lemma SplitFromBlocks(a: seq<Row>, b: seq<Row>)
    requires SplitBlocks(a) != [] && SplitBlocks(b) == SplitBlocks(a)[1..]
    ensures Split(b, MAX_CHARS) == Split(a, MAX_CHARS)[1..]
  {
    hide SplitBlocks, AsExchanges;
  }

  lemma AfterNothing(rows: seq<Row>)
    requires Increasing(rows)
    ensures After(rows, -1) == rows
  {
    AfterIsSuffix(rows, -1, 0);
  }

  // What was read earlier is a prefix, so its kept rows are the first of today's.
  lemma ReadIsPrefix(rows: seq<Row>, read: seq<Row>, pre: seq<Row>, post: seq<Row>, p: int)
    returns (readPost: seq<Row>, later: seq<Row>)
    requires Increasing(rows) && read <= rows && Kept(rows) == pre + post
    requires pre == [] ==> p == -1
    requires pre != [] ==> pre[|pre| - 1].author == Claude && pre[|pre| - 1].seqNum == p
    requires MarkIn(read, p)
    ensures Kept(read) == pre + readPost && post == readPost + later && Increasing(read)
    ensures SplitBlocks(After(read, p)) == Blocks(readPost)
  {
    hide Blocks, KeptFrom, After;
    var more := rows[|read|..];
    assert rows == read + more;
    PrefixIncreasing(read, more);
    KeptConcat(None, read, more);
    var k0 := Kept(read);
    later := KeptFrom(LastOr(k0, None), more);
    KeptSpeaks(LastOr(k0, None), more);
    MarkWithin(read, more, k0, later, pre, post, p);
    readPost := k0[|pre|..];
    PartsAgree(pre, post, k0, later);
    if pre == [] {
      AfterNothing(read);
      assert readPost == k0;
    } else {
      CutPointIn(read, pre, readPost);
    }
  }

  lemma PartsAgree(pre: seq<Row>, post: seq<Row>, k0: seq<Row>, later: seq<Row>)
    requires pre + post == k0 + later && |pre| <= |k0|
    ensures k0 == pre + k0[|pre|..] && post == k0[|pre|..] + later
  {
    assert pre == (pre + post)[..|pre|] && post == (pre + post)[|pre|..];
    assert k0[..|pre|] == (k0 + later)[..|pre|];
  }

  lemma MarkWithin(read: seq<Row>, more: seq<Row>, k0: seq<Row>, later: seq<Row>, pre: seq<Row>, post: seq<Row>, p: int)
    requires Increasing(read + more) && k0 + later == pre + post
    requires forall i :: 0 <= i < |later| ==> later[i] in more
    requires pre != [] ==> pre[|pre| - 1].seqNum == p
    requires MarkIn(read, p)
    ensures |pre| <= |k0|
  {
    if |pre| > |k0| {
      var r := later[|pre| - 1 - |k0|];
      assert r == (k0 + later)[|pre| - 1] == (pre + post)[|pre| - 1] == pre[|pre| - 1];
      LaterNumbers(read, more, r, p);
    }
  }

  lemma LaterNumbers(read: seq<Row>, more: seq<Row>, r: Row, p: int)
    requires Increasing(read + more) && MarkIn(read, p) && r in more
    ensures p < r.seqNum
  {
    var j :| 0 <= j < |more| && more[j] == r;
    assert (read + more)[|read| + j] == r;
    assert forall i :: 0 <= i < |read| ==> (read + more)[i] == read[i];
  }

  lemma CommitSound(c: Conversation, read: seq<Row>, x: Exchange, texts: seq<string>, maxAttempts: nat)
    requires Sound(c, maxAttempts) && NextExchange(c, read, x)
    ensures Sound(CommitExchange(c, x, texts), maxAttempts) && MovedOn(c, CommitExchange(c, x, texts))
    ensures LastHandled(CommitExchange(c, x, texts)) == x.lastSeq && MarkIn(read, x.lastSeq)
    ensures Split(After(read, x.lastSeq), MAX_CHARS) == Split(After(read, LastHandled(c)), MAX_CHARS)[1..]
    ensures Stores(c.facts, CommitExchange(c, x, texts).facts, x, texts)
  {
    hide SettledAt, NextExchange, Handled, Failures, CommittedFacts, Split, After, FactsOf, MarkIn, Increasing, Stores;
    var d := CommitExchange(c, x, texts);
    CommitStores(c, x, texts);
    LogGrows(c.log, Committed(x.firstSeq, FactsOf(texts, x)));
    NextSettles(c, read, x, d, maxAttempts);
    assert forall i :: 0 <= i < |c.log| ==> d.log[..i] == c.log[..i];
  }

  // The facts there were, and then one for each text, in order, with the numbers of the exchange they are from.
  ghost predicate Stores(was: seq<Fact>, now: seq<Fact>, x: Exchange, texts: seq<string>) {
    && |now| == |was| + |texts| && now[..|was|] == was
    && forall i :: 0 <= i < |texts| ==>
         now[|was| + i].text == texts[i] && now[|was| + i].firstSeq == x.firstSeq && now[|was| + i].lastSeq == x.lastSeq
  }

  lemma CommitStores(c: Conversation, x: Exchange, texts: seq<string>)
    ensures Stores(c.facts, CommitExchange(c, x, texts).facts, x, texts)
    ensures var e := CommitExchange(c, x, texts).log[|c.log|];
      e.Committed? && e.firstSeq == x.firstSeq && Stores([], e.facts, x, texts)
  {
  }

  // No fact is taken back.
  lemma {:induction false} FactsStay(log: seq<Event>, more: seq<Event>)
    ensures CommittedFacts(log) <= CommittedFacts(log + more)
    decreases |more|
  {
    if more == [] {
      assert log + more == log;
    } else {
      assert (log + more)[..|log + more| - 1] == log + more[..|more| - 1];
      FactsStay(log, more[..|more| - 1]);
    }
  }

  lemma FactsOnlyGrow(c: Conversation, d: Conversation, maxAttempts: nat)
    requires Sound(c, maxAttempts) && Sound(d, maxAttempts) && MovedOn(c, d)
    ensures c.facts <= d.facts
  {
    hide SettledAt, CommittedFacts;
    FactsStay(c.log, d.log[|c.log|..]);
    assert c.log + d.log[|c.log|..] == d.log;
  }

  // What each statement leaves in facts_progress: the furthest exchange done with and no failure; one more given up;
  // the exchange that failed last and how often in a row.
  lemma ProgressMeans(c: Conversation, x: Exchange, texts: seq<string>, firstSeq: int, count: nat)
    ensures forall d :: d == CommitExchange(c, x, texts) || d == GiveUp(c, x) ==>
      d.progress.Some? && d.progress.value.failSeq == None && d.progress.value.failCount == 0
      && (c.progress.None? ==> d.progress.value.lastSeq == x.lastSeq)
      && (c.progress.Some? && c.progress.value.lastSeq < x.lastSeq ==> d.progress.value.lastSeq == x.lastSeq)
      && (c.progress.Some? && c.progress.value.lastSeq >= x.lastSeq ==> d.progress.value.lastSeq == c.progress.value.lastSeq)
    ensures var was := if c.progress.Some? then c.progress.value.gaveUp else 0;
      CommitExchange(c, x, texts).progress.value.gaveUp == was && GiveUp(c, x).progress.value.gaveUp == was + 1
    ensures GiveUp(c, x).facts == c.facts && RecordFailure(c, LastHandled(c), firstSeq, count).facts == c.facts
    ensures var d := RecordFailure(c, LastHandled(c), firstSeq, count).progress;
      && d.Some? && d.value.failSeq == Some(firstSeq) && d.value.failCount == count
      && d.value.lastSeq == (if c.progress.Some? then c.progress.value.lastSeq else -1)
      && d.value.gaveUp == (if c.progress.Some? then c.progress.value.gaveUp else 0)
  {
  }

  // A failure of the exchange that failed last is one more; of another, the first.
  lemma CountMeans(firstSeq: int, failSeq: Option<int>, failCount: nat)
    ensures failSeq == Some(firstSeq) ==> CountAfter(firstSeq, failSeq, failCount) == failCount + 1
    ensures failSeq != Some(firstSeq) ==> CountAfter(firstSeq, failSeq, failCount) == 1
  {
  }

  lemma GiveUpSound(c: Conversation, read: seq<Row>, x: Exchange, maxAttempts: nat)
    requires Sound(c, maxAttempts) && NextExchange(c, read, x)
    requires maxAttempts <= Failures(c.log, x.firstSeq)
    ensures Sound(GiveUp(c, x), maxAttempts) && MovedOn(c, GiveUp(c, x))
    ensures LastHandled(GiveUp(c, x)) == x.lastSeq && MarkIn(read, x.lastSeq)
    ensures Split(After(read, x.lastSeq), MAX_CHARS) == Split(After(read, LastHandled(c)), MAX_CHARS)[1..]
  {
    hide SettledAt, NextExchange, Handled, Failures, CommittedFacts, Split, After, MarkIn, Increasing;
    var d := GiveUp(c, x);
    LogGrows(c.log, GaveUp(x.firstSeq));
    NextSettles(c, read, x, d, maxAttempts);
    assert forall i :: 0 <= i < |c.log| ==> d.log[..i] == c.log[..i];
    assert d.log[..|c.log|] == c.log;
  }

  // A conversation nobody has looked at yet.
  function Fresh(rows: seq<Row>): Conversation {
    Conversation(rows, None, [], [])
  }

  lemma FreshSound(rows: seq<Row>, maxAttempts: nat)
    requires Increasing(rows)
    ensures Sound(Fresh(rows), maxAttempts)
  {
    assert Kept(rows)[..0] == [];
    assert SettledAt(Fresh(rows), 0);
  }

  // In a sound state the mark's row is among the rows a run reads now.
  lemma MarkIsRead(c: Conversation, maxAttempts: nat)
    requires Sound(c, maxAttempts)
    ensures MarkIn(c.rows, LastHandled(c))
  {
    hide KeptFrom, Blocks, Firsts, Handled;
    var pre, post := Mark(c, maxAttempts);
    KeptSpeaks(None, c.rows);
    if pre != [] {
      assert (pre + post)[|pre| - 1] == pre[|pre| - 1] && pre[|pre| - 1] in c.rows;
    }
  }
}
