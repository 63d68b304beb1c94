// Messages sent mid-turn share a number with the one before (hook/hook/record.py:382-403), and a run resumes
// with strictly greater numbers (facts/service.py:297-307). What then becomes of the exchanges past the mark:
// exactly when they are all found again, and an example of one that is not.
module FactsShared {
  import opened FactsSplit
  import opened FactsService

  predicate Ordered(rows: seq<Row>) {
    forall i, j :: 0 <= i < j < |rows| ==> rows[i].seqNum <= rows[j].seqNum
  }

  // The next exchange does not begin on the number the last one ended on.
  predicate Apart(xs: seq<Exchange>, e: nat)
    requires e < |xs|
  {
    e + 1 < |xs| ==> xs[e].lastSeq < xs[e + 1].firstSeq
  }

  // Where the numbers get past p.
  lemma {:induction false} FirstPast(rows: seq<Row>, p: int) returns (n: nat)
    requires Ordered(rows)
    ensures n <= |rows| && After(rows, p) == rows[n..]
    ensures forall i :: 0 <= i < n ==> rows[i].seqNum <= p
    ensures forall i :: n <= i < |rows| ==> rows[i].seqNum > p
  {
    hide After;
    n := 0;
    while n < |rows| && rows[n].seqNum <= p
      invariant n <= |rows| && forall i :: 0 <= i < n ==> rows[i].seqNum <= p
    {
      n := n + 1;
    }
    AfterIsSuffix(rows, p, n);
  }

  // The kept rows up to number p, and those past it.
  lemma KeptApart(rows: seq<Row>, p: int) returns (n: nat, b: seq<Row>)
    requires Ordered(rows)
    ensures After(rows, p) == b && n <= |Kept(rows)|
    ensures forall r :: r in b ==> r.seqNum > p
    ensures forall i :: 0 <= i < n ==> Kept(rows)[i].seqNum <= p
    ensures forall i :: n <= i < |Kept(rows)| ==> Kept(rows)[i].seqNum > p
    ensures Kept(rows)[n..] == KeptFrom(if n == 0 then None else Some(Kept(rows)[n - 1]), b)
  {
    hide KeptFrom, After;
    var at := FirstPast(rows, p);
    var a := rows[..at];
    b := rows[at..];
    assert rows == a + b;
    KeptConcat(None, a, b);
    var ka := KeptFrom(None, a);
    var kb := KeptFrom(LastOr(ka, None), b);
    KeptSpeaks(None, a);
    KeptSpeaks(LastOr(ka, None), b);
    n := |ka|;
    assert Kept(rows) == ka + kb && Kept(rows)[n..] == kb;
    assert forall i :: n <= i < |Kept(rows)| ==> Kept(rows)[i] == kb[i - n];
  }

  // Forgetting what Martin said last lets at most his own repetition back in.
  lemma {:induction false} ForgettingMartin(prev: Row, rows: seq<Row>)
    requires prev.author == Martin && AllBy(KeptFrom(Some(prev), rows), Martin)
    ensures AllBy(KeptFrom(None, rows), Martin)
    decreases |rows|
  {
    if rows != [] {
      if !Speaks(rows[0]) {
        ForgettingMartin(prev, rows[1..]);
      } else if Repeats(Some(prev), rows[0]) {
        SameRepeats(prev, rows[0], rows[1..]);
      }
    }
  }

  // Before the first exchange there is only Claude; and if there is none at all, nobody answers Martin.
  lemma {:induction false} FirstExchange(k: seq<Row>) returns (j: nat)
    requires forall i :: 0 <= i < |k| ==> Speaks(k[i])
    ensures j <= |k| && forall i :: 0 <= i < j ==> k[i].author == Claude
    ensures Blocks(k) != [] ==> j < |k| && FirstSeq(Blocks(k)[0]) == k[j].seqNum
    ensures Blocks(k) == [] ==> AllBy(k[j..], Martin)
    decreases |k|
  {
    j := 0;
    if k != [] && k[0].author != Martin {
      j := FirstExchange(k[1..]);
      j := j + 1;
      assert k[j..] == k[1..][j - 1..];
    } else if k != [] && Blocks(k) == [] {
      NoAnswer(k);
    }
  }

  lemma NoAnswer(k: seq<Row>)
    requires k != [] && k[0].author == Martin && Blocks(k) == [] && forall i :: 0 <= i < |k| ==> Speaks(k[i])
    ensures AllBy(k, Martin)
  {
    hide Blocks;
    forall i | 0 <= i < |k|
      ensures k[i].author == Martin
    {
      if k[i].author != Martin {
        Answered(k);
      }
    }
  }

  lemma Answered(k: seq<Row>)
    requires k != [] && k[0].author == Martin && forall i :: 0 <= i < |k| ==> Speaks(k[i])
    requires !AllBy(k, Martin)
    ensures Blocks(k) != []
  {
    var m := RunOf(k, Martin);
    assert k[m..][0] == k[m];
  }

  lemma TailSpeaks(rows: seq<Row>, q: nat)
    requires q < |Kept(rows)|
    ensures var t := Kept(rows)[q + 1..]; forall i :: 0 <= i < |t| ==> Speaks(t[i])
  {
    KeptSpeaks(None, rows);
  }

  // If the kept rows behind row q that share its number are all Claude's, nothing is lost.
  lemma OnlyClaudeShares(k: seq<Row>, q: nat, n: nat, b: seq<Row>)
    requires q < n <= |k| && k[q].author == Claude && (forall i :: q < i < n ==> k[i].author == Claude)
    requires k[n..] == KeptFrom(Some(k[n - 1]), b)
    ensures Blocks(KeptFrom(None, b)) == Blocks(k[q + 1..])
  {
    hide Blocks, KeptFrom;
    assert k[q + 1..] == k[q + 1..n] + k[n..];
    assert n - 1 > q ==> k[q + 1..n][n - 1 - (q + 1)] == k[n - 1];
    ClaudeAloneIsNothing(k[q + 1..n], k[n..]);
    ForgettingClaude(k[n - 1], b);
  }

  // If nobody answers what comes behind row q, nobody answers what is read of it.
  lemma NobodyAnswers(k: seq<Row>, q: nat, n: nat, b: seq<Row>, j: nat)
    requires q < n <= |k| && k[n..] == KeptFrom(Some(k[n - 1]), b)
    requires q + 1 + j < n && AllBy(k[q + 1..][j..], Martin)
    ensures Blocks(KeptFrom(None, b)) == []
  {
    hide Blocks, KeptFrom;
    var m := k[q + 1..][j..];
    assert forall i :: q + 1 + j <= i < |k| ==> k[i] == m[i - (q + 1 + j)];
    assert forall i :: 0 <= i < |k[n..]| ==> k[n..][i] == k[n + i];
    ForgettingMartin(k[n - 1], b);
    UnansweredIsNothing(KeptFrom(None, b));
  }

  lemma FoundIfApart(rows: seq<Row>, q: nat, p: int)
    requires Ordered(rows) && q < |Kept(rows)| && Kept(rows)[q].author == Claude && Kept(rows)[q].seqNum == p
    requires var later := Blocks(Kept(rows)[q + 1..]); later != [] ==> FirstSeq(later[0]) > p
    ensures SplitBlocks(After(rows, p)) == Blocks(Kept(rows)[q + 1..])
  {
    hide Blocks, KeptFrom, After;
    var k := Kept(rows);
    TailSpeaks(rows, q);
    var n, b := KeptApart(rows, p);
    assert q < n;
    var j := FirstExchange(k[q + 1..]);
    assert forall i :: q < i < |k| ==> k[i] == k[q + 1..][i - (q + 1)];
    assert j < |k[q + 1..]| ==> k[q + 1..][j] == k[q + 1 + j];
    if q + 1 + j >= n {
      OnlyClaudeShares(k, q, n, b);
    } else if Blocks(k[q + 1..]) == [] {
      NobodyAnswers(k, q, n, b, j);
    } else {
      assert false;
    }
  }

  lemma LostIfShared(rows: seq<Row>, p: int)
    requires Ordered(rows)
    ensures forall i :: 0 <= i < |SplitBlocks(After(rows, p))| ==> FirstSeq(SplitBlocks(After(rows, p))[i]) > p
  {
    hide Blocks, KeptFrom, After;
    var n, b := KeptApart(rows, p);
    var k := KeptFrom(None, b);
    KeptSpeaks(None, b);
    FirstsAreStarts(k);
    forall i | 0 <= i < |Blocks(k)|
      ensures FirstSeq(Blocks(k)[i]) > p
    {
      FirstsElement(Blocks(k), i);
      assert Firsts(Blocks(k))[i] in Firsts(Blocks(k));
    }
  }

  // Whatever numbers are shared: a run that resumes after exchange e finds exactly the exchanges behind it if
  // and only if the next of them does not begin on the number e ended on.
  lemma ResumesExactlyWhenApart(rows: seq<Row>, e: nat, maxChars: nat)
    requires Ordered(rows) && e < |Split(rows, maxChars)|
    ensures var xs := Split(rows, maxChars);
      Split(After(rows, xs[e].lastSeq), maxChars) == xs[e + 1..] <==> Apart(xs, e)
  {
    hide Blocks, KeptFrom, After;
    var k, xs := Kept(rows), Split(rows, maxChars);
    var p := xs[e].lastSeq;
    KeptSpeaks(None, rows);
    var q := ExchangeEnd(k, e);
    CutKept(k, q);
    assert Blocks(k[q + 1..]) == Blocks(k)[e + 1..];
    if Apart(xs, e) {
      FoundIfApart(rows, q, p);
      SameExchanges(rows, After(rows, p), e + 1, maxChars);
    } else {
      LostIfShared(rows, p);
      assert xs[e + 1..][0] == xs[e + 1];
    }
  }

  lemma SameExchanges(rows: seq<Row>, later: seq<Row>, e: nat, maxChars: nat)
    requires e <= |SplitBlocks(rows)| && SplitBlocks(later) == SplitBlocks(rows)[e..]
    ensures Split(later, maxChars) == Split(rows, maxChars)[e..]
  {
    hide Blocks, KeptFrom;
  }

  // ---- an exchange that is not found again ---------------------------------------------------------------

  const QUESTION := Row(Martin, "q", 0, 0)
  const ANSWER := Row(Claude, "a", 1, 1)
  const ALSO := Row(Martin, "also", 2, 1)
  const REPLY := Row(Claude, "b", 3, 2)
  const TALK := [QUESTION, ANSWER, ALSO, REPLY]

  lemma TalkKept()
    ensures Kept(TALK) == TALK && Kept([REPLY]) == [REPLY]
  {
    assert TALK[1..] == [ANSWER, ALSO, REPLY] && [ANSWER, ALSO, REPLY][1..] == [ALSO, REPLY] && [ALSO, REPLY][1..] == [REPLY];
    assert [REPLY][1..] == [];
    assert KeptFrom(Some(ALSO), [REPLY]) == [REPLY];
    assert KeptFrom(Some(ANSWER), [ALSO, REPLY]) == [ALSO, REPLY];
    assert KeptFrom(Some(QUESTION), [ANSWER, ALSO, REPLY]) == [ANSWER, ALSO, REPLY];
  }

  lemma TalkBlocks()
    ensures Blocks(TALK) == [Block([QUESTION, ANSWER], true), Block([ALSO, REPLY], false)] && Blocks([REPLY]) == []
  {
    hide Blocks;
    EmptyHasNone();
    BlockThenMartin([QUESTION], [ANSWER], [ALSO, REPLY]);
    BlockThenMartin([ALSO], [REPLY], []);
    assert [QUESTION] + [ANSWER] + [ALSO, REPLY] == TALK && [ALSO] + [REPLY] + [] == [ALSO, REPLY];
    assert [QUESTION] + [ANSWER] == [QUESTION, ANSWER] && [ALSO] + [REPLY] == [ALSO, REPLY];
    ClaudeAloneIsNothing([REPLY], []);
    assert [REPLY] + [] == [REPLY];
  }

  // A question, its answer, a second question sent while that was being written, and the answer to it. Once
  // the first exchange is done with, the second is never found.
  lemma MidTurnQuestionLost()
    ensures Ordered(TALK) && |Split(TALK, MAX_CHARS)| == 2
    ensures Split(After(TALK, Split(TALK, MAX_CHARS)[0].lastSeq), MAX_CHARS) == []
  {
    hide Blocks, KeptFrom, After;
    TalkKept();
    TalkBlocks();
    AfterIsSuffix(TALK, 1, 3);
    assert TALK[3..] == [REPLY];
  }
}
