// Messages stored late: the drain takes rows that have failed after those that have not
// (hook/hook/drain.py:80-103), so a message may reach Postgres after ones with greater numbers. What the facts
// service, which reads on from its mark (facts/service.py:297-307), then makes of it.
module FactsLate {
  import opened FactsSplit
  import opened FactsService
  import opened FactsShared

  // The rows numbered p or less.
  function UpTo(rows: seq<Row>, p: int): seq<Row> {
    if rows == [] then [] else if rows[0].seqNum <= p then [rows[0]] + UpTo(rows[1..], p) else UpTo(rows[1..], p)
  }

  lemma {:induction false} AfterHolds(rows: seq<Row>, p: int)
    ensures forall r :: r in After(rows, p) <==> r in rows && r.seqNum > p
    decreases |rows|
  {
    if rows != [] {
      AfterHolds(rows[1..], p);
      assert rows == [rows[0]] + rows[1..];
    }
  }

  // A stored row is never read, by a run that starts from this mark or any later one, if and only if its
  // number is not above the mark.
  lemma NeverReadIffNotAbove(rows: seq<Row>, r: Row, mark: int)
    requires r in rows
    ensures (forall p :: mark <= p ==> r !in After(rows, p)) <==> r.seqNum <= mark
  {
    hide After;
    if r.seqNum <= mark {
      forall p | mark <= p
        ensures r !in After(rows, p)
      {
        AfterHolds(rows, p);
      }
    } else {
      AfterHolds(rows, mark);
      assert mark <= mark && r in After(rows, mark);
    }
  }

  // Whatever is stored at or below the mark, no run from then on finds anything else than without it.
  lemma BelowIsUnseen(was: seq<Row>, now: seq<Row>, mark: int, p: int)
    requires After(now, mark) == After(was, mark) && mark <= p
    ensures Split(After(now, p), MAX_CHARS) == Split(After(was, p), MAX_CHARS)
  {
    hide After;
    AfterAgain(now, mark, p);
    AfterAgain(was, mark, p);
  }

  lemma {:induction false} AfterAgain(rows: seq<Row>, mark: int, p: int)
    requires mark <= p
    ensures After(rows, p) == After(After(rows, mark), p)
    decreases |rows|
  {
    if rows != [] {
      AfterAgain(rows[1..], mark, p);
      if rows[0].seqNum > mark {
        assert ([rows[0]] + After(rows[1..], mark))[1..] == After(rows[1..], mark);
      }
    }
  }

  lemma {:induction false} UpToIsPrefix(rows: seq<Row>, p: int, n: nat)
    requires n <= |rows|
    requires forall i :: 0 <= i < n ==> rows[i].seqNum <= p
    requires forall i :: n <= i < |rows| ==> rows[i].seqNum > p
    ensures UpTo(rows, p) == rows[..n]
    decreases |rows|
  {
    hide UpTo;
    UpToFirst(rows, p);
    if rows != [] {
      var rest := rows[1..];
      if n == 0 {
        assert rows[0].seqNum > p;
        UpToIsPrefix(rest, p, 0);
      } else {
        UpToIsPrefix(rest, p, n - 1);
        assert rows[..n] == [rows[0]] + rest[..n - 1];
      }
    }
  }

  lemma UpToFirst(rows: seq<Row>, p: int)
    ensures UpTo(rows, p) == if rows == [] then [] else (if rows[0].seqNum <= p then [rows[0]] else []) + UpTo(rows[1..], p)
  {
  }

  lemma IncreasingOrdered(rows: seq<Row>)
    requires Increasing(rows)
    ensures Ordered(rows)
  {
  }

  // Where the kept rows numbered p or less end: with those of the rows numbered so.
  lemma KeptUpTo(rows: seq<Row>, p: int, n: nat)
    requires Increasing(rows) && 0 < n <= |Kept(rows)| && Kept(rows)[n - 1].seqNum == p
    ensures Kept(rows)[..n] == Kept(UpTo(rows, p))
  {
    hide KeptFrom, After, UpTo;
    IncreasingOrdered(rows);
    var at := FirstPast(rows, p);
    UpToIsPrefix(rows, p, at);
    var a, b := rows[..at], rows[at..];
    assert rows == a + b;
    KeptConcat(None, a, b);
    var ka := Kept(a);
    var kb := KeptFrom(LastOr(ka, None), b);
    KeptSpeaks(None, a);
    KeptSpeaks(LastOr(ka, None), b);
    KeptIncreasing(None, rows);
    EndsThere(Kept(rows), ka, kb, n, p);
  }

  lemma EndsThere(k: seq<Row>, ka: seq<Row>, kb: seq<Row>, n: nat, p: int)
    requires k == ka + kb && Increasing(k) && 0 < n <= |k| && k[n - 1].seqNum == p
    requires forall r :: r in ka ==> r.seqNum <= p
    requires forall r :: r in kb ==> r.seqNum > p
    ensures k[..n] == ka
  {
    assert forall i :: 0 <= i < |ka| ==> k[i] == ka[i] && ka[i] in ka;
    assert forall i :: |ka| <= i < |k| ==> k[i] == kb[i - |ka|];
    if n < |k| {
      assert k[n - 1].seqNum < k[n].seqNum;
    }
  }

  // Between runs, messages may arrive in any order: as long as their numbers are above the mark, all is as if
  // they had come in order.
  lemma AnyOrderAboveSound(c: Conversation, now: seq<Row>, maxAttempts: nat)
    requires Sound(c, maxAttempts) && Increasing(now)
    requires UpTo(now, LastHandled(c)) == UpTo(c.rows, LastHandled(c))
    ensures Sound(c.(rows := now), maxAttempts)
  {
    hide KeptFrom, Blocks, Firsts, Handled, Failures, CommittedFacts, UpTo, Increasing;
    var n: nat :| SettledAt(c, n);
    var d := c.(rows := now);
    if n == 0 {
      NothingSettled(c, d);
    } else {
      KeptUpTo(c.rows, LastHandled(c), n);
      KeptStart(now, LastHandled(c));
      var a := Kept(UpTo(now, LastHandled(c)));
      assert |a| == n;
      assert Kept(now)[..n] == a == Kept(c.rows)[..n];
      assert Kept(now)[n - 1] == Kept(now)[..n][n - 1] == Kept(c.rows)[..n][n - 1];
      assert SettledAt(d, n);
    }
  }

  lemma NothingSettled(c: Conversation, d: Conversation)
    requires SettledAt(c, 0) && d.log == c.log && d.progress == c.progress
    ensures SettledAt(d, 0)
  {
    assert Kept(c.rows)[..0] == Kept(d.rows)[..0];
  }

  lemma KeptStart(rows: seq<Row>, p: int)
    requires Increasing(rows)
    ensures Kept(UpTo(rows, p)) <= Kept(rows)
  {
    hide KeptFrom, After, UpTo;
    IncreasingOrdered(rows);
    var at := FirstPast(rows, p);
    UpToIsPrefix(rows, p, at);
    assert rows == rows[..at] + rows[at..];
    KeptConcat(None, rows[..at], rows[at..]);
  }

  // ---- an exchange that comes too late -------------------------------------------------------------------------

  const EARLY_Q := Row(Martin, "q", 0, 0)
  const EARLY_A := Row(Claude, "a", 1, 1)
  const LATE_Q := Row(Martin, "more", 2, 2)
  const LATE_A := Row(Claude, "b", 3, 3)

  const LATE := [LATE_Q, LATE_A]
  const ALL := [EARLY_Q, EARLY_A, LATE_Q, LATE_A]

  lemma AllKept()
    ensures Kept(ALL) == ALL && Kept(LATE) == LATE
  {
    assert ALL[1..] == [EARLY_A, LATE_Q, LATE_A] && [EARLY_A, LATE_Q, LATE_A][1..] == LATE && LATE[1..] == [LATE_A];
    assert [LATE_A][1..] == [];
    assert KeptFrom(Some(LATE_Q), [LATE_A]) == [LATE_A];
    assert KeptFrom(Some(EARLY_A), LATE) == LATE;
    assert KeptFrom(Some(EARLY_Q), [EARLY_A, LATE_Q, LATE_A]) == [EARLY_A, LATE_Q, LATE_A];
  }

  lemma AllBlocks()
    ensures Blocks(ALL) == [Block([EARLY_Q, EARLY_A], true), Block([LATE_Q, LATE_A], false)]
    ensures Blocks(LATE) == [Block([LATE_Q, LATE_A], false)]
  {
    hide Blocks;
    EmptyHasNone();
    BlockThenMartin([EARLY_Q], [EARLY_A], LATE);
    BlockThenMartin([LATE_Q], [LATE_A], []);
    assert [EARLY_Q] + [EARLY_A] + LATE == ALL && [LATE_Q] + [LATE_A] + [] == LATE;
    assert [EARLY_Q] + [EARLY_A] == [EARLY_Q, EARLY_A] && [LATE_Q] + [LATE_A] == [LATE_Q, LATE_A];
  }

  // An exchange stored after a later one that is already done with: no run ever finds it.
  lemma EarlyExchangeLost(maxAttempts: nat)
    ensures Split(LATE, MAX_CHARS) != [] && NextExchange(Fresh(LATE), LATE, Split(LATE, MAX_CHARS)[0])
    ensures var c := CommitExchange(Fresh(LATE), Split(LATE, MAX_CHARS)[0], []);
      && Sound(c, maxAttempts) && |Split(ALL, MAX_CHARS)| == 2 && Split(ALL, MAX_CHARS)[0].firstSeq == 0
      && forall p :: LastHandled(c) <= p ==> Split(After(ALL, p), MAX_CHARS) == []
  {
    hide Blocks, KeptFrom, After, Sound, Handled;
    AllKept();
    AllBlocks();
    FreshSound(LATE, maxAttempts);
    AfterNothing(LATE);
    var x := Split(LATE, MAX_CHARS)[0];
    CommitSound(Fresh(LATE), LATE, x, [], maxAttempts);
    forall p | 3 <= p
      ensures Split(After(ALL, p), MAX_CHARS) == []
    {
      AfterIsSuffix(ALL, p, 4);
      NoRows();
    }
  }

  lemma NoRows()
    ensures ALL[4..] == [] && Split([], MAX_CHARS) == []
  {
  }
}
