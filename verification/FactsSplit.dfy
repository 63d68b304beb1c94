// How facts_eval/export.py cuts a conversation into exchanges, and what happens when it is
// cut again from the middle: the facts service resumes with only the rows past its progress.
module FactsSplit {

  datatype Option<+T> = None | Some(value: T) {
    function GetOr(default: T): T {
      if Some? then value else default
    }
  }

  datatype Author = Martin | Claude | Machine

  datatype Row = Row(author: Author, content: string, createdAt: int, seqNum: int)

  datatype Role = User | Assistant

  datatype Message = Message(role: Role, content: string)

  datatype Exchange = Exchange(messages: seq<Message>, startedAt: int, firstSeq: int, lastSeq: int, closed: bool)

  // ---- which rows count ---------------------------------------------------------------

  predicate Speaks(row: Row) {
    row.author != Machine
  }

  predicate Repeats(prev: Option<Row>, row: Row) {
    prev.Some? && prev.value.author == row.author && prev.value.content == row.content
  }

  // The rows of Martin and Claude, less any that repeats the one before it.
  function KeptFrom(prev: Option<Row>, rows: seq<Row>): (kept: seq<Row>)
    decreases |rows|
  {
    if rows == [] then []
    else if !Speaks(rows[0]) || Repeats(prev, rows[0]) then KeptFrom(prev, rows[1..])
    else [rows[0]] + KeptFrom(Some(rows[0]), rows[1..])
  }

  function Kept(rows: seq<Row>): seq<Row> {
    KeptFrom(None, rows)
  }

  // ---- the exchange grammar -------------------------------------------------------------

  // How many rows at the front of k are by a.
  function RunOf(k: seq<Row>, a: Author): (n: nat)
    ensures n <= |k|
    ensures forall i :: 0 <= i < n ==> k[i].author == a
    ensures n < |k| ==> k[n].author != a
  {
    if k == [] || k[0].author != a then 0 else 1 + RunOf(k[1..], a)
  }

  function Truncated(s: string, maxChars: nat): string {
    if |s| <= maxChars then s else s[..maxChars]
  }

  function AsMessage(row: Row, maxChars: nat): Message {
    Message(if row.author == Martin then User else Assistant, Truncated(row.content, maxChars))
  }

  function Messages(rows: seq<Row>, maxChars: nat): (ms: seq<Message>)
    ensures |ms| == |rows|
  {
    if rows == [] then [] else Messages(rows[..|rows| - 1], maxChars) + [AsMessage(rows[|rows| - 1], maxChars)]
  }

  // An exchange as the rows it is made of.
  datatype Block = Block(rows: seq<Row>, closed: bool)

  function FirstSeq(b: Block): int {
    if b.rows == [] then -1 else b.rows[0].seqNum
  }

  function LastSeq(b: Block): int {
    if b.rows == [] then -1 else b.rows[|b.rows| - 1].seqNum
  }

  function AsExchange(b: Block, maxChars: nat): Exchange {
    Exchange(Messages(b.rows, maxChars), if b.rows == [] then 0 else b.rows[0].createdAt,
             FirstSeq(b), LastSeq(b), b.closed)
  }

  function AsExchanges(bs: seq<Block>, maxChars: nat): (xs: seq<Exchange>)
    ensures |xs| == |bs|
    ensures forall i :: 0 <= i < |bs| ==> xs[i] == AsExchange(bs[i], maxChars)
  {
    if bs == [] then [] else AsExchanges(bs[..|bs| - 1], maxChars) + [AsExchange(bs[|bs| - 1], maxChars)]
  }

  // The length of the exchange at the front of k, which starts with Martin: his messages, then
  // Claude's. 0 if Claude has not answered.
  function FrontBlock(k: seq<Row>): (n: nat)
    requires k != [] && k[0].author == Martin
    ensures n <= |k|
  {
    var m := RunOf(k, Martin);
    var c := RunOf(k[m..], Claude);
    if c == 0 then 0 else m + c
  }

  // The exchanges of the kept rows: whatever Claude says before Martin has spoken belongs to none;
  // an exchange is closed when anything (necessarily Martin) follows it.
  function Blocks(k: seq<Row>): (bs: seq<Block>)
    decreases |k|
  {
    if k == [] then []
    else if k[0].author != Martin then Blocks(k[1..])
    else
      var n := FrontBlock(k);
      if n == 0 then [] else [Block(k[..n], n < |k|)] + Blocks(k[n..])
  }

  function SplitBlocks(rows: seq<Row>): seq<Block> {
    Blocks(Kept(rows))
  }

  function Split(rows: seq<Row>, maxChars: nat): (xs: seq<Exchange>)
    ensures |xs| == |SplitBlocks(rows)|
    ensures forall i :: 0 <= i < |xs| ==> xs[i] == AsExchange(SplitBlocks(rows)[i], maxChars)
  {
    AsExchanges(SplitBlocks(rows), maxChars)
  }

  // ---- split_exchanges --------------------------------------------------------------------

  predicate AllBy(rows: seq<Row>, a: Author) {
    forall i :: 0 <= i < |rows| ==> rows[i].author == a
  }

  lemma {:induction false} RunOfAllBy(k: seq<Row>, t: seq<Row>, a: Author)
    requires AllBy(k, a)
    requires t != [] ==> t[0].author != a
    ensures RunOf(k + t, a) == |k|
    decreases |k|
  {
    if k == [] {
      assert k + t == t;
    } else {
      assert (k + t)[1..] == k[1..] + t;
      RunOfAllBy(k[1..], t, a);
    }
  }

  // Martin's messages ms and Claude's replies cs are an exchange, whatever Martin says next.
  lemma BlockThenMartin(ms: seq<Row>, cs: seq<Row>, t: seq<Row>)
    requires ms != [] && AllBy(ms, Martin) && cs != [] && AllBy(cs, Claude)
    requires t != [] ==> t[0].author == Martin
    ensures Blocks(ms + cs + t) == [Block(ms + cs, t != [])] + Blocks(t)
  {
    var k := ms + cs + t;
    assert k == ms + (cs + t);
    RunOfAllBy(ms, cs + t, Martin);
    assert k[|ms|..] == cs + t;
    RunOfAllBy(cs, t, Claude);
    assert FrontBlock(k) == |ms| + |cs|;
    assert k[..|ms| + |cs|] == ms + cs && k[|ms| + |cs|..] == t;
  }

  lemma UnansweredIsNothing(ms: seq<Row>)
    requires AllBy(ms, Martin)
    ensures Blocks(ms) == []
  {
    if ms != [] {
      RunOfAllBy(ms, [], Martin);
      assert ms + [] == ms && ms[|ms|..] == [];
    }
  }

  // The exchange the loop is holding, as the source's `cur` object reads.
  function Current(block: seq<Row>, maxChars: nat): Option<Exchange> {
    if block == [] then None else Some(AsExchange(Block(block, false), maxChars))
  }

  lemma CurrentGrows(block: seq<Row>, row: Row, maxChars: nat)
    ensures var was := Current(block, maxChars).GetOr(Exchange([], row.createdAt, row.seqNum, row.seqNum, false));
      Current(block + [row], maxChars) ==
        Some(was.(messages := was.messages + [AsMessage(row, maxChars)], lastSeq := row.seqNum))
  {
    hide Messages, AsMessage;
    NoMessages(maxChars);
    MessagesGrow(block, row, maxChars);
  }

  lemma NoCurrent(maxChars: nat)
    ensures Current([], maxChars) == None
  {
  }

  lemma CurrentIs(block: seq<Row>, maxChars: nat)
    requires block != []
    ensures Current(block, maxChars) == Some(AsExchange(Block(block, false), maxChars))
    ensures Current(block, maxChars).value.(closed := true) == AsExchange(Block(block, true), maxChars)
  {
    hide Messages;
  }

  lemma KeptNext(prev: Option<Row>, rows: seq<Row>, i: nat)
    requires i < |rows|
    ensures var row := rows[i];
      KeptFrom(prev, rows[i..]) == if !Speaks(row) || Repeats(prev, row) then KeptFrom(prev, rows[i + 1..]) else [row] + KeptFrom(Some(row), rows[i + 1..])
  {
    assert rows[i..] == [rows[i]] + rows[i + 1..];
  }

  lemma NoneKept(prev: Option<Row>, rows: seq<Row>)
    ensures KeptFrom(prev, rows[|rows|..]) == []
  {
  }

  lemma NoMessages(maxChars: nat)
    ensures Messages([], maxChars) == []
  {
  }

  lemma MessagesGrow(rows: seq<Row>, row: Row, maxChars: nat)
    ensures Messages(rows + [row], maxChars) == Messages(rows, maxChars) + [AsMessage(row, maxChars)]
  {
    hide AsMessage;
    assert (rows + [row])[..|rows|] == rows;
  }

  lemma NoExchanges(maxChars: nat)
    ensures AsExchanges([], maxChars) == []
  {
  }

  lemma AsExchangesGrows(done: seq<Block>, b: Block, maxChars: nat)
    ensures AsExchanges(done + [b], maxChars) == AsExchanges(done, maxChars) + [AsExchange(b, maxChars)]
  {
    assert (done + [b])[..|done|] == done;
  }

  // What the loop has yet to find: the exchanges of the block it holds and of the rows it has not read.
  ghost predicate Remaining(done: seq<Block>, block: seq<Row>, later: seq<Row>, all: seq<Block>) {
    done + Blocks(block + later) == all
  }

  lemma NothingRead(rows: seq<Row>)
    ensures Remaining([], [] + [], KeptFrom(None, rows[0..]), SplitBlocks(rows))
  {
    assert rows[0..] == rows && [] + [] + Kept(rows) == Kept(rows);
  }

  lemma RowJoins(done: seq<Block>, block: seq<Row>, row: Row, later: seq<Row>, all: seq<Block>)
    requires Remaining(done, block, [row] + later, all)
    ensures Remaining(done, block + [row], later, all)
  {
    assert block + ([row] + later) == block + [row] + later;
  }

  lemma RowOpens(done: seq<Block>, ms: seq<Row>, cs: seq<Row>, row: Row, later: seq<Row>, all: seq<Block>)
    requires Remaining(done, ms + cs, [row] + later, all)
    requires ms != [] && AllBy(ms, Martin) && cs != [] && AllBy(cs, Claude) && row.author == Martin
    ensures Remaining(done + [Block(ms + cs, true)], [], [row] + later, all)
  {
    var rest := [row] + later;
    BlockThenMartin(ms, cs, rest);
    assert [] + rest == rest;
    assert done + ([Block(ms + cs, true)] + Blocks(rest)) == done + [Block(ms + cs, true)] + Blocks(rest);
  }

  lemma RowIgnored(done: seq<Block>, row: Row, later: seq<Row>, all: seq<Block>)
    requires Remaining(done, [], [row] + later, all)
    requires row.author != Martin
    ensures Remaining(done, [], later, all)
  {
    assert [] + ([row] + later) == [row] + later && [] + later == later;
  }

  lemma NothingLater(done: seq<Block>, ms: seq<Row>, cs: seq<Row>, all: seq<Block>)
    requires Remaining(done, ms + cs, [], all)
    requires AllBy(ms, Martin) && AllBy(cs, Claude)
    requires ms == [] ==> cs == []
    ensures all == if cs != [] then done + [Block(ms + cs, false)] else done
  {
    assert ms + cs + [] == ms + cs;
    if cs != [] {
      BlockThenMartin(ms, cs, []);
    } else {
      assert ms + cs == ms;
      UnansweredIsNothing(ms);
    }
  }

  method SplitExchanges(rows: seq<Row>, maxChars: nat) returns (out: seq<Exchange>)
    ensures out == Split(rows, maxChars)
  {
    hide Blocks, RunOf, FrontBlock, Remaining, Messages, AsExchanges, AsMessage, Current, AsExchange, KeptFrom, Kept, SplitBlocks;
    out := [];
    NoCurrent(maxChars);
    NoExchanges(maxChars);
    var cur: Option<Exchange> := None;
    var spoke := false;
    var prev: Option<Row> := None;
    // the rows of cur: Martin's, then Claude's
    ghost var done: seq<Block>, ms: seq<Row>, cs: seq<Row> := [], [], [];
    ghost var all := SplitBlocks(rows);
    NothingRead(rows);
    assert ms + cs == [];
    for i := 0 to |rows|
      invariant cur == Current(ms + cs, maxChars)
      invariant spoke == (cs != []) && (cur.None? <==> ms == []) && (ms == [] ==> cs == [])
      invariant AllBy(ms, Martin) && AllBy(cs, Claude)
      invariant out == AsExchanges(done, maxChars)
      invariant Remaining(done, ms + cs, KeptFrom(prev, rows[i..]), all)
    {
      var row := rows[i];
      KeptNext(prev, rows, i);
      if !Speaks(row) || Repeats(prev, row) {
        continue;
      }
      prev := Some(row);
      ghost var later := KeptFrom(prev, rows[i + 1..]);
      var message := AsMessage(row, maxChars);
      if row.author == Martin {
        if cur.Some? && spoke {
          RowOpens(done, ms, cs, row, later, all);
          CurrentIs(ms + cs, maxChars);
          AsExchangesGrows(done, Block(ms + cs, true), maxChars);
          out := out + [cur.value.(closed := true)];
          done := done + [Block(ms + cs, true)];
          cur, spoke := None, false;
          ms, cs := [], [];
        }
        if cur.None? {
          cur := Some(Exchange([], row.createdAt, row.seqNum, row.seqNum, false));
        }
        cur := Some(cur.value.(messages := cur.value.messages + [message], lastSeq := row.seqNum));
        assert ms + cs == ms;
        CurrentGrows(ms, row, maxChars);
        RowJoins(done, ms, row, later, all);
        ms := ms + [row];
        assert ms + cs == ms;
      } else if cur.Some? {
        cur := Some(cur.value.(messages := cur.value.messages + [message], lastSeq := row.seqNum));
        CurrentGrows(ms + cs, row, maxChars);
        RowJoins(done, ms + cs, row, later, all);
        assert ms + (cs + [row]) == ms + cs + [row];
        cs := cs + [row];
        spoke := true;
      } else {
        assert ms + cs == [];
        RowIgnored(done, row, later, all);
      }
    }
    NoneKept(prev, rows);
    NothingLater(done, ms, cs, all);
    if cur.Some? && spoke {
      CurrentIs(ms + cs, maxChars);
      AsExchangesGrows(done, Block(ms + cs, false), maxChars);
      out := out + [cur.value];
    }
  }

  // ---- cutting the rows -----------------------------------------------------------------------

  function Firsts(xs: seq<Block>): (fs: seq<int>)
    ensures |fs| == |xs|
  {
    if xs == [] then [] else [FirstSeq(xs[0])] + Firsts(xs[1..])
  }

  lemma {:induction false} FirstsConcat(a: seq<Block>, b: seq<Block>)
    ensures Firsts(a + b) == Firsts(a) + Firsts(b)
    decreases |a|
  {
    if a == [] {
      assert a + b == b;
    } else {
      assert (a + b)[1..] == a[1..] + b;
      FirstsConcat(a[1..], b);
    }
  }

  // What it means that cutting k into pre and post cuts its exchanges likewise: those that began
  // before the cut keep their places, and those after it come out exactly as they were.
  ghost predicate CutsCleanly(k: seq<Row>, pre: seq<Row>, post: seq<Row>) {
    var xs, before, later := Blocks(k), Blocks(pre), Blocks(post);
    && |before| <= |xs|
    && xs[|before|..] == later
    && Firsts(xs) == Firsts(before) + Firsts(later)
  }

  // The first exchange of rows that start with Martin and that Claude answers somewhere.
  lemma FrontParts(k: seq<Row>, q: nat) returns (ms: seq<Row>, cs: seq<Row>, t: seq<Row>)
    requires forall i :: 0 <= i < |k| ==> Speaks(k[i])
    requires q < |k| && k[0].author == Martin && k[q].author == Claude
    ensures k == ms + cs + t
    ensures ms != [] && AllBy(ms, Martin) && cs != [] && AllBy(cs, Claude)
    ensures t != [] ==> t[0].author == Martin
    ensures |ms| <= q
    ensures forall i :: 0 <= i < |t| ==> Speaks(t[i])
  {
    hide RunOf;
    var rest;
    ms, rest := RunAndRest(k, Martin);
    assert |ms| <= q && k[|ms|] == rest[0];
    cs, t := RunAndRest(rest, Claude);
    assert k == ms + cs + t;
    assert forall i :: 0 <= i < |t| ==> t[i] == k[|ms| + |cs| + i];
  }

  // The rows at the front that are by a, and what comes behind them.
  lemma RunAndRest(k: seq<Row>, a: Author) returns (run: seq<Row>, rest: seq<Row>)
    ensures k == run + rest && AllBy(run, a) && (rest != [] ==> rest[0].author != a)
    ensures k != [] && k[0].author == a ==> run != []
  {
    var n := RunOf(k, a);
    run, rest := k[..n], k[n..];
  }

  lemma {:induction false} ClaudeAloneIsNothing(cs: seq<Row>, t: seq<Row>)
    requires AllBy(cs, Claude)
    ensures Blocks(cs + t) == Blocks(t)
    decreases |cs|
  {
    if cs == [] {
      assert cs + t == t;
    } else {
      assert (cs + t)[1..] == cs[1..] + t;
      ClaudeAloneIsNothing(cs[1..], t);
    }
  }

  // The cut falls among Claude's replies in the first exchange.
  lemma CutInsideBlock(ms: seq<Row>, cs: seq<Row>, t: seq<Row>, j: nat)
    requires ms != [] && AllBy(ms, Martin) && AllBy(cs, Claude) && j < |cs|
    requires t != [] ==> t[0].author == Martin
    ensures Blocks(ms + cs[..j + 1]) == [Block(ms + cs[..j + 1], false)]
    ensures CutsCleanly(ms + cs + t, ms + cs[..j + 1], cs[j + 1..] + t)
  {
    var front := cs[..j + 1];
    BlockThenMartin(ms, cs, t);
    ClaudeAloneIsNothing(cs[j + 1..], t);
    assert ms + front + [] == ms + front;
    BlockThenMartin(ms, front, []);
    FirstsConcat([Block(ms + cs, t != [])], Blocks(t));
  }

  lemma CutPastBlock(ms: seq<Row>, cs: seq<Row>, pre: seq<Row>, post: seq<Row>)
    requires ms != [] && AllBy(ms, Martin) && cs != [] && AllBy(cs, Claude)
    requires pre != [] && pre[0].author == Martin
    requires CutsCleanly(pre + post, pre, post)
    ensures Blocks(ms + cs + pre) == [Block(ms + cs, true)] + Blocks(pre)
    ensures CutsCleanly(ms + cs + (pre + post), ms + cs + pre, post)
  {
    hide Blocks, Firsts;
    BlockThenMartin(ms, cs, pre + post);
    BlockThenMartin(ms, cs, pre);
    FirstsConcat([Block(ms + cs, true)], Blocks(pre + post));
    FirstsConcat([Block(ms + cs, true)], Blocks(pre));
  }

  lemma SliceAt(a: seq<Row>, b: seq<Row>, i: nat)
    requires i <= |b|
    ensures (a + b)[..|a| + i] == a + b[..i]
    ensures (a + b)[|a| + i..] == b[i..]
  {
  }

  lemma CutInFront(k: seq<Row>, ms: seq<Row>, cs: seq<Row>, t: seq<Row>, q: nat)
    requires k == ms + cs + t && |ms| <= q < |ms| + |cs|
    requires ms != [] && AllBy(ms, Martin) && AllBy(cs, Claude)
    requires t != [] ==> t[0].author == Martin
    ensures CutsCleanly(k, k[..q + 1], k[q + 1..])
  {
    hide Blocks, Firsts, CutsCleanly;
    var j := q - |ms|;
    CutInsideBlock(ms, cs, t, j);
    assert k == ms + (cs + t);
    SliceAt(ms, cs + t, j + 1);
    assert (cs + t)[..j + 1] == cs[..j + 1] && (cs + t)[j + 1..] == cs[j + 1..] + t;
  }

  lemma CutBehindFront(k: seq<Row>, ms: seq<Row>, cs: seq<Row>, t: seq<Row>, i: nat)
    requires k == ms + cs + t && i < |t|
    requires ms != [] && AllBy(ms, Martin) && cs != [] && AllBy(cs, Claude)
    requires t[0].author == Martin
    requires CutsCleanly(t, t[..i + 1], t[i + 1..])
    ensures var q := |ms| + |cs| + i; CutsCleanly(k, k[..q + 1], k[q + 1..])
  {
    hide Blocks, Firsts, CutsCleanly;
    assert t == t[..i + 1] + t[i + 1..];
    CutPastBlock(ms, cs, t[..i + 1], t[i + 1..]);
    SliceAt(ms + cs, t, i + 1);
  }

  lemma CutBeforeMartin(k: seq<Row>, q: nat)
    requires q < |k| && k[0].author != Martin
    requires q > 0 ==> CutsCleanly(k[1..], k[1..][..q], k[1..][q..])
    ensures CutsCleanly(k, k[..q + 1], k[q + 1..])
  {
    assert k[..q + 1][1..] == k[1..][..q] && k[q + 1..] == k[1..][q..];
    assert Blocks(k[..q + 1]) == Blocks(k[1..][..q]);
  }

  // Cutting the kept rows after anything Claude said cuts the list of exchanges in two, closed
  // flags included.
  lemma {:induction false} CutKept(k: seq<Row>, q: nat)
    requires forall i :: 0 <= i < |k| ==> Speaks(k[i])
    requires q < |k| && k[q].author == Claude
    ensures CutsCleanly(k, k[..q + 1], k[q + 1..])
    decreases |k|
  {
    hide Blocks, Firsts, CutsCleanly;
    if k[0].author != Martin {
      if q > 0 {
        CutKept(k[1..], q - 1);
      }
      CutBeforeMartin(k, q);
    } else {
      var ms, cs, t := FrontParts(k, q);
      if q < |ms| + |cs| {
        CutInFront(k, ms, cs, t, q);
      } else {
        var i := q - |ms| - |cs|;
        CutKept(t, i);
        CutBehindFront(k, ms, cs, t, i);
      }
    }
  }

  // ---- resuming from a sequence number ----------------------------------------------------------

  predicate Increasing(rows: seq<Row>) {
    && (forall i, j :: 0 <= i < j < |rows| ==> rows[i].seqNum < rows[j].seqNum)
    && (forall i :: 0 <= i < |rows| ==> 0 <= rows[i].seqNum)
  }

  // The rows a run reads: those with a strictly greater number than its progress.
  function After(rows: seq<Row>, p: int): seq<Row> {
    if rows == [] then [] else if rows[0].seqNum > p then [rows[0]] + After(rows[1..], p) else After(rows[1..], p)
  }

  lemma {:induction false} AfterIsSuffix(rows: seq<Row>, p: int, n: nat)
    requires n <= |rows|
    requires forall i :: 0 <= i < n ==> rows[i].seqNum <= p
    requires forall i :: n <= i < |rows| ==> rows[i].seqNum > p
    ensures After(rows, p) == rows[n..]
    decreases |rows|
  {
    if rows != [] {
      if n == 0 {
        AfterIsSuffix(rows[1..], p, 0);
      } else {
        AfterIsSuffix(rows[1..], p, n - 1);
        assert rows[n..] == rows[1..][n - 1..];
      }
    }
  }

  function LastOr(k: seq<Row>, prev: Option<Row>): Option<Row> {
    if k == [] then prev else Some(k[|k| - 1])
  }

  lemma {:induction false} KeptConcat(prev: Option<Row>, a: seq<Row>, b: seq<Row>)
    ensures KeptFrom(prev, a + b) == KeptFrom(prev, a) + KeptFrom(LastOr(KeptFrom(prev, a), prev), b)
    decreases |a|
  {
    if a == [] {
      assert a + b == b;
    } else {
      assert (a + b)[1..] == a[1..] + b;
      if !Speaks(a[0]) || Repeats(prev, a[0]) {
        KeptConcat(prev, a[1..], b);
      } else {
        KeptConcat(Some(a[0]), a[1..], b);
        var t := KeptFrom(Some(a[0]), a[1..]);
        assert LastOr([a[0]] + t, prev) == LastOr(t, Some(a[0]));
        assert [a[0]] + t + KeptFrom(LastOr(t, Some(a[0])), b) == [a[0]] + (t + KeptFrom(LastOr(t, Some(a[0])), b));
      }
    }
  }

  // Forgetting what Claude said last lets at most his own repetition back in, which opens no exchange.
  lemma {:induction false} ForgettingClaude(prev: Row, rows: seq<Row>)
    requires prev.author == Claude
    ensures Blocks(KeptFrom(Some(prev), rows)) == Blocks(KeptFrom(None, rows))
    decreases |rows|
  {
    if rows != [] {
      if !Speaks(rows[0]) {
        ForgettingClaude(prev, rows[1..]);
      } else if Repeats(Some(prev), rows[0]) {
        SameRepeats(prev, rows[0], rows[1..]);
      }
    }
  }

  lemma {:induction false} SameRepeats(a: Row, b: Row, rows: seq<Row>)
    requires a.author == b.author && a.content == b.content
    ensures KeptFrom(Some(a), rows) == KeptFrom(Some(b), rows)
    decreases |rows|
  {
    if rows != [] {
      SameRepeats(a, b, rows[1..]);
    }
  }

  lemma {:induction false} KeptSpeaks(prev: Option<Row>, rows: seq<Row>)
    ensures forall i :: 0 <= i < |KeptFrom(prev, rows)| ==> Speaks(KeptFrom(prev, rows)[i]) && KeptFrom(prev, rows)[i] in rows
    decreases |rows|
  {
    if rows != [] {
      if !Speaks(rows[0]) || Repeats(prev, rows[0]) {
        KeptSpeaks(prev, rows[1..]);
      } else {
        KeptSpeaks(Some(rows[0]), rows[1..]);
      }
    }
  }

  lemma {:induction false} KeptIncreasing(prev: Option<Row>, rows: seq<Row>)
    requires Increasing(rows)
    ensures Increasing(KeptFrom(prev, rows))
    decreases |rows|
  {
    if rows != [] {
      var next := if !Speaks(rows[0]) || Repeats(prev, rows[0]) then prev else Some(rows[0]);
      KeptIncreasing(next, rows[1..]);
      KeptSpeaks(next, rows[1..]);
    }
  }

  // Row number p splits the rows at some place, and the kept ones right after their own row p.
  lemma SplitAtNumber(rows: seq<Row>, q: nat) returns (a: seq<Row>, b: seq<Row>)
    requires Increasing(rows)
    requires q < |Kept(rows)|
    ensures rows == a + b
    ensures After(rows, Kept(rows)[q].seqNum) == b
    ensures forall r :: r in a ==> r.seqNum <= Kept(rows)[q].seqNum
    ensures forall r :: r in b ==> r.seqNum > Kept(rows)[q].seqNum
  {
    hide KeptFrom, After;
    KeptSpeaks(None, rows);
    var k := KeptFrom(None, rows);
    assert k[q] in rows;
    var at :| 0 <= at < |rows| && rows[at] == k[q];
    a, b := rows[..at + 1], rows[at + 1..];
    AfterIsSuffix(rows, rows[at].seqNum, at + 1);
  }

  // Reading on from a kept row of Claude's finds the exchanges that begin after it.
  lemma CutPoint(rows: seq<Row>, q: nat)
    requires Increasing(rows)
    requires q < |Kept(rows)| && Kept(rows)[q].author == Claude
    ensures SplitBlocks(After(rows, Kept(rows)[q].seqNum)) == Blocks(Kept(rows)[q + 1..])
  {
    hide KeptFrom, Blocks, After;
    var k := Kept(rows);
    var a, b := SplitAtNumber(rows, q);
    KeptConcat(None, a, b);
    var ka := Kept(a);
    var kb := KeptFrom(LastOr(ka, None), b);
    KeptSpeaks(None, a);
    KeptSpeaks(LastOr(ka, None), b);
    KeptIncreasing(None, rows);
    LastOfPart(k, ka, kb, q);
    ForgettingClaude(k[q], b);
  }

  lemma LastOfPart(k: seq<Row>, ka: seq<Row>, kb: seq<Row>, q: nat)
    requires k == ka + kb && Increasing(k) && q < |k|
    requires forall i :: 0 <= i < |ka| ==> ka[i].seqNum <= k[q].seqNum
    requires forall i :: 0 <= i < |kb| ==> kb[i].seqNum > k[q].seqNum
    ensures q == |ka| - 1 && kb == k[q + 1..]
  {
    if q >= |ka| {
      LaterPart(ka, kb, k[q].seqNum, q);
    } else {
      EarlierPart(ka, kb, k[q].seqNum, |ka| - 1);
    }
  }

  lemma LaterPart(ka: seq<Row>, kb: seq<Row>, p: int, j: nat)
    requires |ka| <= j < |ka + kb| && forall i :: 0 <= i < |kb| ==> kb[i].seqNum > p
    ensures (ka + kb)[j].seqNum > p
  {
    assert (ka + kb)[j] == kb[j - |ka|];
  }

  lemma EarlierPart(ka: seq<Row>, kb: seq<Row>, p: int, j: nat)
    requires j < |ka| && forall i :: 0 <= i < |ka| ==> ka[i].seqNum <= p
    ensures (ka + kb)[j].seqNum <= p
  {
    assert (ka + kb)[j] == ka[j];
  }

  // The cut lemma: a run that reads only the rows past the last number of an exchange finds exactly
  // the exchanges after it, in order, closed flags included.
  lemma ResumeFindsTheRest(rows: seq<Row>, e: nat, maxChars: nat)
    requires Increasing(rows)
    requires e < |Split(rows, maxChars)|
    ensures Split(After(rows, Split(rows, maxChars)[e].lastSeq), maxChars) == Split(rows, maxChars)[e + 1..]
  {
    var k := Kept(rows);
    KeptSpeaks(None, rows);
    KeptIncreasing(None, rows);
    var q := ExchangeEnd(k, e);
    CutPoint(rows, q);
    CutKept(k, q);
  }

  lemma EndOfFront(k: seq<Row>, ms: seq<Row>, cs: seq<Row>, t: seq<Row>) returns (q: nat)
    requires k == ms + cs + t
    requires ms != [] && AllBy(ms, Martin) && cs != [] && AllBy(cs, Claude)
    requires t != [] ==> t[0].author == Martin
    ensures q < |k| && k[q].author == Claude && Blocks(k) != [] && k[q].seqNum == LastSeq(Blocks(k)[0])
    ensures |Blocks(k[..q + 1])| == 1
  {
    hide Blocks;
    BlockThenMartin(ms, cs, t);
    q := |ms| + |cs| - 1;
    CutInsideBlock(ms, cs, t, |cs| - 1);
    assert cs[..|cs|] == cs && k[..q + 1] == ms + cs;
  }

  lemma EndBehindFront(k: seq<Row>, ms: seq<Row>, cs: seq<Row>, t: seq<Row>, e: nat, i: nat)
    requires k == ms + cs + t
    requires ms != [] && AllBy(ms, Martin) && cs != [] && AllBy(cs, Claude)
    requires t != [] && t[0].author == Martin
    requires 0 < e && e - 1 < |Blocks(t)|
    requires i < |t| && t[i].author == Claude && t[i].seqNum == LastSeq(Blocks(t)[e - 1])
    requires |Blocks(t[..i + 1])| == e
    ensures var q := |ms| + |cs| + i;
      q < |k| && k[q] == t[i] && e < |Blocks(k)| && k[q].seqNum == LastSeq(Blocks(k)[e]) &&
      |Blocks(k[..q + 1])| == e + 1
  {
    hide Blocks;
    BlockThenMartin(ms, cs, t);
    SliceAt(ms + cs, t, i + 1);
    BlockThenMartin(ms, cs, t[..i + 1]);
  }

  // Some row of Claude's answers Martin whenever there is an exchange.
  lemma ExchangeHasAnswer(k: seq<Row>) returns (q: nat)
    requires forall i :: 0 <= i < |k| ==> Speaks(k[i])
    requires Blocks(k) != [] && k[0].author == Martin
    ensures q < |k| && k[q].author == Claude
  {
    q := RunOf(k, Martin);
    assert FrontBlock(k) > 0 && RunOf(k[q..], Claude) > 0;
    assert k[q..][0] == k[q];
  }

  // Every exchange ends on a row of Claude's, and cutting there leaves that exchange and those before it.
  lemma SkipFirst(k: seq<Row>)
    requires k != [] && k[0].author != Martin
    ensures Blocks(k) == Blocks(k[1..])
  {
    hide FrontBlock;
  }

  lemma {:induction false} ExchangeEnd(k: seq<Row>, e: nat) returns (q: nat)
    requires forall i :: 0 <= i < |k| ==> Speaks(k[i])
    requires e < |Blocks(k)|
    ensures q < |k| && k[q].author == Claude && k[q].seqNum == LastSeq(Blocks(k)[e])
    ensures |Blocks(k[..q + 1])| == e + 1
    decreases |k|, 1
  {
    hide Blocks;
    EmptyHasNone();
    if k[0].author != Martin {
      SkipFirst(k);
      q := ExchangeEnd(k[1..], e);
      q := q + 1;
      SkipFirst(k[..q + 1]);
      assert k[..q + 1][1..] == k[1..][..q];
    } else {
      q := ExchangeHasAnswer(k);
      q := ExchangeEndInFront(k, e, q);
    }
  }

  lemma {:induction false} ExchangeEndInFront(k: seq<Row>, e: nat, answer: nat) returns (q: nat)
    requires forall i :: 0 <= i < |k| ==> Speaks(k[i])
    requires e < |Blocks(k)|
    requires answer < |k| && k[0].author == Martin && k[answer].author == Claude
    ensures q < |k| && k[q].author == Claude && k[q].seqNum == LastSeq(Blocks(k)[e])
    ensures |Blocks(k[..q + 1])| == e + 1
    decreases |k|, 0
  {
    hide Blocks;
    var ms, cs, t := FrontParts(k, answer);
    if e == 0 {
      q := EndOfFront(k, ms, cs, t);
    } else {
      BlockThenMartin(ms, cs, t);
      EmptyHasNone();
      q := ExchangeEnd(t, e - 1);
      EndBehindFront(k, ms, cs, t, e, q);
      q := |ms| + |cs| + q;
    }
  }

  lemma EmptyHasNone()
    ensures Blocks([]) == []
  {
  }

  // ---- what is kept, and what an exchange says of its rows ------------------------------------------------

  // One more row is kept if Martin or Claude wrote it and it does not repeat the last one kept.
  lemma KeptOneMore(rows: seq<Row>, row: Row)
    ensures var k := Kept(rows);
      Kept(rows + [row]) ==
        if row.author == Machine || (k != [] && k[|k| - 1].author == row.author && k[|k| - 1].content == row.content) then k else k + [row]
  {
    hide KeptFrom;
    KeptConcat(None, rows, [row]);
    KeptOne(LastOr(Kept(rows), None), row);
    assert Kept(rows) + [] == Kept(rows);
  }

  lemma KeptOne(prev: Option<Row>, row: Row)
    ensures KeptFrom(prev, [row]) ==
      if row.author == Machine || (prev.Some? && prev.value.author == row.author && prev.value.content == row.content) then [] else [row]
  {
    assert [row][1..] == [];
  }

  // Its rows' texts in order, cut to length, each under its author's role; the time and number of its first row, and
  // the number of its last.
  lemma ExchangeSays(b: Block, maxChars: nat)
    requires b.rows != []
    ensures var x, n := AsExchange(b, maxChars), |b.rows|;
      && |x.messages| == n && x.startedAt == b.rows[0].createdAt && x.firstSeq == b.rows[0].seqNum && x.lastSeq == b.rows[n - 1].seqNum
      && x.closed == b.closed
      && forall i :: 0 <= i < n ==>
           && x.messages[i].role == (if b.rows[i].author == Martin then User else Assistant)
           && x.messages[i].content <= b.rows[i].content
           && |x.messages[i].content| == (if |b.rows[i].content| < maxChars then |b.rows[i].content| else maxChars)
  {
    hide AsMessage, Messages;
    forall i | 0 <= i < |b.rows|
      ensures Messages(b.rows, maxChars)[i] == AsMessage(b.rows[i], maxChars)
    {
      MessageAt(b.rows, maxChars, i);
    }
    forall i | 0 <= i < |b.rows|
      ensures var m := AsMessage(b.rows[i], maxChars);
        && m.role == (if b.rows[i].author == Martin then User else Assistant) && m.content <= b.rows[i].content
        && |m.content| == (if |b.rows[i].content| < maxChars then |b.rows[i].content| else maxChars)
    {
      MessageSays(b.rows[i], maxChars);
    }
  }

  lemma MessageSays(row: Row, maxChars: nat)
    ensures var m := AsMessage(row, maxChars);
      && m.role == (if row.author == Martin then User else Assistant) && m.content <= row.content
      && |m.content| == (if |row.content| < maxChars then |row.content| else maxChars)
  {
  }

  lemma {:induction false} MessageAt(rows: seq<Row>, maxChars: nat, i: nat)
    requires i < |rows|
    ensures Messages(rows, maxChars)[i] == AsMessage(rows[i], maxChars)
    decreases |rows|
  {
    hide AsMessage;
    if i < |rows| - 1 {
      MessageAt(rows[..|rows| - 1], maxChars, i);
    }
  }
}
