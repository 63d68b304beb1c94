// The two queues and the calls the worker makes of them (esp32-embedder/worker/sqs.c). Between and during
// calls SQS may enqueue, deliver to nobody, and redrive to the dead-letter queue; it may refuse entries,
// garble bodies, do what it was asked and lose the reply.
module Sqs {
  import opened Bytes
  import opened Results

  // ---- what the queues hold, by what has happened -------------------------------------------------------

  // What the worker asks: for at most so many messages, waiting so long for one, each then hidden for so many
  // seconds; to take results; to delete messages, or to hide them for so many seconds, by their receipts.
  datatype Ask =
    | Poll(max: nat, wait: nat, seconds: nat)
    | Offer(bodies: seq<string>)
    | Remove(receipts: seq<nat>)
    | Hide(receipts: seq<nat>, seconds: nat)

  datatype Event =
    | Call(ask: Ask)
    | Enqueued(id: nat, body: string)
    | Redriven(id: nat)
    | Delivered(id: nat, receipt: nat)
    | Accepted(text: string)
    | Deleted(id: nat)

  // Every ingest message there ever was and its body, the ones still in the ingest queue, the ones in its
  // dead-letter queue, what the results queue has taken, which message each receipt is for, and what has been
  // asked, heard or not. Receipts are numbered in the order SQS gives them out.
  datatype Queues = Queues(ever: map<nat, string>, ingest: set<nat>, dead: set<nat>, results: set<string>,
                           receipts: map<nat, nat>, next: nat, asks: seq<Ask>)

  const NONE: Queues := Queues(map[], {}, {}, {}, map[], 0, [])

  predicate Can(q: Queues, e: Event) {
    match e
    case Call(_) => true
    case Enqueued(id, _) => id !in q.ever
    case Redriven(id) => id in q.ingest
    case Delivered(id, receipt) => id in q.ingest && receipt == q.next
    case Accepted(_) => true
    case Deleted(id) => id in q.ingest
  }

  function After(q: Queues, e: Event): Queues {
    match e
    case Call(ask) => q.(asks := q.asks + [ask])
    case Enqueued(id, body) => q.(ever := q.ever[id := body], ingest := q.ingest + {id})
    case Redriven(id) => q.(ingest := q.ingest - {id}, dead := q.dead + {id})
    case Delivered(id, receipt) => q.(receipts := q.receipts[receipt := id], next := receipt + 1)
    case Accepted(text) => q.(results := q.results + {text})
    case Deleted(id) => q.(ingest := q.ingest - {id})
  }

  function Replay(log: seq<Event>): Queues {
    if log == [] then NONE else After(Replay(log[..|log| - 1]), log[|log| - 1])
  }

  predicate Possible(log: seq<Event>) {
    log == [] || (Possible(log[..|log| - 1]) && Can(Replay(log[..|log| - 1]), log[|log| - 1]))
  }

  // The message holds the body: a reader of the object finds it there byte for byte.
  predicate Holds(text: string, body: string) {
    |Members(text)| == 13 && Members(text)[3] == "\"envelope\":" + body
  }

  predicate Held(results: set<string>, body: string) {
    exists text :: text in results && Holds(text, body)
  }

  // Nothing was deleted but what the results queue already held.
  predicate Careful(log: seq<Event>) {
    log == [] || (Careful(log[..|log| - 1]) && CarefulNext(Replay(log[..|log| - 1]), log[|log| - 1]))
  }

  predicate CarefulNext(q: Queues, e: Event) {
    e.Deleted? ==> e.id in q.ever && Held(q.results, q.ever[e.id])
  }

  // Every message is in the ingest queue or its dead-letter queue, or its body is in a result that the
  // results queue has accepted.
  predicate InCustody(q: Queues) {
    forall id :: id in q.ever ==> id in q.ingest || id in q.dead || Held(q.results, q.ever[id])
  }

  lemma {:induction false} CarefulKeepsCustody(log: seq<Event>)
    requires Possible(log) && Careful(log)
    ensures InCustody(Replay(log))
    decreases |log|
  {
    hide Holds;
    if log != [] {
      var front, e := log[..|log| - 1], log[|log| - 1];
      CarefulKeepsCustody(front);
      CustodyStep(Replay(front), e);
    }
  }

  lemma CustodyStep(q: Queues, e: Event)
    requires InCustody(q) && Can(q, e) && CarefulNext(q, e)
    ensures InCustody(After(q, e))
  {
    hide Holds;
    var now := After(q, e);
    forall id | id in now.ever
      ensures id in now.ingest || id in now.dead || Held(now.results, now.ever[id])
    {
      if id in q.ever && Held(q.results, q.ever[id]) {
        HeldStays(q.results, now.results, q.ever[id]);
      }
    }
  }

  lemma HeldStays(a: set<string>, b: set<string>, body: string)
    requires a <= b && Held(a, body)
    ensures Held(b, body)
  {
    hide Holds;
  }

  // On a careful run every message is in custody at every moment, not just at the end.
  lemma {:induction false} CustodyThroughout(log: seq<Event>, n: nat)
    requires Possible(log) && Careful(log) && n <= |log|
    ensures InCustody(Replay(log[..n]))
    decreases |log|
  {
    hide InCustody, CarefulNext, Can;
    if n == |log| {
      assert log[..n] == log;
      CarefulKeepsCustody(log);
    } else {
      CustodyThroughout(log[..|log| - 1], n);
      assert log[..|log| - 1][..n] == log[..n];
    }
  }

  // ---- SQS ----------------------------------------------------------------------------------------------

  // What later calls can only add to.
  predicate Grown(was: Queues, now: Queues) {
    && was.ever.Keys <= now.ever.Keys && (forall id :: id in was.ever ==> now.ever[id] == was.ever[id])
    && was.receipts.Keys <= now.receipts.Keys && (forall r :: r in was.receipts ==> now.receipts[r] == was.receipts[r])
    && was.results <= now.results && was.next <= now.next && was.asks <= now.asks
  }

  // Receipts are for messages there were, and none is beyond the next.
  predicate Sane(q: Queues) {
    && (forall r :: r in q.receipts ==> r < q.next && q.receipts[r] in q.ever)
    && q.ingest <= q.ever.Keys
  }

  lemma StepGrows(q: Queues, e: Event)
    requires Can(q, e) && Sane(q)
    ensures Grown(q, After(q, e)) && Sane(After(q, e))
  {
  }

  lemma GrownOn(a: Queues, b: Queues, c: Queues)
    requires Grown(a, b) && Grown(b, c)
    ensures Grown(a, c)
  {
  }

  // A message as it reaches the board, with what SQS says its MD5 is, if it does. One that is not complete
  // lacks its id, its receipt or its body.
  datatype Arrival = Arrival(messageId: string, receipt: nat, body: string, md5: Option<string>, receives: int, complete: bool)

  // An entry of a reply's Successful list.
  datatype Entry = Entry(id: int, md5: Option<string>)

  datatype Reply = NoReply | Reply(successful: seq<Entry>)

  class Aws {
    const md5: string -> string
    var q: Queues
    ghost var log: seq<Event>

    ghost predicate Valid()
      reads this
    {
      Possible(log) && Replay(log) == q && Sane(q)
    }

    // No two texts have one MD5.
    ghost predicate Ideal() {
      forall a, b :: md5(a) == md5(b) ==> a == b
    }

    constructor (md5: string -> string)
      ensures Valid() && this.md5 == md5 && q == NONE && Careful(log)
    {
      this.md5 := md5;
      q, log := NONE, [];
    }

    method Happen(e: Event)
      requires Valid() && Can(q, e)
      modifies this
      ensures Valid() && Grown(old(q), q) && q == After(old(q), e)
      ensures Careful(old(log)) && CarefulNext(old(q), e) ==> Careful(log)
    {
      hide Can, After, CarefulNext, Sane, Grown;
      StepGrows(q, e);
      assert (log + [e])[..|log|] == log;
      q := After(q, e);
      log := log + [e];
    }

    method Hear(ask: Ask)
      requires Valid()
      modifies this
      ensures Valid() && Grown(old(q), q) && (Careful(old(log)) ==> Careful(log)) && q.asks == old(q).asks + [ask]
    {
      hide Possible, Replay, Sane, Grown, Careful;
      Happen(Call(ask));
    }

    // Producers and SQS itself.
    method Others()
      requires Valid()
      modifies this
      ensures Valid() && Grown(old(q), q) && (Careful(old(log)) ==> Careful(log)) && q.asks == old(q).asks
    {
      hide Valid, Can, After, CarefulNext, Grown, Careful;
      SameGrown(q);
      var n: nat :| 0 <= n;
      while n > 0
        invariant Valid() && Grown(old(q), q) && (Careful(old(log)) ==> Careful(log)) && q.asks == old(q).asks
      {
        var e: Event := *;
        ghost var was := q;
        if (e.Enqueued? || e.Redriven?) && Can(q, e) {
          NotDeleting(q, e);
          Happen(e);
          GrownOn(old(q), was, q);
        }
        n := n - 1;
      }
    }

    // A call, whether it gets there or not, and whatever else happens.
    method Asking(ask: Ask)
      requires Valid()
      modifies this
      ensures Valid() && Grown(old(q), q) && (Careful(old(log)) ==> Careful(log)) && q.asks == old(q).asks + [ask]
    {
      hide Valid, Grown, Careful;
      Others();
      ghost var was := q;
      Hear(ask);
      GrownOn(old(q), was, q);
    }

    // ReceiveMessage: messages of the ingest queue, each under a new receipt. A body may arrive garbled if
    // an MD5 comes with it, and that is the MD5 of what SQS holds.
    // In good health there is a reply, and it brings a message, whole, if the queue holds any.
    method ReceiveMessage(max: nat, wait: nat, seconds: nat, healthy: bool) returns (ok: bool, msgs: seq<Arrival>)
      requires Valid()
      modifies this
      ensures Valid() && Grown(old(q), q) && (Careful(old(log)) ==> Careful(log))
      ensures q.asks == old(q).asks + [Poll(max, wait, seconds)]
      ensures forall k :: 0 <= k < |msgs| ==> old(q).next <= msgs[k].receipt < q.next && Truthful(q, md5, msgs[k])
      ensures forall k, l :: 0 <= k < l < |msgs| ==> msgs[k].receipt < msgs[l].receipt
      ensures healthy ==> ok && (q.ingest == {} || (msgs != [] && msgs[0].complete && msgs[0].md5.None?))
    {
      hide Valid, Can, After, CarefulNext, Grown, Careful, Truthful;
      Asking(Poll(max, wait, seconds));
      NextGrows(old(q), q);
      ok, msgs := *, [];
      ok := ok || healthy;
      var n: nat :| 0 <= n;
      if healthy && q.ingest != {} {
        ghost var was := q;
        var id :| id in q.ingest;
        var arrival := Deliver(id, true);
        GrownOn(old(q), was, q);
        msgs := [arrival];
      }
      while n > 0
        invariant Valid() && Grown(old(q), q) && (Careful(old(log)) ==> Careful(log)) && old(q).next <= q.next
        invariant q.asks == old(q).asks + [Poll(max, wait, seconds)]
        invariant forall k :: 0 <= k < |msgs| ==> old(q).next <= msgs[k].receipt < q.next && Truthful(q, md5, msgs[k])
        invariant forall k, l :: 0 <= k < l < |msgs| ==> msgs[k].receipt < msgs[l].receipt
        invariant healthy ==> q.ingest == {} || (msgs != [] && msgs[0].complete && msgs[0].md5.None?)
      {
        if q.ingest != {} {
          ghost var was := q;
          var id :| id in q.ingest;
          var arrival := Deliver(id, false);
          GrownOn(old(q), was, q);
          StillTruthful(was, q, md5);
          msgs := msgs + [arrival];
        }
        n := n - 1;
      }
    }

    method Deliver(id: nat, intact: bool) returns (arrival: Arrival)
      requires Valid() && id in q.ingest
      modifies this
      ensures Valid() && Grown(old(q), q) && (Careful(old(log)) ==> Careful(log))
      ensures arrival.receipt == old(q).next < q.next && Truthful(q, md5, arrival) && q.ingest == old(q).ingest
      ensures q.asks == old(q).asks
      ensures intact ==> arrival.complete && arrival.md5.None?
    {
      hide Careful, Possible, Replay;
      var e := Delivered(id, q.next);
      var messageId: string := *;
      var body: string := *;
      var receives: int := *;
      var given, complete: bool := *, *;
      given, complete := given && !intact, complete || intact;
      arrival := Arrival(messageId, q.next, if given then body else q.ever[id],
                         if given then Some(md5(q.ever[id])) else None, receives, complete);
      Happen(e);
    }

    // SendMessageBatch to the results queue. Any of it may be taken, garbled or not, under any id, and the
    // reply may be lost; but an MD5 in a reply is of something the queue took. In good health it takes all of
    // it, and says so.
    method SendMessageBatch(bodies: seq<string>, healthy: bool) returns (reply: Reply)
      requires Valid()
      modifies this
      ensures Valid() && Grown(old(q), q) && (Careful(old(log)) ==> Careful(log))
      ensures q.asks == old(q).asks + [Offer(bodies)]
      ensures reply.Reply? ==> forall e :: e in reply.successful && e.md5.Some? ==> TakenAs(q, md5, e.md5.value)
      ensures healthy ==> reply.Reply? && forall i :: 0 <= i < |bodies| ==> Entry(i, Some(md5(bodies[i]))) in reply.successful
    {
      hide Valid, Grown, Careful, TakenAs;
      Asking(Offer(bodies));
      var entries: seq<Entry> := [];
      if healthy {
        ghost var was := q;
        entries := TakeAll(bodies);
        GrownOn(old(q), was, q);
      }
      var n: nat :| 0 <= n;
      while n > 0
        invariant Valid() && Grown(old(q), q) && (Careful(old(log)) ==> Careful(log))
        invariant q.asks == old(q).asks + [Offer(bodies)]
        invariant forall e :: e in entries && e.md5.Some? ==> TakenAs(q, md5, e.md5.value)
        invariant healthy ==> forall i :: 0 <= i < |bodies| ==> Entry(i, Some(md5(bodies[i]))) in entries
      {
        ghost var was := q;
        var text: string := *;
        if |bodies| > 0 {
          var k: int := *;
          text := if 0 <= k < |bodies| then bodies[k] else text;
        }
        var id: int := *;
        Take(text);
        GrownOn(old(q), was, q);
        StillTaken(was, q, md5);
        entries := entries + [Entry(id, Some(md5(text)))];
        if * {
          entries := [Entry(id, None)] + entries;
        }
        n := n - 1;
      }
      var lost: bool := *;
      reply := if lost && !healthy then NoReply else Reply(entries);
    }

    // All of them, each as it is.
    method TakeAll(bodies: seq<string>) returns (entries: seq<Entry>)
      requires Valid()
      modifies this
      ensures Valid() && Grown(old(q), q) && (Careful(old(log)) ==> Careful(log)) && q.asks == old(q).asks
      ensures forall e :: e in entries && e.md5.Some? ==> TakenAs(q, md5, e.md5.value)
      ensures forall i :: 0 <= i < |bodies| ==> Entry(i, Some(md5(bodies[i]))) in entries
    {
      hide Valid, Grown, Careful, TakenAs;
      SameGrown(q);
      entries := [];
      var k := 0;
      while k < |bodies|
        invariant 0 <= k <= |bodies| && Valid() && Grown(old(q), q) && (Careful(old(log)) ==> Careful(log))
        invariant q.asks == old(q).asks
        invariant forall e :: e in entries && e.md5.Some? ==> TakenAs(q, md5, e.md5.value)
        invariant forall i :: 0 <= i < k ==> Entry(i, Some(md5(bodies[i]))) in entries
      {
        ghost var was := q;
        Take(bodies[k]);
        GrownOn(old(q), was, q);
        StillTaken(was, q, md5);
        entries := entries + [Entry(k, Some(md5(bodies[k])))];
        k := k + 1;
      }
    }

    method Take(text: string)
      requires Valid()
      modifies this
      ensures Valid() && Grown(old(q), q) && (Careful(old(log)) ==> Careful(log)) && TakenAs(q, md5, md5(text))
      ensures q.asks == old(q).asks
    {
      hide Valid, Careful, Grown;
      Happen(Accepted(text));
    }

    // DeleteMessageBatch: any of the messages the receipts are for may be gone, whatever the reply says. In
    // good health there is one.
    method DeleteMessageBatch(receipts: seq<nat>, healthy: bool) returns (reply: Reply)
      requires Valid()
      modifies this
      ensures Valid() && Grown(old(q), q) && q.asks == old(q).asks + [Remove(receipts)]
      ensures Careful(old(log)) && (forall k :: 0 <= k < |receipts| ==> Handed(old(q), receipts[k])) ==> Careful(log)
      ensures healthy ==> reply.Reply?
    {
      hide Valid, Careful, Grown, Handed;
      Asking(Remove(receipts));
      StillHanded(old(q), q);
      var k := 0;
      while k < |receipts|
        invariant 0 <= k <= |receipts| && Valid() && Grown(old(q), q) && q.asks == old(q).asks + [Remove(receipts)]
        invariant forall r :: Handed(old(q), r) ==> Handed(q, r)
        invariant Careful(old(log)) && (forall i :: 0 <= i < |receipts| ==> Handed(old(q), receipts[i])) ==> Careful(log)
      {
        if * {
          ghost var was := q;
          Delete(receipts[k]);
          GrownOn(old(q), was, q);
          StillHanded(was, q);
        }
        k := k + 1;
      }
      var entries: seq<Entry> := *;
      var lost: bool := *;
      reply := if lost && !healthy then NoReply else Reply(entries);
    }

    method Delete(receipt: nat)
      requires Valid()
      modifies this
      ensures Valid() && Grown(old(q), q) && (Careful(old(log)) && Handed(old(q), receipt) ==> Careful(log))
      ensures q.asks == old(q).asks
    {
      hide Careful, Holds, Possible, Replay, Held;
      SameGrown(q);
      if receipt in q.receipts && q.receipts[receipt] in q.ingest {
        Happen(Deleted(q.receipts[receipt]));
      }
    }

    // ChangeMessageVisibilityBatch: nothing leaves a queue for it.
    method ChangeMessageVisibilityBatch(receipts: seq<nat>, seconds: nat, healthy: bool) returns (reply: Reply)
      requires Valid()
      modifies this
      ensures Valid() && Grown(old(q), q) && (Careful(old(log)) ==> Careful(log))
      ensures q.asks == old(q).asks + [Hide(receipts, seconds)]
      ensures healthy ==> reply.Reply?
    {
      hide Valid, Grown, Careful;
      Asking(Hide(receipts, seconds));
      var entries: seq<Entry> := *;
      var lost: bool := *;
      reply := if lost && !healthy then NoReply else Reply(entries);
    }
  }

  // The message the receipt is for is one whose body the results queue holds.
  predicate Handed(q: Queues, receipt: nat) {
    receipt in q.receipts && q.receipts[receipt] in q.ever && Held(q.results, q.ever[q.receipts[receipt]])
  }

  predicate TakenAs(q: Queues, md5: string -> string, digest: string) {
    exists text :: text in q.results && md5(text) == digest
  }

  lemma StillHanded(was: Queues, now: Queues)
    requires Grown(was, now)
    ensures forall r :: Handed(was, r) ==> Handed(now, r)
  {
    hide Holds;
    forall r | Handed(was, r)
      ensures Handed(now, r)
    {
      HeldStays(was.results, now.results, was.ever[was.receipts[r]]);
    }
  }

  lemma StillTaken(was: Queues, now: Queues, md5: string -> string)
    requires Grown(was, now)
    ensures forall d :: TakenAs(was, md5, d) ==> TakenAs(now, md5, d)
  {
  }

  lemma NextGrows(a: Queues, b: Queues)
    requires Grown(a, b)
    ensures a.next <= b.next
  {
  }

  lemma StillTruthful(was: Queues, now: Queues, md5: string -> string)
    requires Grown(was, now)
    ensures forall a :: Truthful(was, md5, a) ==> Truthful(now, md5, a)
  {
  }

  predicate Truthful(q: Queues, md5: string -> string, a: Arrival) {
    && a.receipt in q.receipts && q.receipts[a.receipt] in q.ever
    && var held := q.ever[q.receipts[a.receipt]];
       if a.md5.Some? then a.md5.value == md5(held) else a.body == held
  }

  lemma SameGrown(q: Queues)
    ensures Grown(q, q)
  {
  }

  lemma NotDeleting(q: Queues, e: Event)
    requires !e.Deleted? && !e.Call?
    ensures CarefulNext(q, e) && After(q, e).asks == q.asks
  {
  }

  // ---- the client: sqs.c ------------------------------------------------------------------------------

  const MAX_BATCH: nat := 10
  const MAX_BATCH_BYTES: nat := 262144

  datatype Message = Message(messageId: string, receipt: nat, body: string, receives: int)

  // The message is one SQS delivered, with the body it was enqueued with.
  predicate Genuine(q: Queues, m: Message) {
    m.receipt in q.receipts && q.receipts[m.receipt] in q.ever && q.ever[q.receipts[m.receipt]] == m.body
  }

  function AtMost(max: int): nat {
    if max < 1 then 1 else if max > 10 then 10 else max
  }

  predicate Intact(a: Arrival, md5: string -> string) {
    a.complete && (a.md5.None? || a.md5.value == md5(a.body))
  }

  function AsMessage(a: Arrival): Message {
    Message(a.messageId, a.receipt, a.body, a.receives)
  }

  // The intact ones among the arrivals, in order, as far as there is room.
  function Kept(arrivals: seq<Arrival>, most: nat, md5: string -> string): (msgs: seq<Message>)
    ensures |msgs| <= most
  {
    if arrivals == [] then []
    else
      var a := arrivals[|arrivals| - 1];
      var before := Kept(arrivals[..|arrivals| - 1], most, md5);
      if Intact(a, md5) && |before| < most then before + [AsMessage(a)] else before
  }

  lemma NoneKept(most: nat, md5: string -> string)
    ensures Kept([], most, md5) == []
  {
  }

  // One message more: it is kept if it is complete, and matches its MD5 where it has one, while there is room.
  lemma KeptOneMore(arrivals: seq<Arrival>, a: Arrival, most: nat, md5: string -> string)
    ensures Kept([], most, md5) == []
    ensures var was, now := Kept(arrivals, most, md5), Kept(arrivals + [a], most, md5);
      var whole := a.complete && (a.md5 == None || a.md5 == Some(md5(a.body)));
      && (whole && |was| < most ==> now == was + [Message(a.messageId, a.receipt, a.body, a.receives)])
      && (!whole || |was| == most ==> now == was)
  {
    assert (arrivals + [a])[..|arrivals|] == arrivals && (arrivals + [a])[|arrivals|] == a;
  }

  // So a message that matches is kept, unless there are as many as were asked for without it.
  lemma {:induction false} MatchingKept(arrivals: seq<Arrival>, most: nat, md5: string -> string)
    ensures var msgs := Kept(arrivals, most, md5);
      forall a :: a in arrivals && a.complete && (a.md5 == None || a.md5 == Some(md5(a.body))) ==>
        |msgs| == most || Message(a.messageId, a.receipt, a.body, a.receives) in msgs
    decreases |arrivals|
  {
    if arrivals != [] {
      MatchingKept(arrivals[..|arrivals| - 1], most, md5);
    }
  }

  lemma KeptMore(arrivals: seq<Arrival>, i: nat, most: nat, md5: string -> string)
    requires i < |arrivals|
    ensures var was := Kept(arrivals[..i], most, md5);
      Kept(arrivals[..i + 1], most, md5) == if Intact(arrivals[i], md5) && |was| < most then was + [AsMessage(arrivals[i])] else was
  {
    assert arrivals[..i + 1][..i] == arrivals[..i];
  }

  lemma IntactIsGenuine(q: Queues, a: Arrival, md5: string -> string)
    requires Truthful(q, md5, a) && forall x, y :: md5(x) == md5(y) ==> x == y
    ensures Intact(a, md5) ==> Genuine(q, AsMessage(a))
  {
  }

  lemma {:induction false} FirstKept(arrivals: seq<Arrival>, most: nat, md5: string -> string)
    requires arrivals != [] && most > 0
    ensures Intact(arrivals[0], md5) ==> Kept(arrivals, most, md5) != []
    decreases |arrivals|
  {
    if |arrivals| > 1 {
      FirstKept(arrivals[..|arrivals| - 1], most, md5);
    }
  }

  // Nothing joins once there is no room.
  lemma {:induction false} KeptFull(arrivals: seq<Arrival>, i: nat, most: nat, md5: string -> string)
    requires i <= |arrivals| && (i == |arrivals| || |Kept(arrivals[..i], most, md5)| == most)
    ensures Kept(arrivals, most, md5) == Kept(arrivals[..i], most, md5)
    decreases |arrivals|
  {
    if i == |arrivals| {
      assert arrivals[..i] == arrivals;
    } else {
      assert arrivals[..|arrivals| - 1][..i] == arrivals[..i];
      KeptFull(arrivals[..|arrivals| - 1], i, most, md5);
    }
  }

  function Sum(bodies: seq<string>): nat {
    if bodies == [] then 0 else Sum(bodies[..|bodies| - 1]) + |bodies[|bodies| - 1]|
  }

  lemma SumMore(bodies: seq<string>, body: string)
    ensures Sum([]) == 0 && Sum(bodies + [body]) == Sum(bodies) + |body|
  {
    assert (bodies + [body])[..|bodies|] == bodies;
  }

  // A reply that counts entry i as done: it is in the list, and, of a body sent, with the body's own MD5.
  predicate Listed(successful: seq<Entry>, i: nat, sent: Option<seq<string>>, md5: string -> string) {
    exists e :: e in successful && e.id == i &&
      (sent.Some? ==> i < |sent.value| && e.md5 == Some(md5(sent.value[i])))
  }

  class Client {
    const aws: Aws

    constructor (aws: Aws)
      ensures this.aws == aws
    {
      this.aws := aws;
    }

    // sqs_receive: the first messages, at most max of them (1 to 10), that are complete and match their MD5;
    // what does not, or does not fit in memory, is left to come back.
    method Receive(max: int, wait: nat, seconds: nat, plenty: bool, healthy: bool) returns (rc: int, msgs: seq<Message>, ghost arrivals: seq<Arrival>)
      requires aws.Valid() && aws.Ideal()
      modifies aws
      ensures aws.Valid() && Grown(old(aws.q), aws.q) && (Careful(old(aws.log)) ==> Careful(aws.log))
      ensures rc == 0 || (rc == -1 && msgs == [])
      ensures aws.q.asks == old(aws.q).asks + [Poll(if max < 1 then 1 else if max > 10 then 10 else max, wait, seconds)]
      ensures |msgs| <= AtMost(max)
      ensures rc == 0 && plenty ==> msgs == Kept(arrivals, AtMost(max), aws.md5)
      ensures rc == 0 && plenty ==>
        forall a :: a in arrivals && a.complete && (a.md5 == None || a.md5 == Some(aws.md5(a.body))) ==>
          || |msgs| == (if max < 1 then 1 else if max > 10 then 10 else max)
          || Message(a.messageId, a.receipt, a.body, a.receives) in msgs
      ensures forall k :: 0 <= k < |arrivals| ==> Truthful(aws.q, aws.md5, arrivals[k])
      ensures healthy && plenty ==> rc == 0 && (aws.q.ingest == {} || msgs != [])
      ensures forall k :: 0 <= k < |msgs| ==> Genuine(aws.q, msgs[k]) && old(aws.q).next <= msgs[k].receipt < aws.q.next
      ensures forall k, l :: 0 <= k < l < |msgs| ==> msgs[k].receipt < msgs[l].receipt
    {
      hide Aws.Valid, Careful, Grown, Kept, Truthful, Genuine;
      var ok, got := aws.ReceiveMessage(AtMost(max), wait, seconds, healthy);
      arrivals := got;
      if !ok { return -1, [], got; }
      msgs := KeepIntact(got, AtMost(max), old(aws.q).next, plenty);
      rc := 0;
      MatchingKept(got, AtMost(max), aws.md5);
      if got != [] { FirstKept(got, AtMost(max), aws.md5); }
    }

    // The messages of the reply that are complete and whole, until there are enough.
    method KeepIntact(got: seq<Arrival>, most: nat, ghost from: nat, plenty: bool) returns (msgs: seq<Message>)
      requires aws.Ideal()
      requires forall k :: 0 <= k < |got| ==> Truthful(aws.q, aws.md5, got[k]) && from <= got[k].receipt < aws.q.next
      requires forall k, l :: 0 <= k < l < |got| ==> got[k].receipt < got[l].receipt
      ensures |msgs| <= most
      ensures plenty ==> msgs == Kept(got, most, aws.md5)
      ensures forall k :: 0 <= k < |msgs| ==> Genuine(aws.q, msgs[k]) && from <= msgs[k].receipt < aws.q.next
      ensures forall k, l :: 0 <= k < l < |msgs| ==> msgs[k].receipt < msgs[l].receipt
    {
      hide Kept, Genuine;
      NoneKept(most, aws.md5);
      assert got[..0] == [];
      msgs := [];
      var i := 0;
      while i < |got| && |msgs| < most
        invariant 0 <= i <= |got| && |msgs| <= most
        invariant plenty ==> msgs == Kept(got[..i], most, aws.md5)
        invariant forall k :: 0 <= k < |msgs| ==> Genuine(aws.q, msgs[k]) && from <= msgs[k].receipt < aws.q.next
        invariant forall k, l :: 0 <= k < l < |msgs| ==> msgs[k].receipt < msgs[l].receipt
        invariant i < |got| ==> forall k :: 0 <= k < |msgs| ==> msgs[k].receipt < got[i].receipt
      {
        var a := got[i];
        IntactIsGenuine(aws.q, a, aws.md5);
        KeptMore(got, i, most, aws.md5);
        var memory: bool := *;
        if Intact(a, aws.md5) && (memory || plenty) {
          msgs := msgs + [AsMessage(a)];
        }
        i := i + 1;
      }
      if plenty { KeptFull(got, i, most, aws.md5); }
    }

    // batch_outcome
    method BatchOutcome(successful: seq<Entry>, n: nat, ok: array<bool>, sent: Option<seq<string>>)
      requires n <= ok.Length && (sent.Some? ==> |sent.value| == n)
      modifies ok
      ensures forall i :: 0 <= i < n ==> ok[i] == (old(ok[i]) || Listed(successful, i, sent, aws.md5))
      ensures ok[n..] == old(ok[n..])
    {
      var k := 0;
      while k < |successful|
        invariant 0 <= k <= |successful|
        invariant forall i :: 0 <= i < n ==> ok[i] == (old(ok[i]) || Listed(successful[..k], i, sent, aws.md5))
        invariant ok[n..] == old(ok[n..])
      {
        var e := successful[k];
        ListedMore(successful, k, sent, aws.md5);
        if 0 <= e.id < n && (sent.None? || e.md5 == Some(aws.md5(sent.value[e.id]))) {
          ok[e.id] := true;
        }
        k := k + 1;
      }
      assert successful[..k] == successful;
    }

    // sqs_send_batch: an entry is counted as sent only if the results queue has exactly its body.
    method SendBatch(bodies: seq<string>, ok: array<bool>, healthy: bool) returns (rc: int, ghost reply: Reply)
      requires aws.Valid() && aws.Ideal() && |bodies| <= ok.Length
      modifies aws, ok
      ensures aws.Valid() && Grown(old(aws.q), aws.q) && (Careful(old(aws.log)) ==> Careful(aws.log))
      ensures rc == 0 || rc == -1
      ensures |bodies| < 1 || |bodies| > 10 || Sum(bodies) > 262144 ==> rc == -1 && aws.q == old(aws.q)
      ensures 1 <= |bodies| <= 10 && Sum(bodies) <= 262144 ==> aws.q.asks == old(aws.q).asks + [Offer(bodies)]
      ensures forall i :: 0 <= i < |bodies| && ok[i] ==> rc == 0 && bodies[i] in aws.q.results
      ensures rc == 0 ==> reply.Reply? && forall i :: 0 <= i < |bodies| ==>
        (ok[i] <==> exists e :: e in reply.successful && e.id == i && e.md5 == Some(aws.md5(bodies[i])))
      ensures healthy && 1 <= |bodies| <= MAX_BATCH && Sum(bodies) <= MAX_BATCH_BYTES ==>
        rc == 0 && forall i :: 0 <= i < |bodies| ==> ok[i]
    {
      hide Aws.Valid, Careful, Grown, Listed;
      var n, total, i := |bodies|, 0, 0;
      while i < n
        invariant 0 <= i <= n && total == Sum(bodies[..i])
        invariant forall k :: 0 <= k < i ==> !ok[k]
        modifies ok
      {
        assert bodies[..i + 1][..i] == bodies[..i];
        ok[i] := false;
        total := total + |bodies[i]|;
        i := i + 1;
      }
      assert bodies[..i] == bodies;
      if n < 1 || n > MAX_BATCH || total > MAX_BATCH_BYTES {
        SameGrown(aws.q);
        return -1, NoReply;
      }
      var heard := aws.SendMessageBatch(bodies, healthy);
      reply := heard;
      if heard.NoReply? { return -1, heard; }
      BatchOutcome(heard.successful, n, ok, Some(bodies));
      ListedMeans(heard.successful, Some(bodies), aws.md5);
      SentIs(heard.successful, bodies, aws.q, aws.md5);
      AllListed(heard.successful, bodies, aws.md5);
      rc := 0;
    }

    // sqs_delete_batch
    method DeleteBatch(receipts: seq<nat>, ok: array<bool>, healthy: bool) returns (rc: int, ghost reply: Reply)
      requires aws.Valid() && |receipts| <= ok.Length
      modifies aws, ok
      ensures aws.Valid() && Grown(old(aws.q), aws.q)
      ensures Careful(old(aws.log)) && (forall k :: 0 <= k < |receipts| ==> Handed(old(aws.q), receipts[k])) ==> Careful(aws.log)
      ensures aws.q.asks == old(aws.q).asks + if 1 <= |receipts| <= 10 then [Remove(receipts)] else []
      ensures rc == 0 || rc == -1
      ensures rc != 0 ==> forall i :: 0 <= i < |receipts| ==> !ok[i]
      ensures rc == 0 ==> reply.Reply? && forall i :: 0 <= i < |receipts| ==>
        (ok[i] <==> exists e :: e in reply.successful && e.id == i)
      ensures healthy && 1 <= |receipts| <= MAX_BATCH ==> rc == 0
    {
      hide Aws.Valid, Careful, Grown, Listed, Handed;
      Clear(|receipts|, ok);
      SameGrown(aws.q);
      if |receipts| < 1 || |receipts| > MAX_BATCH { return -1, NoReply; }
      var heard := aws.DeleteMessageBatch(receipts, healthy);
      reply := heard;
      if heard.NoReply? { return -1, heard; }
      BatchOutcome(heard.successful, |receipts|, ok, None);
      ListedMeans(heard.successful, None, aws.md5);
      rc := 0;
    }

    // sqs_visibility_batch
    method VisibilityBatch(receipts: seq<nat>, seconds: nat, ok: array<bool>, healthy: bool) returns (rc: int, ghost reply: Reply)
      requires aws.Valid() && |receipts| <= ok.Length
      modifies aws, ok
      ensures aws.Valid() && Grown(old(aws.q), aws.q) && (Careful(old(aws.log)) ==> Careful(aws.log))
      ensures aws.q.asks == old(aws.q).asks + if 1 <= |receipts| <= 10 then [Hide(receipts, seconds)] else []
      ensures rc == 0 || rc == -1
      ensures rc != 0 ==> forall i :: 0 <= i < |receipts| ==> !ok[i]
      ensures rc == 0 ==> reply.Reply? && forall i :: 0 <= i < |receipts| ==>
        (ok[i] <==> exists e :: e in reply.successful && e.id == i)
      ensures healthy && 1 <= |receipts| <= MAX_BATCH ==> rc == 0
    {
      hide Aws.Valid, Careful, Grown, Listed;
      Clear(|receipts|, ok);
      SameGrown(aws.q);
      if |receipts| < 1 || |receipts| > MAX_BATCH { return -1, NoReply; }
      var heard := aws.ChangeMessageVisibilityBatch(receipts, seconds, healthy);
      reply := heard;
      if heard.NoReply? { return -1, heard; }
      BatchOutcome(heard.successful, |receipts|, ok, None);
      ListedMeans(heard.successful, None, aws.md5);
      rc := 0;
    }

    method Clear(n: nat, ok: array<bool>)
      requires n <= ok.Length
      modifies ok
      ensures forall i :: 0 <= i < n ==> !ok[i]
    {
      var i := 0;
      while i < n
        invariant 0 <= i <= n && forall k :: 0 <= k < i ==> !ok[k]
      {
        ok[i] := false;
        i := i + 1;
      }
    }
  }

  // An entry by its number; of a body sent, one with the body's own MD5.
  lemma ListedMeans(successful: seq<Entry>, sent: Option<seq<string>>, md5: string -> string)
    ensures sent.None? ==> forall i: nat ::
      Listed(successful, i, sent, md5) <==> exists e :: e in successful && e.id == i
    ensures sent.Some? ==> forall i: nat :: i < |sent.value| ==>
      (Listed(successful, i, sent, md5) <==> exists e :: e in successful && e.id == i && e.md5 == Some(md5(sent.value[i])))
  {
  }

  lemma ListedMore(successful: seq<Entry>, k: nat, sent: Option<seq<string>>, md5: string -> string)
    requires k < |successful|
    ensures forall i: nat :: Listed(successful[..k + 1], i, sent, md5) <==>
      Listed(successful[..k], i, sent, md5) || Listed([successful[k]], i, sent, md5)
  {
    var more := successful[..k + 1];
    assert more == successful[..k] + [successful[k]];
    forall i: nat | Listed(successful[..k], i, sent, md5) || Listed([successful[k]], i, sent, md5)
      ensures Listed(more, i, sent, md5)
    {
      if Listed(successful[..k], i, sent, md5) {
        var e :| e in successful[..k] && e.id == i && (sent.Some? ==> i < |sent.value| && e.md5 == Some(md5(sent.value[i])));
        assert e in more;
      } else {
        assert successful[k] in more;
      }
    }
  }

  lemma AllListed(successful: seq<Entry>, bodies: seq<string>, md5: string -> string)
    ensures forall i :: 0 <= i < |bodies| && Entry(i, Some(md5(bodies[i]))) in successful ==>
      Listed(successful, i, Some(bodies), md5)
  {
  }

  lemma SentIs(successful: seq<Entry>, bodies: seq<string>, q: Queues, md5: string -> string)
    requires forall e :: e in successful && e.md5.Some? ==> TakenAs(q, md5, e.md5.value)
    requires forall a, b :: md5(a) == md5(b) ==> a == b
    ensures forall i: nat :: i < |bodies| && Listed(successful, i, Some(bodies), md5) ==> bodies[i] in q.results
  {
    forall i: nat | i < |bodies| && Listed(successful, i, Some(bodies), md5)
      ensures bodies[i] in q.results
    {
      var e :| e in successful && e.id == i && e.md5 == Some(md5(bodies[i]));
      var text :| text in q.results && md5(text) == e.md5.value;
    }
  }
}
