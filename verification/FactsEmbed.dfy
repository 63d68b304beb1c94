// Vectors for the facts that have none (facts/service.py:448-494), batch after batch, from a provider that
// may fail for one fact or altogether, while facts are deleted and restored underneath. A fact without a
// vector cannot be found by its meaning, so none may be passed over.
module FactsEmbed {
  import opened FactsSplit

  type Vector = seq<real>

  datatype Fact = Fact(text: string, vector: Option<Vector>, deleted: bool)

  // In the order they were made; a fact's id is its place.
  type Table = seq<Fact>

  predicate Wants(facts: Table, tried: seq<nat>, id: nat) {
    id < |facts| && facts[id].vector.None? && !facts[id].deleted && id !in tried
  }

  // The first facts that want a vector, limit of them at most.
  function Select(facts: Table, tried: seq<nat>, limit: nat): (ids: seq<nat>)
    ensures |ids| <= limit
    ensures forall k :: 0 <= k < |ids| ==> Wants(facts, tried, ids[k])
    ensures forall k, l :: 0 <= k < l < |ids| ==> ids[k] < ids[l]
  {
    SelectFrom(facts, tried, limit, 0)
  }

  function SelectFrom(facts: Table, tried: seq<nat>, limit: nat, id: nat): (ids: seq<nat>)
    ensures |ids| <= limit
    ensures forall k :: 0 <= k < |ids| ==> id <= ids[k] && Wants(facts, tried, ids[k])
    ensures forall k, l :: 0 <= k < l < |ids| ==> ids[k] < ids[l]
    decreases |facts| - id
  {
    if limit == 0 || id >= |facts| then []
    else if Wants(facts, tried, id) then [id] + SelectFrom(facts, tried, limit - 1, id + 1)
    else SelectFrom(facts, tried, limit, id + 1)
  }

  // A fact passed over comes after all that are selected, and there was no room for it.
  lemma {:induction false} SelectsFirst(facts: Table, tried: seq<nat>, limit: nat, from: nat)
    ensures var ids := SelectFrom(facts, tried, limit, from);
      forall id :: from <= id < |facts| && facts[id].vector == None && !facts[id].deleted && id !in tried && id !in ids ==>
        |ids| == limit && forall k :: 0 <= k < |ids| ==> ids[k] < id
    decreases |facts| - from
  {
    if limit > 0 && from < |facts| {
      SelectsFirst(facts, tried, if Wants(facts, tried, from) then limit - 1 else limit, from + 1);
    }
  }

  // Nothing selected: nothing wants a vector.
  lemma {:induction false} NoneSelected(facts: Table, tried: seq<nat>, limit: nat, id: nat)
    requires limit > 0 && SelectFrom(facts, tried, limit, id) == []
    ensures forall k :: id <= k ==> !Wants(facts, tried, k)
    decreases |facts| - id
  {
    if id < |facts| {
      NoneSelected(facts, tried, limit, id + 1);
    }
  }

  // Facts keep their places and texts, and a vector once there stays; a new one is of the fact's own text.
  ghost predicate Stays(was: Table, now: Table, embed: string -> Vector) {
    |now| == |was| && forall id :: 0 <= id < |was| ==>
      && now[id].text == was[id].text
      && (was[id].vector.Some? ==> now[id].vector == was[id].vector)
      && (was[id].vector.None? && now[id].vector.Some? ==> now[id].vector.value == embed(was[id].text))
  }

  lemma StaysSame(a: Table, embed: string -> Vector)
    ensures Stays(a, a, embed)
  {
  }

  lemma StaysOn(a: Table, b: Table, c: Table, embed: string -> Vector)
    requires Stays(a, b, embed) && Stays(b, c, embed)
    ensures Stays(a, c, embed)
  {
  }

  function WithVector(facts: Table): nat {
    if facts == [] then 0 else WithVector(facts[..|facts| - 1]) + if facts[|facts| - 1].vector.Some? then 1 else 0
  }

  lemma {:induction false} OneMore(facts: Table, id: nat, v: Vector)
    requires id < |facts|
    ensures WithVector(facts[id := facts[id].(vector := Some(v))])
      == WithVector(facts) + if facts[id].vector.None? then 1 else 0
    decreases |facts|
  {
    var now := facts[id := facts[id].(vector := Some(v))];
    var n := |facts| - 1;
    if id == n {
      assert now[..n] == facts[..n];
    } else {
      assert now[..n] == facts[..n][id := facts[id].(vector := Some(v))];
      OneMore(facts[..n], id, v);
    }
  }

  lemma {:induction false} SameVectors(was: Table, now: Table)
    requires |now| == |was| && forall id :: 0 <= id < |was| ==> now[id].vector == was[id].vector
    ensures WithVector(now) == WithVector(was)
    decreases |was|
  {
    if was != [] {
      SameVectors(was[..|was| - 1], now[..|now| - 1]);
    }
  }

  // The facts still to be tried, deleted ones too.
  function Open(facts: Table, tried: seq<nat>): set<nat> {
    set id | 0 <= id < |facts| && facts[id].vector.None? && id !in tried
  }

  class Facts {
    var facts: Table
    const embed: string -> Vector

    constructor (facts: Table, embed: string -> Vector)
      ensures this.facts == facts && this.embed == embed
    {
      this.facts, this.embed := facts, embed;
    }

    // Someone deletes facts, or restores them.
    method Others()
      modifies this
      ensures |facts| == |old(facts)|
      ensures forall id :: 0 <= id < |facts| ==> facts[id] == old(facts)[id].(deleted := facts[id].deleted)
      ensures WithVector(facts) == WithVector(old(facts))
    {
      var n: nat :| 0 <= n;
      while n > 0
        invariant |facts| == |old(facts)|
        invariant forall id :: 0 <= id < |facts| ==> facts[id] == old(facts)[id].(deleted := facts[id].deleted)
      {
        var id: int, gone: bool := *, *;
        if 0 <= id < |facts| {
          facts := facts[id := facts[id].(deleted := gone)];
        }
        n := n - 1;
      }
      SameVectors(old(facts), facts);
    }

    // UPDATE .. WHERE embedding IS NULL
    method Store(id: nat, v: Vector)
      requires id < |facts| && v == embed(facts[id].text)
      modifies this
      ensures Stays(old(facts), facts, embed)
      ensures facts == if old(facts)[id].vector.None? then old(facts)[id := old(facts)[id].(vector := Some(v))] else old(facts)
      ensures WithVector(facts) == WithVector(old(facts)) + if old(facts)[id].vector.None? then 1 else 0
    {
      if facts[id].vector.None? {
        OneMore(facts, id, v);
        facts := facts[id := facts[id].(vector := Some(v))];
      }
    }
  }

  lemma NothingWants(facts: Table, tried: seq<nat>, limit: nat)
    requires limit > 0 && Select(facts, tried, limit) == []
    ensures forall id :: 0 <= id < |facts| && !facts[id].deleted ==> facts[id].vector.Some? || id in tried
  {
    NoneSelected(facts, tried, limit, 0);
    forall id | 0 <= id < |facts| && !facts[id].deleted
      ensures facts[id].vector.Some? || id in tried
    {
      assert !Wants(facts, tried, id);
    }
  }

  lemma FewerOpen(was: Table, now: Table, embed: string -> Vector, tried: seq<nat>, later: seq<nat>, id: nat)
    requires Stays(was, now, embed) && tried <= later
    requires id < |was| && was[id].vector.None? && id !in tried && (now[id].vector.Some? || id in later)
    ensures Open(now, later) < Open(was, tried)
  {
    assert id in Open(was, tried) && id !in Open(now, later);
    forall k | k in Open(now, later)
      ensures k in Open(was, tried)
    {
      assert k !in tried;
    }
  }

  // Where a run's embedding stands: the facts that failed, how many of the last ones in a row for the
  // provider's sake, and how many got a vector.
  datatype Standing = Standing(tried: seq<nat>, streak: nat, embedded: nat)

  ghost predicate NoneTwice(tried: seq<nat>) {
    forall k, l :: 0 <= k < l < |tried| ==> tried[k] != tried[l]
  }

  // What the provider answers for a text: its vector, or a failure, for this fact's sake or its own.
  datatype Answer = Embedded(v: Vector) | Refused | Outage

  method Ask(text: string, embed: string -> Vector, healthy: bool) returns (answer: Answer)
    ensures answer.Embedded? ==> answer.v == embed(text)
    ensures healthy ==> answer.Embedded?
  {
    answer := *;
    if healthy || answer.Embedded? {
      answer := Embedded(embed(text));
    }
  }

  // The body of the loop over a batch: the fact has a vector now, or it has failed and is not tried again.
  method EmbedOne(db: Facts, id: nat, answer: Answer, was: Standing, maxSystemic: nat)
    returns (now: Standing, stopped: bool)
    requires id < |db.facts| && id !in was.tried && NoneTwice(was.tried) && db.facts[id].vector.None?
    requires was.streak <= |was.tried| && (answer.Embedded? ==> answer.v == db.embed(db.facts[id].text))
    modifies db
    ensures Stays(old(db.facts), db.facts, db.embed) && NoneTwice(now.tried) && |db.facts| == |old(db.facts)|
    ensures forall k :: 0 <= k < |db.facts| && k != id ==> db.facts[k].vector == old(db.facts)[k].vector
    ensures answer.Embedded? ==> now.tried == was.tried && db.facts[id].vector.Some? && now.streak == 0
    ensures !answer.Embedded? ==> now.tried == was.tried + [id] && db.facts[id].vector.None?
    ensures answer.Refused? ==> now.streak == 0
    ensures answer.Outage? ==> now.streak == was.streak + 1
    ensures WithVector(db.facts) + was.embedded == WithVector(old(db.facts)) + now.embedded
    ensures stopped <==> !answer.Embedded? && now.streak >= maxSystemic
  {
    db.Others();
    if !answer.Embedded? {
      now := was.(tried := was.tried + [id], streak := if answer.Outage? then was.streak + 1 else 0);
      return now, now.streak >= maxSystemic;
    }
    db.Store(id, answer.v);
    return was.(streak := 0, embedded := was.embedded + 1), false;
  }

  // One batch, as far as it goes.
  method EmbedBatch(db: Facts, rows: seq<nat>, was: Standing, maxSystemic: nat, healthy: bool)
    returns (now: Standing, stopped: bool)
    requires forall k :: 0 <= k < |rows| ==> Wants(db.facts, was.tried, rows[k])
    requires forall k, l :: 0 <= k < l < |rows| ==> rows[k] < rows[l]
    requires NoneTwice(was.tried) && was.streak <= |was.tried|
    modifies db
    ensures Stays(old(db.facts), db.facts, db.embed) && NoneTwice(now.tried) && now.streak <= |now.tried|
    ensures WithVector(db.facts) + was.embedded == WithVector(old(db.facts)) + now.embedded
    ensures was.tried <= now.tried
    ensures !stopped ==> forall k :: 0 <= k < |rows| ==>
      rows[k] < |db.facts| && (db.facts[rows[k]].vector.Some? || rows[k] in now.tried)
    ensures stopped ==> maxSystemic <= now.streak && now.tried != []
    ensures healthy ==> now.tried == was.tried && !stopped
  {
    hide Stays, NoneTwice, WithVector;
    StaysSame(db.facts, db.embed);
    now, stopped := was, false;
    for k := 0 to |rows|
      invariant |db.facts| == |old(db.facts)|
      invariant Stays(old(db.facts), db.facts, db.embed) && NoneTwice(now.tried) && now.streak <= |now.tried|
      invariant WithVector(db.facts) + was.embedded == WithVector(old(db.facts)) + now.embedded
      invariant was.tried <= now.tried
      invariant forall l :: 0 <= l < k ==> db.facts[rows[l]].vector.Some? || rows[l] in now.tried
      invariant forall l :: k <= l < |rows| ==> db.facts[rows[l]].vector.None? && rows[l] !in now.tried
      invariant healthy ==> now.tried == was.tried
    {
      ghost var before := db.facts;
      var answer := Ask(db.facts[rows[k]].text, db.embed, healthy);
      now, stopped := EmbedOne(db, rows[k], answer, now, maxSystemic);
      StaysOn(old(db.facts), before, db.facts, db.embed);
      if stopped { return; }
    }
    stopped := false;
  }

  // embed_pending. It ends; unless the provider failed so often in a row that it stopped, every fact that is
  // not deleted has its vector at the last look or has failed once, and no fact fails twice.
  method EmbedPending(db: Facts, batch: nat, maxSystemic: nat, healthy: bool) returns (end: Standing, stopped: bool)
    modifies db
    ensures Stays(old(db.facts), db.facts, db.embed) && NoneTwice(end.tried)
    ensures WithVector(db.facts) == WithVector(old(db.facts)) + end.embedded
    ensures batch > 0 && !stopped ==>
      forall id :: 0 <= id < |db.facts| && !db.facts[id].deleted ==> db.facts[id].vector.Some? || id in end.tried
    ensures stopped ==> maxSystemic <= end.streak && end.tried != []
    ensures end.streak <= |end.tried|
    ensures healthy ==> end.tried == [] && !stopped
  {
    end, stopped := Standing([], 0, 0), false;
    while true
      invariant Stays(old(db.facts), db.facts, db.embed) && NoneTwice(end.tried) && end.streak <= |end.tried|
      invariant WithVector(db.facts) == WithVector(old(db.facts)) + end.embedded
      invariant healthy ==> end.tried == []
      decreases Open(db.facts, end.tried)
    {
      hide Stays, Open, SelectFrom;
      ghost var was, tried := db.facts, end.tried;
      db.Others();
      var rows := Select(db.facts, end.tried, batch);
      if rows == [] {
        if batch > 0 { NothingWants(db.facts, end.tried, batch); }
        return;
      }
      ghost var looked := db.facts;
      end, stopped := EmbedBatch(db, rows, end, maxSystemic, healthy);
      StaysOn(was, looked, db.facts, db.embed);
      StaysOn(old(db.facts), was, db.facts, db.embed);
      if stopped { return; }
      FewerOpen(was, db.facts, db.embed, tried, end.tried, rows[0]);
    }
  }
}
