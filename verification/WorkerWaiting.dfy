// How long a pending job waits: by the jobs ahead of it.
module WorkerWaiting {
  // Some job at or before each one still pending has left.
  predicate Moved(was: set<nat>, now: set<nat>) {
    forall r :: r in now ==> exists s :: s in was && s !in now && s < r
  }

  // The jobs ahead of a receipt.
  function Ahead(waiting: set<nat>, r: nat): nat {
    |set x | x in waiting && x < r|
  }

  // Nothing given out before next has joined; and whoever still waits has at least so many fewer ahead.
  ghost predicate Waits(was: set<nat>, now: set<nat>, next: nat, turns: int) {
    && (forall r :: r in now ==> r in was || r >= next)
    && (forall r :: r in was && r in now && r < next ==> Ahead(now, r) + turns <= Ahead(was, r))
  }

  lemma NoWait(waiting: set<nat>, next: nat)
    ensures Waits(waiting, waiting, next, 0)
  {
  }

  lemma AheadFewer(was: set<nat>, now: set<nat>, r: nat, next: nat)
    requires r < next && forall x :: x in now && x < next ==> x in was
    ensures Ahead(now, r) <= Ahead(was, r)
    ensures (exists x :: x in was && x !in now && x < r) ==> Ahead(now, r) < Ahead(was, r)
  {
    var a, b := set x | x in now && x < r, set x | x in was && x < r;
    assert a <= b;
    SubsetSize(a, b);
    if x :| x in was && x !in now && x < r {
      assert a <= b - {x};
      SubsetSize(a, b - {x});
    }
  }

  lemma {:induction false} SubsetSize(a: set<nat>, b: set<nat>)
    requires a <= b
    ensures |a| <= |b|
    decreases |a|
  {
    if a != {} {
      var x :| x in a;
      SubsetSize(a - {x}, b - {x});
    }
  }

  lemma Fewer(was: set<nat>, now: set<nat>, next: nat)
    requires now <= was
    ensures Waits(was, now, next, 0)
  {
    hide Ahead;
    forall r | r in was && r in now && r < next
      ensures Ahead(now, r) <= Ahead(was, r)
    {
      AheadFewer(was, now, r, next);
    }
  }

  // Arrivals come behind; a pass takes one from ahead.
  lemma Waited(was: set<nat>, waiting: set<nat>, now: set<nat>, next: nat, turns: int)
    requires forall r :: r in waiting ==> r in was || r >= next
    requires now <= waiting && (turns == 0 || (turns == 1 && Moved(waiting, now)))
    ensures Waits(was, now, next, turns)
  {
    hide Ahead;
    forall r | r in was && r in now && r < next
      ensures Ahead(now, r) + turns <= Ahead(was, r)
    {
      AheadFewer(was, waiting, r, next);
      AheadFewer(waiting, now, r, next);
    }
  }

  lemma WaitsOn(a: set<nat>, b: set<nat>, c: set<nat>, next: nat, later: nat, turns: int, more: int)
    requires Waits(a, b, next, turns) && Waits(b, c, later, more) && next <= later
    ensures Waits(a, c, next, turns + more)
  {
    hide Ahead;
  }

  lemma WaitsSays(was: set<nat>, now: set<nat>, next: nat, turns: int)
    requires Waits(was, now, next, turns) && forall r :: r in was ==> r < next
    ensures forall r :: r in was && r in now ==> Ahead(now, r) + turns <= Ahead(was, r)
  {
    hide Ahead;
  }
}
