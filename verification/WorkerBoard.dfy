// The board under the worker (esp32-embedder/worker/worker.h, worker_io_t): its clock, and one pass of the
// model over packed messages.
module WorkerBoard {
  import opened Bytes
  import opened Results
  import opened WorkerPool

  function Total(lens: seq<nat>): nat {
    if lens == [] then 0 else Total(lens[..|lens| - 1]) + lens[|lens| - 1]
  }

  function Concat(segments: seq<seq<int>>): seq<int> {
    if segments == [] then [] else Concat(segments[..|segments| - 1]) + segments[|segments| - 1]
  }

  function Lengths(segments: seq<seq<int>>): (lens: seq<nat>)
    ensures |lens| == |segments| && forall k :: 0 <= k < |lens| ==> lens[k] == |segments[k]|
  {
    if segments == [] then [] else Lengths(segments[..|segments| - 1]) + [|segments[|segments| - 1]|]
  }

  // The ids of segment k, as the model finds them: after all those of the segments before.
  function Segment(ids: seq<int>, lens: seq<nat>, k: nat): seq<int>
    requires k < |lens| && Total(lens) <= |ids|
  {
    TotalPrefix(lens, k + 1);
    assert lens[..k + 1][..k] == lens[..k];
    ids[Total(lens[..k])..Total(lens[..k + 1])]
  }

  lemma {:induction false} TotalPrefix(lens: seq<nat>, k: nat)
    requires k <= |lens|
    ensures Total(lens[..k]) <= Total(lens)
    decreases |lens|
  {
    if k == |lens| {
      assert lens[..k] == lens;
    } else {
      assert lens[..|lens| - 1][..k] == lens[..k];
      TotalPrefix(lens[..|lens| - 1], k);
    }
  }

  lemma {:induction false} ConcatLength(segments: seq<seq<int>>)
    ensures Total(Lengths(segments)) == |Concat(segments)|
    decreases |segments|
  {
    if segments != [] {
      var n := |segments| - 1;
      assert Lengths(segments)[..n] == Lengths(segments[..n]);
      ConcatLength(segments[..n]);
    }
  }

  // What the model finds is what was packed.
  lemma {:induction false} SegmentOfConcat(segments: seq<seq<int>>, k: nat)
    requires k < |segments|
    ensures Total(Lengths(segments)) == |Concat(segments)|
    ensures Segment(Concat(segments), Lengths(segments), k) == segments[k]
    decreases |segments|
  {
    hide Total, Concat, Lengths;
    ConcatLength(segments);
    Unsnoc(segments);
    var n := |segments| - 1;
    var front, lens := segments[..n], Lengths(segments);
    ConcatLength(front);
    if k < n {
      SegmentOfConcat(front, k);
      TotalPrefix(Lengths(front), k + 1);
      TotalPrefix(lens[..k + 1], k);
      assert lens[..k + 1][..k] == lens[..k];
      assert lens[..k] == Lengths(front)[..k] && lens[..k + 1] == Lengths(front)[..k + 1];
      Inside(Concat(front), segments[n], Total(lens[..k]), Total(lens[..k + 1]));
    } else {
      assert lens[..k + 1] == lens;
    }
  }

  lemma Unsnoc(segments: seq<seq<int>>)
    requires segments != []
    ensures var n := |segments| - 1;
      && Concat(segments) == Concat(segments[..n]) + segments[n] && Lengths(segments)[..n] == Lengths(segments[..n])
  {
  }

  lemma Inside(a: seq<int>, b: seq<int>, i: nat, j: nat)
    requires i <= j <= |a|
    ensures (a + b)[i..j] == a[i..j]
  {
  }

  // The clock, and the pass.
  class Board {
    var time: int

    constructor (time: int)
      ensures this.time == time
    {
      this.time := time;
    }

    method Now() returns (t: int)
      modifies this
      ensures old(time) <= t == time
    {
      var d: nat :| 0 <= d;
      time := time + d;
      t := time;
    }

    // One pass over packed messages, at most what the activations hold: 0 and their vectors, or -1 and
    // nothing to go by, if the pass did not come back clean.
    method Embed(model: Model, ids: seq<int>, lens: seq<nat>, clean: bool) returns (rc: int, vecs: seq<seq<Bits>>, ms: nat)
      requires 0 < |lens| <= PASS_JOBS && Total(lens) == |ids| <= MAX_TOKENS
      modifies this
      ensures old(time) <= time && |vecs| == |lens| && rc == if clean then 0 else -1
      ensures rc == 0 ==> forall k :: 0 <= k < |vecs| ==> vecs[k] == model.embed(Segment(ids, lens, k))
    {
      var d: nat :| 0 <= d;
      time := time + d;
      ms := *;
      rc := if clean then 0 else -1;
      vecs := [];
      while |vecs| < |lens|
        invariant |vecs| <= |lens|
        invariant rc == 0 ==> forall k :: 0 <= k < |vecs| ==> vecs[k] == model.embed(Segment(ids, lens, k))
      {
        var v: seq<Bits> := *;
        vecs := vecs + [if rc == 0 then model.embed(Segment(ids, lens, |vecs|)) else v];
      }
    }
  }
}
