// The chunks that reads are cut into (esp32-embedder/firmware/full/main/full.c:163-224), numbered from the
// first: the one order in which the sd task produces and the cp task consumes them.
module PassChunks {
  import opened Bytes
  import opened CardFile
  import opened PassReads

  // A chunk of read n: len bytes from at.
  datatype Chunk = Chunk(n: nat, at: nat, len: nat)

  // A read the card can serve: inside the file, on a sector boundary, not empty.
  predicate Readable(m: Map, r: Read) {
    Sound(m) && r.len > 0 && r.off % SECTOR == 0 && r.off + r.len <= Size(m)
  }

  predicate AllReadable(m: Map, rs: seq<Read>) {
    forall n :: 0 <= n < |rs| ==> Readable(m, rs[n])
  }

  predicate Whole(rs: seq<Read>, c: Chunk)
    requires c.n < |rs|
  {
    c.at + c.len == rs[c.n].len
  }

  predicate Fits(m: Map, rs: seq<Read>, c: Chunk)
    requires AllReadable(m, rs)
  {
    && c.n < |rs| && c.at < rs[c.n].len && (rs[c.n].off + c.at) % SECTOR == 0
    && c.len == ChunkLen(m, rs[c.n].off + c.at, rs[c.n].len - c.at)
  }

  // b comes right after a.
  predicate Next(rs: seq<Read>, a: Chunk, b: Chunk) {
    a.n < |rs| && if Whole(rs, a) then b.n == a.n + 1 && b.at == 0 else b.n == a.n && b.at == a.at + a.len
  }

  // The chunks of the reads, all of them, in order.
  ghost predicate ChunksOk(m: Map, rs: seq<Read>, cs: seq<Chunk>) {
    && AllReadable(m, rs)
    && (forall k :: 0 <= k < |cs| ==> Fits(m, rs, cs[k]))
    && (cs != [] ==> cs[0].n == 0 && cs[0].at == 0)
    && (forall k :: 0 < k < |cs| ==> Next(rs, cs[k - 1], cs[k]))
    && (if rs == [] then cs == [] else cs != [] && cs[|cs| - 1].n == |rs| - 1 && Whole(rs, cs[|cs| - 1]))
  }

  // The chunks of read n from at on.
  function Cut(m: Map, r: Read, n: nat, at: nat): seq<Chunk>
    requires Readable(m, r) && at <= r.len && (at < r.len ==> (r.off + at) % SECTOR == 0)
    decreases r.len - at
  {
    if at == r.len then []
    else
      var len := ChunkLen(m, r.off + at, r.len - at);
      [Chunk(n, at, len)] + Cut(m, r, n, at + len)
  }

  // All the chunks of read n.
  function Pieces(m: Map, r: Read, n: nat): seq<Chunk> {
    if Readable(m, r) then Cut(m, r, n, 0) else []
  }

  lemma {:induction false} CutOk(m: Map, rs: seq<Read>, r: Read, at: nat)
    requires Readable(m, r) && AllReadable(m, rs + [r]) && at < r.len && (r.off + at) % SECTOR == 0
    ensures var cs := Cut(m, r, |rs|, at);
      && cs != [] && cs[0].n == |rs| && cs[0].at == at
      && (forall k :: 0 <= k < |cs| ==> Fits(m, rs + [r], cs[k]))
      && (forall k :: 0 < k < |cs| ==> Next(rs + [r], cs[k - 1], cs[k]))
      && cs[|cs| - 1].n == |rs| && Whole(rs + [r], cs[|cs| - 1])
    decreases r.len - at
  {
    hide ChunkLen, AllReadable, Cut, Fits, Next;
    CutFirst(m, rs, r, at);
    var c := Chunk(|rs|, at, ChunkLen(m, r.off + at, r.len - at));
    if at + c.len < r.len {
      CutOk(m, rs, r, at + c.len);
      CutCons(m, rs, r, c, Cut(m, r, |rs|, at + c.len));
    }
  }

  lemma CutFirst(m: Map, rs: seq<Read>, r: Read, at: nat)
    requires Readable(m, r) && AllReadable(m, rs + [r]) && at < r.len && (r.off + at) % SECTOR == 0
    ensures var c := Chunk(|rs|, at, ChunkLen(m, r.off + at, r.len - at));
      && Fits(m, rs + [r], c) && at + c.len <= r.len && (at + c.len < r.len ==> (r.off + (at + c.len)) % SECTOR == 0)
      && Cut(m, r, |rs|, at) == [c] + (if at + c.len < r.len then Cut(m, r, |rs|, at + c.len) else [])
  {
    hide ChunkLen, AllReadable;
    var len := ChunkLen(m, r.off + at, r.len - at);
    assert r.off + (at + len) == r.off + at + len;
  }

  lemma CutCons(m: Map, rs: seq<Read>, r: Read, c: Chunk, rest: seq<Chunk>)
    requires AllReadable(m, rs + [r]) && Fits(m, rs + [r], c) && c.n == |rs| && !Whole(rs + [r], c)
    requires rest != [] && rest[0].n == |rs| && rest[0].at == c.at + c.len
    requires forall k :: 0 <= k < |rest| ==> Fits(m, rs + [r], rest[k])
    requires forall k :: 0 < k < |rest| ==> Next(rs + [r], rest[k - 1], rest[k])
    ensures var cs := [c] + rest;
      && (forall k :: 0 <= k < |cs| ==> Fits(m, rs + [r], cs[k]))
      && (forall k :: 0 < k < |cs| ==> Next(rs + [r], cs[k - 1], cs[k]))
  {
    hide ChunkLen, AllReadable;
    var cs := [c] + rest;
    assert forall k :: 1 <= k < |cs| ==> cs[k] == rest[k - 1];
    assert cs[1] == rest[0];
  }

  lemma FitsStays(m: Map, rs: seq<Read>, r: Read, c: Chunk)
    requires AllReadable(m, rs) && AllReadable(m, rs + [r]) && Fits(m, rs, c)
    ensures Fits(m, rs + [r], c) && Whole(rs + [r], c) == Whole(rs, c)
  {
    hide ChunkLen;
  }

  // One more read, and its chunks after all the others.
  lemma ChunksMore(m: Map, rs: seq<Read>, cs: seq<Chunk>, r: Read)
    requires ChunksOk(m, rs, cs) && Readable(m, r)
    ensures ChunksOk(m, rs + [r], cs + Pieces(m, r, |rs|))
  {
    hide Cut, Next, Whole, ChunkLen, AllReadable;
    var more := Cut(m, r, |rs|, 0);
    var all, now := cs + more, rs + [r];
    ReadableMore(m, rs, r);
    CutOk(m, rs, r, 0);
    forall k | 0 <= k < |all|
      ensures Fits(m, now, all[k])
    {
      if k < |cs| {
        FitsStays(m, rs, r, cs[k]);
      } else {
        assert all[k] == more[k - |cs|];
      }
    }
    forall k | 0 < k < |all|
      ensures Next(now, all[k - 1], all[k])
    {
      if k < |cs| {
        NextStays(m, rs, r, cs[k - 1], cs[k]);
      } else if k == |cs| {
        NextRead(m, rs, r, cs[k - 1], more[0]);
      } else {
        assert all[k] == more[k - |cs|] && all[k - 1] == more[k - |cs| - 1];
      }
    }
    assert all[|all| - 1] == more[|more| - 1];
  }

  lemma ReadableMore(m: Map, rs: seq<Read>, r: Read)
    requires AllReadable(m, rs) && Readable(m, r)
    ensures AllReadable(m, rs + [r]) && r.len > 0 && r.off % SECTOR == 0
  {
  }

  lemma NextStays(m: Map, rs: seq<Read>, r: Read, a: Chunk, b: Chunk)
    requires AllReadable(m, rs) && Fits(m, rs, a) && Next(rs, a, b)
    ensures Next(rs + [r], a, b)
  {
    hide ChunkLen;
  }

  lemma NextRead(m: Map, rs: seq<Read>, r: Read, a: Chunk, b: Chunk)
    requires AllReadable(m, rs) && Fits(m, rs, a) && a.n == |rs| - 1 && Whole(rs, a) && b.n == |rs| && b.at == 0
    ensures Next(rs + [r], a, b)
  {
    hide ChunkLen;
  }

  // ---- how far c chunks take the reads ------------------------------------------------------------------

  // The reads complete once c chunks are.
  function Completed(rs: seq<Read>, cs: seq<Chunk>, c: nat): nat {
    if c == 0 || c > |cs| || cs[c - 1].n >= |rs| then 0 else if Whole(rs, cs[c - 1]) then cs[c - 1].n + 1 else cs[c - 1].n
  }

  // A chunk not done yet is of a read not complete yet.
  lemma {:induction false} ChunkAfter(m: Map, rs: seq<Read>, cs: seq<Chunk>, c: nat, k: nat)
    requires ChunksOk(m, rs, cs) && c <= k < |cs|
    ensures Completed(rs, cs, c) <= cs[k].n < |rs|
    decreases k
  {
    hide ChunkLen, AllReadable;
    assert Fits(m, rs, cs[k]);
    if c > 0 {
      assert Fits(m, rs, cs[c - 1]);
    }
    if c < k {
      assert Fits(m, rs, cs[k - 1]);
      ChunkAfter(m, rs, cs, c, k - 1);
      assert Next(rs, cs[k - 1], cs[k]);
    } else if k > 0 {
      assert Next(rs, cs[k - 1], cs[k]);
    }
  }

  lemma CompletedGrows(m: Map, rs: seq<Read>, cs: seq<Chunk>, c: nat)
    requires ChunksOk(m, rs, cs) && c < |cs|
    ensures Completed(rs, cs, c + 1) == cs[c].n + (if Whole(rs, cs[c]) then 1 else 0)
    ensures Completed(rs, cs, c) == cs[c].n && cs[c].n < |rs|
  {
    hide ChunkLen, AllReadable;
    ChunkAfter(m, rs, cs, c, c);
    assert Fits(m, rs, cs[c]);
    if c > 0 {
      assert Fits(m, rs, cs[c - 1]);
      assert Next(rs, cs[c - 1], cs[c]);
    }
  }

  // More reads change nothing about the chunks there were.
  lemma CompletedStays(m: Map, rs: seq<Read>, cs: seq<Chunk>, r: Read, more: seq<Chunk>, c: nat)
    requires ChunksOk(m, rs, cs) && c <= |cs|
    ensures Completed(rs + [r], cs + more, c) == Completed(rs, cs, c) <= |rs|
  {
    hide ChunkLen, AllReadable;
    if c > 0 {
      assert Fits(m, rs, cs[c - 1]);
    }
  }
}
