// The background reader (esp32-embedder/firmware/full/main/full.c:150-252): a ring of requests, an sd task
// that reads chunks into two bounce buffers in turn, and a cp task that copies them on and checks their
// CRCs, interleaved in any way their queues and semaphores allow.
module PassReader {
  import opened Bytes
  import opened CardFile
  import opened PassReads
  import opened PassChunks

  const SLOTS: nat := 32
  const PIECES: nat := 4

  // chunk_t: the request's slot, where its bytes go, the bounce buffer they are in.
  datatype Piece = Piece(slot: nat, dst: Buffer, at: nat, bi: nat, len: nat, first: bool, last: bool)

  // Where each task stands.
  datatype Sd = Idle | Reading(slot: nat, at: nat) | Taken(slot: nat, at: nat) | Filled(slot: nat, at: nat)
  datatype Cp = Ready | Received(piece: Piece) | Summed(piece: Piece) | Copied(piece: Piece) | Given(piece: Piece)

  function Slot(slot0: nat, n: nat): (s: nat)
    ensures s < SLOTS
  {
    (slot0 + n) % SLOTS
  }

  function Bi(bi0: nat, k: nat): (b: nat)
    ensures b < 2
  {
    (bi0 + k) % 2
  }

  lemma SlotsApart(slot0: nat, a: nat, b: nat)
    requires a < b < a + SLOTS
    ensures Slot(slot0, a) != Slot(slot0, b)
  {
  }

  function PieceOf(rs: seq<Read>, slot0: nat, bi0: nat, c: Chunk, k: nat): Piece
    requires c.n < |rs|
  {
    Piece(Slot(slot0, c.n), rs[c.n].dst, c.at, Bi(bi0, k), c.len, c.at == 0, Whole(rs, c))
  }

  // What the card gives: the byte at each place of each read, whatever it should be.
  type Feed = (nat, nat) -> byte

  function Got(card: Feed, n: nat, at: nat, len: nat): (bytes: seq<byte>)
    ensures |bytes| == len && forall i :: 0 <= i < len ==> bytes[i] == card(n, at + i)
  {
    seq(len, i requires 0 <= i < len => card(n, at + i))
  }

  lemma GotSplit(card: Feed, n: nat, at: nat, a: nat, b: nat)
    ensures Got(card, n, at, a + b) == Got(card, n, at, a) + Got(card, n, at + a, b)
  {
    hide Got;
  }

  // The bytes of a chunk.
  function Data(card: Feed, c: Chunk): (bytes: seq<byte>)
    ensures |bytes| == c.len
  {
    Got(card, c.n, c.at, c.len)
  }

  lemma Readable_(m: Map, rs: seq<Read>, n: nat)
    requires AllReadable(m, rs) && n < |rs|
    ensures Readable(m, rs[n])
  {
  }

  // ---- sums ---------------------------------------------------------------------------------------------

  // The reads are a chain of whole sections, all of them inside the file.
  ghost predicate Chain(m: Map, tab: Table, rs: seq<Read>) {
    AllReadable(m, rs) && AllChained(tab, rs)
  }

  // What has come of the section from its start to w bytes into read n.
  function Covered(card: Feed, rs: seq<Read>, n: nat, w: nat): seq<byte>
    requires n < |rs|
    decreases n
  {
    (if n == 0 || rs[n].reset then [] else Covered(card, rs, n - 1, rs[n - 1].len)) + Got(card, n, 0, w)
  }

  lemma CoveredOn(card: Feed, rs: seq<Read>, n: nat, at: nat, len: nat)
    requires n < |rs|
    ensures Covered(card, rs, n, at + len) == Covered(card, rs, n, at) + Got(card, n, at, len)
  {
    hide Got;
    GotSplit(card, n, 0, at, len);
    var before := if n == 0 || rs[n].reset then [] else Covered(card, rs, n - 1, rs[n - 1].len);
    assert before + (Got(card, n, 0, at) + Got(card, n, at, len)) == before + Got(card, n, 0, at) + Got(card, n, at, len);
  }

  lemma CoveredFirst(card: Feed, rs: seq<Read>, n: nat)
    requires n < |rs|
    ensures Covered(card, rs, n, 0) == if n == 0 || rs[n].reset then [] else Covered(card, rs, n - 1, rs[n - 1].len)
  {
  }

  function AccOf(r: Read, slot: nat, own: seq<int>, wq: seq<int>): int
    requires slot < |own| && (r.acc.Shared? ==> r.acc.p < |wq|)
  {
    if r.acc.Own? then own[slot] else wq[r.acc.p]
  }

  predicate TwoSums(rs: seq<Read>) {
    forall n :: 0 <= n < |rs| && rs[n].acc.Shared? ==> rs[n].acc.p < 2
  }

  // After c chunks the sum of the last one's read is that of its section so far, unless the read is done
  // with and its slot may have been used again.
  ghost predicate SumOk(m: Map, card: Feed, tab: Table, step: (int, byte) -> int, rs: seq<Read>, cs: seq<Chunk>, c: nat, over: nat,
                        slot0: nat, own: seq<int>, wq: seq<int>)
    requires |own| == SLOTS && |wq| == 2
  {
    && Chain(m, tab, rs) && ChunksOk(m, rs, cs) && TwoSums(rs)
    && (0 < c <= |cs| ==>
          var ch := cs[c - 1];
          (rs[ch.n].acc.Shared? || ch.n >= over) ==>
            AccOf(rs[ch.n], Slot(slot0, ch.n), own, wq) == Crc(step, 0, Covered(card, rs, ch.n, ch.at + ch.len)))
  }

  lemma Facts(m: Map, tab: Table, rs: seq<Read>, ch: Chunk)
    requires Chain(m, tab, rs) && TwoSums(rs)
    ensures Fits(m, rs, ch) ==>
      && Readable(m, rs[ch.n]) && tab.start(rs[ch.n].li, rs[ch.n].sec) <= rs[ch.n].off && ch.at + ch.len <= rs[ch.n].len
      && 0 < ch.len
  {
    if Fits(m, rs, ch) {
      assert Readable(m, rs[ch.n]);
      assert Chained(tab, rs, ch.n);
    }
  }

  // What the sum stands at when chunk k comes: its section up to the chunk.
  lemma SumBefore(m: Map, card: Feed, tab: Table, step: (int, byte) -> int, rs: seq<Read>, cs: seq<Chunk>, k: nat, over: nat,
                  slot0: nat, own: seq<int>, wq: seq<int>)
    requires |own| == SLOTS && |wq| == 2 && SumOk(m, card, tab, step, rs, cs, k, over, slot0, own, wq)
    requires k < |cs| && over <= cs[k].n
    ensures Fits(m, rs, cs[k])
    ensures var r, at := rs[cs[k].n], cs[k].at;
      (if at == 0 && r.reset then 0 else AccOf(r, Slot(slot0, cs[k].n), own, wq)) == Crc(step, 0, Covered(card, rs, cs[k].n, at))
  {
    hide ChunkLen, Covered, Crc, AllReadable;
    Facts(m, tab, rs, cs[k]);
    assert Chained(tab, rs, cs[k].n);
    if k > 0 {
      assert Next(rs, cs[k - 1], cs[k]);
      Facts(m, tab, rs, cs[k - 1]);
    }
    CoveredFirst(card, rs, cs[k].n);
    NoSum(step);
  }

  lemma NoSum(step: (int, byte) -> int)
    ensures Crc(step, 0, []) == 0
  {
  }

  lemma SumAfter(card: Feed, step: (int, byte) -> int, rs: seq<Read>, c: Chunk, base: int)
    requires c.n < |rs| && base == Crc(step, 0, Covered(card, rs, c.n, c.at))
    ensures Crc(step, base, Data(card, c)) == Crc(step, 0, Covered(card, rs, c.n, c.at + c.len))
  {
    hide Covered, Crc, Got;
    CoveredOn(card, rs, c.n, c.at, c.len);
    CrcOn(step, 0, Covered(card, rs, c.n, c.at), Got(card, c.n, c.at, c.len));
  }

  // ---- memory -------------------------------------------------------------------------------------------

  predicate Roomy(rs: seq<Read>, mem: map<Buffer, seq<byte>>) {
    forall n :: 0 <= n < |rs| ==> rs[n].dst in mem && rs[n].len <= |mem[rs[n].dst]|
  }

  // How much of read n is there when chunk ch is the last copied.
  function Landed(rs: seq<Read>, ch: Chunk, n: nat): nat
    requires n < |rs|
  {
    if n == ch.n then ch.at + ch.len else rs[n].len
  }

  // The buffer begins with the first w bytes that read n has brought.
  predicate Holds(card: Feed, mem: map<Buffer, seq<byte>>, b: Buffer, n: nat, w: nat) {
    b in mem && w <= |mem[b]| && mem[b][..w] == Got(card, n, 0, w)
  }

  // Every buffer holds what has landed of the last read begun into it.
  ghost predicate MemOk(m: Map, card: Feed, rs: seq<Read>, cs: seq<Chunk>, c: nat, mem: map<Buffer, seq<byte>>) {
    && ChunksOk(m, rs, cs) && Roomy(rs, mem)
    && (0 < c <= |cs| ==> MemUpTo(m, card, rs, cs[c - 1], mem))
  }

  ghost predicate MemUpTo(m: Map, card: Feed, rs: seq<Read>, ch: Chunk, mem: map<Buffer, seq<byte>>)
    requires AllReadable(m, rs) && Fits(m, rs, ch)
  {
    forall b: Buffer :: BufferOk(m, card, rs, ch, b, mem)
  }

  ghost predicate BufferOk(m: Map, card: Feed, rs: seq<Read>, ch: Chunk, b: Buffer, mem: map<Buffer, seq<byte>>)
    requires AllReadable(m, rs) && Fits(m, rs, ch)
  {
    var l := Last(rs[..ch.n + 1], b);
    l.Some? ==>
      Landed(rs, ch, l.value) <= rs[l.value].len && Holds(card, mem, b, l.value, Landed(rs, ch, l.value))
  }

  function Splice(buf: seq<byte>, at: nat, data: seq<byte>): seq<byte>
    requires at + |data| <= |buf|
  {
    buf[..at] + data + buf[at + |data|..]
  }

  // The chunk lands in its buffer right after what is there of its read.
  lemma CopySame(card: Feed, mem: map<Buffer, seq<byte>>, b: Buffer, n: nat, at: nat, data: seq<byte>)
    requires data == Got(card, n, at, |data|)
    requires b in mem && at + |data| <= |mem[b]| && Holds(card, mem, b, n, at)
    ensures Holds(card, mem[b := Splice(mem[b], at, data)], b, n, at + |data|)
  {
    hide Got;
    GotSplit(card, n, 0, at, |data|);
    var buf := mem[b];
    assert Splice(buf, at, data)[..at + |data|] == buf[..at] + data;
  }

  lemma HoldsNothing(card: Feed, mem: map<Buffer, seq<byte>>, b: Buffer, n: nat)
    requires b in mem
    ensures Holds(card, mem, b, n, 0)
  {
  }

  lemma CopyElsewhere(card: Feed, mem: map<Buffer, seq<byte>>, dst: Buffer, buf: seq<byte>, b: Buffer, n: nat, w: nat)
    requires b != dst && Holds(card, mem, b, n, w)
    ensures Holds(card, mem[dst := buf], b, n, w)
  {
    hide Got;
  }

  lemma Before(m: Map, card: Feed, rs: seq<Read>, cs: seq<Chunk>, k: nat, mem: map<Buffer, seq<byte>>, b: Buffer)
    requires MemOk(m, card, rs, cs, k, mem) && k < |cs|
    ensures AllReadable(m, rs) && Fits(m, rs, cs[k]) && Roomy(rs, mem) && (k == 0 ==> cs[k].n == 0 && cs[k].at == 0)
    ensures k > 0 ==> Fits(m, rs, cs[k - 1]) && Next(rs, cs[k - 1], cs[k]) && BufferOk(m, card, rs, cs[k - 1], b, mem)
  {
    hide ChunkLen, AllReadable, BufferOk;
  }

  // The buffer of chunk k's read.
  lemma CopyHere(m: Map, card: Feed, rs: seq<Read>, cs: seq<Chunk>, k: nat, mem: map<Buffer, seq<byte>>)
    requires MemOk(m, card, rs, cs, k, mem) && k < |cs|
    ensures var c := cs[k]; var dst := rs[c.n].dst;
      && dst in mem && c.at + |Data(card, c)| <= |mem[dst]|
      && BufferOk(m, card, rs, c, dst, mem[dst := Splice(mem[dst], c.at, Data(card, c))])
  {
    hide ChunkLen, Got, AllReadable, Last, Holds, Splice, ChunksOk, MemUpTo;
    ChunkFits(m, rs, cs, k);
    Before(m, card, rs, cs, k, mem, rs[cs[k].n].dst);
    var c := cs[k];
    var r := rs[c.n];
    LastIs(rs[..c.n + 1], r.dst);
    if c.at == 0 {
      HoldsNothing(card, mem, r.dst, c.n);
    }
    CopySame(card, mem, r.dst, c.n, c.at, Data(card, c));
  }

  // Any other.
  lemma CopyThere(m: Map, card: Feed, rs: seq<Read>, cs: seq<Chunk>, k: nat, mem: map<Buffer, seq<byte>>, b: Buffer, buf: seq<byte>)
    requires MemOk(m, card, rs, cs, k, mem) && k < |cs| && b != rs[cs[k].n].dst
    ensures BufferOk(m, card, rs, cs[k], b, mem[rs[cs[k].n].dst := buf])
  {
    hide ChunkLen, AllReadable, Last, Holds, ChunksOk, MemOk, MemUpTo;
    Before(m, card, rs, cs, k, mem, b);
    var c := cs[k];
    var started := rs[..c.n + 1];
    LastSkips(started, b);
    assert started[..c.n] == rs[..c.n];
    var l := Last(started, b);
    if l.Some? {
      assert k > 0;
      CopyElsewhere(card, mem, rs[c.n].dst, buf, b, l.value, rs[l.value].len);
    }
  }

  // After chunk k is copied, every buffer is as it should be.
  lemma CopyKeeps(m: Map, card: Feed, rs: seq<Read>, cs: seq<Chunk>, k: nat, mem: map<Buffer, seq<byte>>)
    requires MemOk(m, card, rs, cs, k, mem) && k < |cs|
    ensures var c := cs[k]; var dst := rs[c.n].dst;
      && dst in mem && c.at + |Data(card, c)| <= |mem[dst]|
      && MemOk(m, card, rs, cs, k + 1, mem[dst := Splice(mem[dst], c.at, Data(card, c))])
  {
    hide ChunkLen, AllReadable, Last, Holds, BufferOk, Data, ChunksOk;
    CopyHere(m, card, rs, cs, k, mem);
    var c := cs[k];
    ChunkFits(m, rs, cs, k);
    var dst := rs[c.n].dst;
    var buf := Splice(mem[dst], c.at, Data(card, c));
    var after := mem[dst := buf];
    forall b: Buffer | true
      ensures BufferOk(m, card, rs, c, b, after)
    {
      if b != dst {
        CopyThere(m, card, rs, cs, k, mem, b, buf);
      }
    }
  }

  lemma ChunkFits(m: Map, rs: seq<Read>, cs: seq<Chunk>, k: nat)
    requires ChunksOk(m, rs, cs) && k < |cs|
    ensures AllReadable(m, rs) && Fits(m, rs, cs[k]) && cs[k].n < |rs|
  {
  }

  lemma LastIs(rs: seq<Read>, b: Buffer)
    requires rs != [] && rs[|rs| - 1].dst == b
    ensures Last(rs, b) == Some(|rs| - 1)
  {
  }

  lemma LastSkips(rs: seq<Read>, b: Buffer)
    requires rs != [] && rs[|rs| - 1].dst != b
    ensures Last(rs, b) == Last(rs[..|rs| - 1], b)
  {
  }

  // ---- bounce buffers ---------------------------------------------------------------------------------------

  predicate NoneIn(bi0: nat, b: nat, lo: nat, hi: nat) {
    forall k :: lo <= k < hi ==> Bi(bi0, k) != b
  }

  // Chunks from given to taken have their buffers, two at most, and those filled are in them.
  ghost predicate BounceOk(m: Map, card: Feed, rs: seq<Read>, cs: seq<Chunk>, bi0: nat, given: nat, filled: nat, taken: nat,
                           free: seq<bool>, bounce: seq<seq<byte>>)
  {
    && ChunksOk(m, rs, cs) && given <= filled <= taken <= given + 2 && filled <= |cs| && |free| == 2 && |bounce| == 2
    && free[0] == NoneIn(bi0, 0, given, taken) && free[1] == NoneIn(bi0, 1, given, taken)
    && forall k :: given <= k < filled ==> bounce[Bi(bi0, k)] == Data(card, cs[k])
  }

  lemma TakeKeeps(m: Map, card: Feed, rs: seq<Read>, cs: seq<Chunk>, bi0: nat, given: nat, taken: nat, free: seq<bool>, bounce: seq<seq<byte>>)
    requires BounceOk(m, card, rs, cs, bi0, given, taken, taken, free, bounce) && free[Bi(bi0, taken)]
    ensures |free| == 2 && BounceOk(m, card, rs, cs, bi0, given, taken, taken + 1, free[Bi(bi0, taken) := false], bounce)
  {
    hide Data, ChunksOk, Bi, NoneIn;
    TwoApart(bi0, taken);
    NoneInMore(bi0, 0, given, taken);
    NoneInMore(bi0, 1, given, taken);
    if taken == given + 2 {
      NotNone(bi0, given, taken);
    }
  }

  lemma TwoApart(bi0: nat, k: nat)
    ensures Bi(bi0, k + 2) == Bi(bi0, k) && Bi(bi0, k + 1) == 1 - Bi(bi0, k)
  {
  }

  lemma NotNone(bi0: nat, lo: nat, hi: nat)
    requires hi == lo + 2
    ensures !NoneIn(bi0, Bi(bi0, hi), lo, hi)
  {
    TwoApart(bi0, lo);
  }

  lemma NoneInMore(bi0: nat, b: nat, lo: nat, hi: nat)
    requires lo <= hi
    ensures NoneIn(bi0, b, lo, hi + 1) == (NoneIn(bi0, b, lo, hi) && Bi(bi0, hi) != b)
  {
    hide Bi;
  }

  lemma FillKeeps(m: Map, card: Feed, rs: seq<Read>, cs: seq<Chunk>, bi0: nat, given: nat, filled: nat, free: seq<bool>, bounce: seq<seq<byte>>, data: seq<byte>)
    requires BounceOk(m, card, rs, cs, bi0, given, filled, filled + 1, free, bounce) && filled < |cs|
    requires Fits(m, rs, cs[filled]) && data == Data(card, cs[filled])
    ensures |bounce| == 2 && BounceOk(m, card, rs, cs, bi0, given, filled + 1, filled + 1, free, bounce[Bi(bi0, filled) := data])
  {
    hide Data, ChunksOk;
  }

  lemma GiveKeeps(m: Map, card: Feed, rs: seq<Read>, cs: seq<Chunk>, bi0: nat, given: nat, filled: nat, taken: nat, free: seq<bool>, bounce: seq<seq<byte>>)
    requires BounceOk(m, card, rs, cs, bi0, given, filled, taken, free, bounce) && given < filled
    ensures |free| == 2 && BounceOk(m, card, rs, cs, bi0, given + 1, filled, taken, free[Bi(bi0, given) := true], bounce)
  {
    hide Data, ChunksOk;
  }

  // ---- the ring -----------------------------------------------------------------------------------------------

  // No slot of a read under way is another's.
  ghost predicate RingOk(rs: seq<Read>, over: nat, slot0: nat, ring: seq<Read>) {
    && |ring| == SLOTS && over <= |rs| <= over + SLOTS
    && forall n :: over <= n < |rs| ==> ring[Slot(slot0, n)] == rs[n]
  }

  lemma IssueKeeps(rs: seq<Read>, over: nat, slot0: nat, ring: seq<Read>, r: Read)
    requires RingOk(rs, over, slot0, ring) && |rs| - over < SLOTS
    ensures |ring| == SLOTS && RingOk(rs + [r], over, slot0, ring[Slot(slot0, |rs|) := r])
  {
    hide Slot;
    forall n | over <= n < |rs|
      ensures Slot(slot0, n) != Slot(slot0, |rs|)
    {
      SlotsApart(slot0, n, |rs|);
    }
  }

  // A slot's semaphore says whether its last read is done with and nobody has waited for it yet.
  ghost predicate DoneOk(rs: seq<Read>, over: nat, slot0: nat, done: seq<bool>, waited: set<nat>) {
    && |done| == SLOTS
    && forall n :: 0 <= n < |rs| < n + SLOTS + 1 ==> done[Slot(slot0, n)] == (n < over && n !in waited)
  }

  lemma ClearKeeps(rs: seq<Read>, over: nat, slot0: nat, done: seq<bool>, waited: set<nat>, r: Read)
    requires DoneOk(rs, over, slot0, done, waited) && over <= |rs| && forall n :: n in waited ==> n < |rs|
    ensures |done| == SLOTS && DoneOk(rs + [r], over, slot0, done[Slot(slot0, |rs|) := false], waited)
  {
    hide Slot;
    forall n | 0 <= n < |rs| < n + SLOTS
      ensures Slot(slot0, n) != Slot(slot0, |rs|)
    {
      SlotsApart(slot0, n, |rs|);
    }
  }

  lemma GaveKeeps(rs: seq<Read>, over: nat, slot0: nat, done: seq<bool>, waited: set<nat>)
    requires DoneOk(rs, over, slot0, done, waited) && over < |rs| <= over + SLOTS && over !in waited
    ensures |done| == SLOTS && DoneOk(rs, over + 1, slot0, done[Slot(slot0, over) := true], waited)
  {
    hide Slot;
    forall n: nat | n < |rs| < n + SLOTS + 1 && n != over
      ensures Slot(slot0, n) != Slot(slot0, over)
    {
      SlotsApart(slot0, if n < over then n else over, if n < over then over else n);
    }
  }

  lemma TookKeeps(rs: seq<Read>, over: nat, slot0: nat, done: seq<bool>, waited: set<nat>, w: nat)
    requires DoneOk(rs, over, slot0, done, waited) && w < |rs| <= w + SLOTS
    ensures |done| == SLOTS && DoneOk(rs, over, slot0, done[Slot(slot0, w) := false], waited + {w})
  {
    hide Slot;
    forall n: nat | n < |rs| < n + SLOTS + 1 && n != w
      ensures Slot(slot0, n) != Slot(slot0, w)
    {
      SlotsApart(slot0, if n < w then n else w, if n < w then w else n);
    }
  }
}
