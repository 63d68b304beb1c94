// The sd task, the cp task and their callers, statement by statement
// (esp32-embedder/firmware/full/main/full.c:166-224): whatever runs next, every chunk goes where it should,
// and nothing waits for ever.
module PassTasks {
  import opened Bytes
  import opened CardFile
  import opened PassPlan
  import opened PassReads
  import opened PassChunks
  import opened PassReader

  function HeldTo(finished: nat, cp: Cp): nat { finished + if cp.Ready? then 0 else 1 }

  function SummedTo(finished: nat, cp: Cp): nat { finished + if cp.Summed? || cp.Copied? || cp.Given? then 1 else 0 }

  function CopiedTo(finished: nat, cp: Cp): nat { finished + if cp.Copied? || cp.Given? then 1 else 0 }

  function GivenTo(finished: nat, cp: Cp): nat { finished + if cp.Given? then 1 else 0 }

  function TakenTo(sent: nat, sd: Sd): nat { sent + if sd.Taken? || sd.Filled? then 1 else 0 }

  function FilledTo(sent: nat, sd: Sd): nat { sent + if sd.Filled? then 1 else 0 }

  // The sd task is at chunk sent, of the last request it has got; the rest of the requests are queued.
  ghost predicate SdOk(m: Map, rs: seq<Read>, cs: seq<Chunk>, got: nat, sent: nat, sd: Sd, slot0: nat, rq: seq<nat>) {
    && ChunksOk(m, rs, cs) && got <= |rs| && sent <= |cs|
    && |rq| == |rs| - got && (forall i :: 0 <= i < |rq| ==> rq[i] == Slot(slot0, got + i))
    && (if sd.Idle? then if got == 0 then sent == 0 else sent > 0 && cs[sent - 1].n == got - 1 && Whole(rs, cs[sent - 1])
        else got > 0 && sent < |cs| && cs[sent].n == got - 1 && cs[sent].at == sd.at && sd.slot == Slot(slot0, got - 1))
  }

  // The cp task is at chunk finished; those from there to sent are queued.
  ghost predicate CpOk(m: Map, rs: seq<Read>, cs: seq<Chunk>, sent: nat, finished: nat, cp: Cp, slot0: nat, bi0: nat, cq: seq<Piece>) {
    && ChunksOk(m, rs, cs) && HeldTo(finished, cp) <= sent <= |cs|
    && |cq| == sent - HeldTo(finished, cp) <= PIECES
    && (forall i :: 0 <= i < |cq| ==> PieceAt(m, rs, cs, slot0, bi0, HeldTo(finished, cp) + i, cq[i]))
    && (!cp.Ready? ==> PieceAt(m, rs, cs, slot0, bi0, finished, cp.piece))
  }

  // The piece is chunk k.
  predicate PieceAt(m: Map, rs: seq<Read>, cs: seq<Chunk>, slot0: nat, bi0: nat, k: nat, p: Piece) {
    ChunkN(m, rs, cs, k) && p == PieceOf(rs, slot0, bi0, cs[k], k)
  }

  predicate ChunkN(m: Map, rs: seq<Read>, cs: seq<Chunk>, k: nat) {
    k < |cs| && cs[k].n < |rs|
  }

  // Sections that came with another CRC than they should, among the first reads.
  function Mismatches(card: Feed, tab: Table, step: (int, byte) -> int, rs: seq<Read>, over: nat): nat {
    if over == 0 || over > |rs| then 0
    else Mismatches(card, tab, step, rs, over - 1) + if rs[over - 1].verify && !Good(card, tab, step, rs, over - 1) then 1 else 0
  }

  // What came of the section that ends with read n has the CRC it should.
  predicate Good(card: Feed, tab: Table, step: (int, byte) -> int, rs: seq<Read>, n: nat)
    requires n < |rs|
  {
    Crc(step, 0, Covered(card, rs, n, rs[n].len)) == tab.want(rs[n].li, rs[n].sec)
  }

  ghost predicate QueuesOk(m: Map, rs: seq<Read>, cs: seq<Chunk>, got: nat, sent: nat, finished: nat, sd: Sd, cp: Cp,
                           slot0: nat, bi0: nat, rq: seq<nat>, cq: seq<Piece>, sdBi: nat) {
    && SdOk(m, rs, cs, got, sent, sd, slot0, rq)
    && CpOk(m, rs, cs, sent, finished, cp, slot0, bi0, cq)
    && sdBi == Bi(bi0, sent)
  }

  ghost predicate SlotsOk(rs: seq<Read>, over: nat, slot0: nat, ring: seq<Read>, done: seq<bool>, waited: set<nat>, reqNext: nat) {
    && RingOk(rs, over, slot0, ring) && DoneOk(rs, over, slot0, done, waited)
    && (forall n :: n in waited ==> n < over) && reqNext % SLOTS == Slot(slot0, |rs|)
  }

  ghost predicate BuffersOk(m: Map, card: Feed, rs: seq<Read>, cs: seq<Chunk>, finished: nat, sent: nat, sd: Sd, cp: Cp, bi0: nat,
                            free: seq<bool>, bounce: seq<seq<byte>>, mem: map<Buffer, seq<byte>>) {
    && BounceOk(m, card, rs, cs, bi0, GivenTo(finished, cp), FilledTo(sent, sd), TakenTo(sent, sd), free, bounce)
    && MemOk(m, card, rs, cs, CopiedTo(finished, cp), mem) && Sized(mem)
  }

  // The buffers of the pass, as they were allocated.
  ghost predicate Sized(mem: map<Buffer, seq<byte>>) {
    forall b: Buffer :: Used(b) ==> b in mem && |mem[b]| == Capacity(b)
  }

  predicate Used(b: Buffer) {
    b.p < 2 && (b.Norm? ==> b.i < 4)
  }

  function Capacity(b: Buffer): nat {
    match b
    case Stage(_) => HALF
    case Scales(_) => FF * 4
    case Biases(_) => FF * 4
    case Outliers(_) => FF * 8 * 4
    case Norm(_, _) => D * 4
  }

  ghost predicate SumsOk(m: Map, card: Feed, tab: Table, step: (int, byte) -> int, rs: seq<Read>, cs: seq<Chunk>, finished: nat,
                         cp: Cp, over: nat, slot0: nat, own: seq<int>, wq: seq<int>, crcBad: int, bad0: nat) {
    && |own| == SLOTS && |wq| == 2
    && SumOk(m, card, tab, step, rs, cs, SummedTo(finished, cp), over, slot0, own, wq)
    && crcBad == bad0 + Mismatches(card, tab, step, rs, over)
  }

  // ---- what one statement does -------------------------------------------------------------------------------

  // Chunk k, as the card gives it, is in the bounce buffer.
  predicate FilledWith(card: Feed, cs: seq<Chunk>, k: nat, bi: nat, was: seq<seq<byte>>, now: seq<seq<byte>>) {
    k < |cs| && bi < |was| && now == was[bi := Data(card, cs[k])]
  }

  // Chunk k is behind the others.
  predicate SentBehind(rs: seq<Read>, cs: seq<Chunk>, k: nat, slot0: nat, bi0: nat, was: seq<Piece>, now: seq<Piece>) {
    && k < |cs| && cs[k].n < |rs|
    && now == was + [PieceOf(rs, slot0, bi0, cs[k], k)]
  }

  // The sum of chunk k's read is the CRC of what has come of its section from its very start to the end of the
  // chunk, and no other sum has changed.
  predicate SummedThrough(card: Feed, step: (int, byte) -> int, rs: seq<Read>, cs: seq<Chunk>, k: nat, slot0: nat,
                          wasOwn: seq<int>, wasWq: seq<int>, own: seq<int>, wq: seq<int>)
  {
    && k < |cs| && cs[k].n < |rs| && |own| == |wasOwn| == SLOTS && |wq| == |wasWq| == 2
    && var c, r, slot := cs[k], rs[cs[k].n], Slot(slot0, cs[k].n);
       && (r.acc.Shared? ==> r.acc.p < 2)
       && AccOf(r, slot, own, wq) == Crc(step, 0, Covered(card, rs, c.n, c.at + c.len))
       && own == (if r.acc.Own? then wasOwn[slot := own[slot]] else wasOwn)
       && wq == (if r.acc.Own? then wasWq else wasWq[r.acc.p := wq[r.acc.p]])
  }

  // Chunk k is in the buffer of its read, as far into it as it is into the read, and no other byte has changed.
  predicate CopiedInto(card: Feed, rs: seq<Read>, cs: seq<Chunk>, k: nat, was: map<Buffer, seq<byte>>, now: map<Buffer, seq<byte>>) {
    && k < |cs| && cs[k].n < |rs|
    && var c, dst, data := cs[k], rs[cs[k].n].dst, Data(card, cs[k]);
       dst in was && c.at + |data| <= |was[dst]| && now == was[dst := Splice(was[dst], c.at, data)]
  }

  // If chunk k is the last of its read: its semaphore is given, and one more section is bad if it is to be
  // checked now and what came of it is not what it should be. Otherwise nothing.
  predicate EndedWith(card: Feed, tab: Table, step: (int, byte) -> int, rs: seq<Read>, cs: seq<Chunk>, k: nat, slot0: nat,
                      wasDone: seq<bool>, done: seq<bool>, wasBad: nat, bad: nat)
  {
    && k < |cs| && cs[k].n < |rs| && |wasDone| == SLOTS
    && var n, whole := cs[k].n, Whole(rs, cs[k]);
       && done == (if whole then wasDone[Slot(slot0, n) := true] else wasDone)
       && bad == wasBad + if whole && rs[n].verify && !Good(card, tab, step, rs, n) then 1 else 0
  }

  class Reader {
    const m: Map
    const tab: Table
    const step: (int, byte) -> int
    // the ring, its semaphores and its sums; the queues, the bounce buffers, and where everything goes
    var ring: seq<Read>
    var own: seq<int>
    var wq: seq<int>
    var done: seq<bool>
    var reqNext: nat
    var rq: seq<nat>
    var cq: seq<Piece>
    var free: seq<bool>
    var bounce: seq<seq<byte>>
    var mem: map<Buffer, seq<byte>>
    var crcBad: nat
    // what the card will give, and how many reads have been asked of it: no part of the program
    var card: Feed
    var got: nat
    // where the tasks stand
    var sd: Sd
    var sdBi: nat
    var cp: Cp
    // every read since the reader was last at rest, its chunks, and how far they have got
    ghost var all: seq<Read>
    ghost var chunks: seq<Chunk>
    ghost var sent: nat
    ghost var finished: nat
    ghost var waited: set<nat>
    ghost var slot0: nat
    ghost var bi0: nat
    ghost var bad0: nat

    // reader_start: every slot free, both bounce buffers free, the tasks waiting.
    constructor (m: Map, card: Feed, tab: Table, step: (int, byte) -> int, ring: seq<Read>, mem: map<Buffer, seq<byte>>, bounce: seq<seq<byte>>)
      requires Sound(m) && |ring| == SLOTS && Sized(mem) && |bounce| == 2
      ensures Valid() && Over() == |all| && this.m == m && this.card == card && this.tab == tab && this.step == step
    {
      this.m, this.card, this.tab, this.step := m, card, tab, step;
      this.ring, this.mem, this.bounce := ring, mem, bounce;
      own, wq, done := seq(SLOTS, _ => 0), [0, 0], seq(SLOTS, _ => false);
      reqNext, rq, cq, free, crcBad := 0, [], [], [true, true], 0;
      sd, sdBi, cp := Idle, 0, Ready;
      all, chunks, got, sent, finished, waited, slot0, bi0, bad0 := [], [], 0, 0, 0, {}, 0, 0, 0;
    }

    ghost function Over(): nat
      reads `all, `chunks, `finished
    {
      Completed(all, chunks, finished)
    }

    ghost predicate Queues()
      reads `all, `chunks, `got, `sent, `finished, `sd, `cp, `slot0, `bi0, `rq, `cq, `sdBi
    {
      QueuesOk(m, all, chunks, got, sent, finished, sd, cp, slot0, bi0, rq, cq, sdBi)
    }

    ghost predicate Slots()
      reads `all, `chunks, `finished, `slot0, `ring, `done, `waited, `reqNext
    {
      SlotsOk(all, Over(), slot0, ring, done, waited, reqNext)
    }

    ghost predicate Buffers()
      reads `card, `all, `chunks, `finished, `sent, `sd, `cp, `bi0, `free, `bounce, `mem
    {
      BuffersOk(m, card, all, chunks, finished, sent, sd, cp, bi0, free, bounce, mem)
    }

    ghost predicate Sums()
      reads `card, `all, `chunks, `finished, `cp, `slot0, `own, `wq, `crcBad, `bad0
    {
      SumsOk(m, card, tab, step, all, chunks, finished, cp, Over(), slot0, own, wq, crcBad, bad0)
    }

    ghost predicate Valid()
      reads this
    {
      Queues() && Slots() && Buffers() && Sums()
    }

    // The request the sd task is at is still in its slot.
    lemma SdAt()
      requires Queues() && Slots() && !sd.Idle?
      ensures sent < |chunks| && ChunksOk(m, all, chunks) && |ring| == SLOTS && sd.slot < SLOTS && sd.slot == Slot(slot0, chunks[sent].n)
      ensures chunks[sent].n < |all| && ring[sd.slot] == all[chunks[sent].n] && Readable(m, ring[sd.slot])
      ensures Fits(m, all, chunks[sent]) && AllReadable(m, all) && sd.at == chunks[sent].at && got - 1 == chunks[sent].n
    {
      hide ChunksOk, Fits, AllReadable, Readable, Completed, Slot;
      SdRing(m, all, chunks, finished, sent, Over(), slot0, ring);
    }

    // ---- the sd task -------------------------------------------------------------------------------------

    method SdReceive()
      requires Valid() && sd.Idle? && rq != []
      modifies `sd, `rq, `got
      ensures Valid() && Left() < old(Left())
    {
      hide Slots, Sums, MemOk, BounceOk, CpOk, SdOk, ChunksOk;
      SdGets(m, all, chunks, got, sent, slot0, rq);
      sd := Reading(rq[0], 0);
      rq := rq[1..];
      got := got + 1;
    }

    method SdTake()
      requires Valid() && sd.Reading? && free[sdBi]
      modifies `sd, `free
      ensures Valid() && Left() < old(Left())
    {
      hide Slots, Sums, MemOk, BounceOk, CpOk, SdOk, ChunksOk, Bi;
      SdMoves(m, all, chunks, got, sent, sd, Taken(sd.slot, sd.at), slot0, rq);
      TakeKeeps(m, card, all, chunks, bi0, GivenTo(finished, cp), sent, free, bounce);
      free := free[sdBi := false];
      sd := Taken(sd.slot, sd.at);
    }

    // sd_sectors into the bounce buffer, whatever the card gives; one that goes on failing stops the board instead.
    method SdFill()
      requires Valid() && sd.Taken?
      modifies `sd, `bounce
      ensures Valid() && Left() < old(Left())
      ensures FilledWith(card, chunks, sent, sdBi, old(bounce), bounce)
    {
      hide Slots, Sums, MemOk, BounceOk, CpOk, SdOk, ChunksOk, Bi, Slot, ChunkLen, Got;
      SdMoves(m, all, chunks, got, sent, sd, Filled(sd.slot, sd.at), slot0, rq);
      SdAt();
      var r := ring[sd.slot];
      var n := ChunkLen(m, r.off + sd.at, r.len - sd.at);
      FillKeeps(m, card, all, chunks, bi0, GivenTo(finished, cp), sent, free, bounce, Got(card, got - 1, sd.at, n));
      bounce := bounce[sdBi := Got(card, got - 1, sd.at, n)];
      sd := Filled(sd.slot, sd.at);
    }

    method SdSend()
      requires Valid() && sd.Filled? && |cq| < PIECES
      modifies `sd, `sdBi, `cq, `sent
      ensures Valid() && Left() < old(Left())
      ensures sent == old(sent) + 1 && sdBi == 1 - old(sdBi) && SentBehind(all, chunks, old(sent), slot0, bi0, old(cq), cq)
    {
      hide Slots, Sums, MemOk, BounceOk, SdOk, CpOk, ChunksOk, Bi, Slot, ChunkLen;
      SdAt();
      var r := ring[sd.slot];
      var n := ChunkLen(m, r.off + sd.at, r.len - sd.at);
      SdSends(m, all, chunks, got, sent, sd, slot0, rq);
      CpGets(m, all, chunks, sent, finished, cp, slot0, bi0, cq);
      TwoApart(bi0, sent);
      Queue(Piece(sd.slot, r.dst, sd.at, sdBi, n, sd.at == 0, sd.at + n == r.len), if sd.at + n == r.len then Idle else Reading(sd.slot, sd.at + n));
    }

    // The chunk sent, and what the task turns to.
    method Queue(p: Piece, next: Sd)
      requires sdBi < 2
      modifies `sd, `sdBi, `cq, `sent
      ensures cq == old(cq) + [p] && sdBi == 1 - old(sdBi) && sd == next && sent == old(sent) + 1
    {
      cq, sdBi, sd, sent := cq + [p], 1 - sdBi, next, sent + 1;
    }

    // ---- the cp task ---------------------------------------------------------------------------------------

    // The request of the chunk the cp task is at is still in its slot, and the chunk in its bounce buffer.
    lemma CpAt()
      requires Valid() && !cp.Ready?
      ensures finished < |chunks| && ChunksOk(m, all, chunks) && AllReadable(m, all) && Fits(m, all, chunks[finished]) && |ring| == SLOTS
      ensures var c := chunks[finished];
        && cp.piece == PieceOf(all, slot0, bi0, c, finished) && ring[cp.piece.slot] == all[c.n] && Over() == c.n < |all|
    {
      hide ChunksOk, Fits, AllReadable, Readable, Completed, Slot, MemOk, SumOk, BounceOk, DoneOk, SdOk, PieceOf, Mismatches;
      SdRing(m, all, chunks, finished, finished, Over(), slot0, ring);
      CompletedGrows(m, all, chunks, finished);
      PieceSlot(all, slot0, bi0, chunks[finished], finished);
    }

    lemma CpData()
      requires Valid() && !cp.Ready? && !cp.Given?
      ensures finished < |chunks| && AllReadable(m, all) && Fits(m, all, chunks[finished]) && |bounce| == 2 && cp.piece.bi < 2
      ensures bounce[cp.piece.bi] == Data(card, chunks[finished])
    {
      hide ChunksOk, Fits, AllReadable, Readable, Completed, Slot, MemOk, SumOk, DoneOk, SdOk, RingOk, Mismatches, Data, NoneIn, Slots, Sums;
      CpAt();
    }

    method CpReceive()
      requires Valid() && cp.Ready? && cq != []
      modifies `cp, `cq
      ensures Valid() && Left() < old(Left())
    {
      hide Slots, SdOk, CpOk, BounceOk, MemOk, SumOk, Mismatches, Completed;
      CpTakes(m, all, chunks, sent, finished, slot0, bi0, cq);
      ghost var was := cp;
      cp := Received(cq[0]);
      cq := cq[1..];
    }

    method CpSum()
      requires Valid() && cp.Received?
      modifies `cp, `own, `wq
      ensures Valid() && Left() < old(Left())
      ensures SummedThrough(card, step, all, chunks, finished, slot0, old(own), old(wq), own, wq)
    {
      hide Slots, SdOk, CpOk, ChunksOk, SumOk, BounceOk, MemOk, Mismatches, Crc, Data, PieceOf, Fits, AllReadable, Completed,
        SummedThrough, Slot;
      CpAt();
      CpData();
      var p := cp.piece;
      PieceSlot(all, slot0, bi0, chunks[finished], finished);
      var r := ring[p.slot];
      SumSlot(m, card, tab, step, all, chunks, finished, Over(), slot0, own, wq);
      SumKeeps(m, card, tab, step, all, chunks, finished, Over(), slot0, own, wq);
      CpMoves(m, all, chunks, sent, finished, cp, Summed(p), slot0, bi0, cq);
      var base := if p.first && r.reset then 0 else if r.acc.Own? then own[p.slot] else wq[r.acc.p];
      var sum := Crc(step, base, bounce[p.bi]);
      if r.acc.Own? { own := own[p.slot := sum]; } else { wq := wq[r.acc.p := sum]; }
      cp := Summed(p);
      SumCarried(m, card, tab, step, all, chunks, finished, Over(), slot0, old(own), old(wq), own, wq, sum);
    }

    method CpCopy()
      requires Valid() && cp.Summed?
      modifies `cp, `mem
      ensures Valid() && Left() < old(Left())
      ensures CopiedInto(card, all, chunks, finished, old(mem), mem)
    {
      hide Slots, SdOk, CpOk, ChunksOk, MemOk, BounceOk, SumOk, Mismatches, Data, PieceOf, Fits, AllReadable, Completed, Splice;
      CpAt();
      CpData();
      var p := cp.piece;
      PieceSlot(all, slot0, bi0, chunks[finished], finished);
      CopyKeeps(m, card, all, chunks, finished, mem);
      StillSized(mem, p.dst, p.at, bounce[p.bi]);
      CpMoves(m, all, chunks, sent, finished, cp, Copied(p), slot0, bi0, cq);
      mem := mem[p.dst := Splice(mem[p.dst], p.at, bounce[p.bi])];
      cp := Copied(p);
    }

    method CpGive()
      requires Valid() && cp.Copied?
      modifies `cp, `free
      ensures Valid() && Left() < old(Left())
    {
      hide Slots, SdOk, CpOk, ChunksOk, MemOk, BounceOk, SumOk, Mismatches, PieceOf, Fits, AllReadable, Completed, Bi;
      CpAt();
      CpBehind(m, all, chunks, sent, finished, cp, slot0, bi0, cq);
      var p := cp.piece;
      PieceSlot(all, slot0, bi0, chunks[finished], finished);
      GiveKeeps(m, card, all, chunks, bi0, finished, FilledTo(sent, sd), TakenTo(sent, sd), free, bounce);
      CpMoves(m, all, chunks, sent, finished, cp, Given(p), slot0, bi0, cq);
      free := free[p.bi := true];
      cp := Given(p);
    }

    // How many reads are over once the chunk the cp task is at is done with.
    ghost function OverThen(): nat
      reads `all, `chunks, `finished
    {
      Completed(all, chunks, finished + 1)
    }

    // The chunk the cp task is at ends its read, or does not; and if it does, the sum is that of the section.
    lemma EndAt()
      requires Valid() && cp.Given?
      ensures finished < |chunks| && chunks[finished].n < |all| && |ring| == SLOTS && |done| == SLOTS && |own| == SLOTS && |wq| == 2
      ensures var p, n := cp.piece, chunks[finished].n;
        && p.slot == Slot(slot0, n) && p.last == Whole(all, chunks[finished]) && ring[p.slot] == all[n] && Over() == n
        && OverThen() == n + (if p.last then 1 else 0)
        && (all[n].acc.Shared? ==> all[n].acc.p < 2)
        && (p.last && all[n].verify ==>
              (AccOf(all[n], p.slot, own, wq) == tab.want(all[n].li, all[n].sec) <==> Good(card, tab, step, all, n)))
    {
      hide SdOk, CpOk, ChunksOk, MemOk, BounceOk, SumOk, RingOk, DoneOk, Mismatches, PieceOf, Fits, AllReadable, Completed, Slot, Good, Sized, Bi;
      CpAt();
      var c := chunks[finished];
      PieceSlot(all, slot0, bi0, c, finished);
      CompletedGrows(m, all, chunks, finished);
      DoneSize(all, Over(), slot0, done, waited);
      SumSlot(m, card, tab, step, all, chunks, finished + 1, Over(), slot0, own, wq);
      if cp.piece.last {
        Checked(m, card, tab, step, all, chunks, finished, Over(), slot0, own, wq);
      }
    }

    lemma EndQueues()
      requires Queues() && cp.Given?
      ensures QueuesOk(m, all, chunks, got, sent, finished + 1, sd, Ready, slot0, bi0, rq, cq, sdBi) && finished < sent <= |chunks|
    {
      hide SdOk, CpOk;
      CpEnds(m, all, chunks, sent, finished, cp, slot0, bi0, cq);
    }

    lemma EndSlots(last: bool, over: nat)
      requires Queues() && Slots() && cp.Given? && Over() < |all| && over == Over() + (if last then 1 else 0)
      ensures |done| == SLOTS
      ensures SlotsOk(all, over, slot0, ring, if last then done[Slot(slot0, Over()) := true] else done, waited, reqNext)
    {
      hide SdOk, CpOk, RingOk, DoneOk, Completed, Slot, Queues;
      DoneSize(all, Over(), slot0, done, waited);
      if last {
        RingLess(all, Over(), slot0, ring);
        GaveKeeps(all, Over(), slot0, done, waited);
      }
    }

    lemma EndBuffers()
      requires Buffers() && cp.Given?
      ensures BuffersOk(m, card, all, chunks, finished + 1, sent, sd, Ready, bi0, free, bounce, mem)
    {
      hide MemOk, BounceOk, Sized;
    }

    lemma EndSums(last: bool, over: nat, bad: nat)
      requires Sums() && cp.Given? && Over() < |all| && over == Over() + (if last then 1 else 0)
      requires bad == crcBad + if last && all[Over()].verify && !Good(card, tab, step, all, Over()) then 1 else 0
      ensures SumsOk(m, card, tab, step, all, chunks, finished + 1, Ready, over, slot0, own, wq, bad, bad0)
    {
      hide SumOk, Completed, Good;
      SumLess(m, card, tab, step, all, chunks, finished + 1, Over(), over, slot0, own, wq);
    }

    // As the reader will be once the chunk is done with.
    ghost predicate EndOk(bad: nat, given: seq<bool>)
      reads this
    {
      && QueuesOk(m, all, chunks, got, sent, finished + 1, sd, Ready, slot0, bi0, rq, cq, sdBi)
      && SlotsOk(all, OverThen(), slot0, ring, given, waited, reqNext)
      && BuffersOk(m, card, all, chunks, finished + 1, sent, sd, Ready, bi0, free, bounce, mem)
      && SumsOk(m, card, tab, step, all, chunks, finished + 1, Ready, OverThen(), slot0, own, wq, bad, bad0)
    }

    // What becomes of the count of bad sections and of the semaphores: a section complete is checked, and its
    // request's semaphore given.
    method Ends() returns (bad: nat, given: seq<bool>)
      requires Valid() && cp.Given?
      ensures EndOk(bad, given) && OverThen() >= Over()
      ensures EndedWith(card, tab, step, all, chunks, finished, slot0, done, given, crcBad, bad)
    {
      hide Queues, Slots, Buffers, Sums, QueuesOk, SlotsOk, BuffersOk, SumsOk, Completed, Slot, Good;
      EndAt();
      var p := cp.piece;
      var r := ring[p.slot];
      bad, given := crcBad, done;
      if p.last {
        if r.verify {
          var sum := if r.acc.Own? then own[p.slot] else wq[r.acc.p];
          if sum != tab.want(r.li, r.sec) { bad := bad + 1; }
        }
        given := given[p.slot := true];
      }
      EndQueues();
      EndSlots(p.last, OverThen());
      EndBuffers();
      EndSums(p.last, OverThen(), bad);
    }

    // And the chunk is done with.
    method CpFinish()
      requires Valid() && cp.Given?
      modifies `cp, `crcBad, `done, `finished
      ensures Valid() && Left() < old(Left()) && Over() >= old(Over()) && finished == old(finished) + 1
      ensures EndedWith(card, tab, step, all, chunks, old(finished), slot0, old(done), done, old(crcBad), crcBad)
    {
      hide Valid, QueuesOk, SlotsOk, BuffersOk, SumsOk, Completed, EndedWith;
      var bad, given := Ends();
      crcBad, done, cp, finished := bad, given, Ready, finished + 1;
      Together();
    }

    // ---- the caller ------------------------------------------------------------------------------------------

    // rd: a slot of the ring, its semaphore cleared, the request in it, and the request queued.
    method Rd(r: Read)
      requires Valid() && |all| - Over() < SLOTS && Accepts(r)
      modifies this
      ensures Valid() && all == old(all) + [r] && Over() == old(Over())
      ensures mem == old(mem) && waited == old(waited) && crcBad == old(crcBad) && bad0 == old(bad0) && slot0 == old(slot0) && card == old(card)
    {
      hide Valid, Completed, Slot, Pieces, Accepts, QueuesOk, SlotsOk, BuffersOk, SumsOk;
      ghost var more := Pieces(m, r, |all|);
      More(r, more);
      Put(r, more);
    }

    method Put(r: Read, ghost more: seq<Chunk>)
      requires MoreOk(r, more)
      modifies this
      ensures Valid() && all == old(all) + [r] && Over() == old(Over())
      ensures mem == old(mem) && waited == old(waited) && crcBad == old(crcBad) && bad0 == old(bad0) && slot0 == old(slot0) && card == old(card)
    {
      hide Valid, QueuesOk, SlotsOk, BuffersOk, SumsOk, Completed, Slot;
      Enter(r, more);
      Together();
    }

    // The slot, its semaphore, its sum, and the queue.
    method Enter(r: Read, ghost more: seq<Chunk>)
      requires |ring| == SLOTS && |done| == SLOTS && |own| == SLOTS
      modifies `reqNext, `done, `ring, `own, `rq, `all, `chunks
      ensures var slot := old(reqNext) % SLOTS;
        && reqNext == old(reqNext) + 1 && done == old(done)[slot := false] && ring == old(ring)[slot := r] && own == old(own)[slot := 0]
        && rq == old(rq) + [slot] && all == old(all) + [r] && chunks == old(chunks) + more
    {
      var slot := reqNext % SLOTS;
      reqNext, done, ring, own, rq := reqNext + 1, done[slot := false], ring[slot := r], own[slot := 0], rq + [slot];
      all, chunks := all + [r], chunks + more;
    }

    // As the reader will be once the request is in.
    ghost predicate MoreOk(r: Read, more: seq<Chunk>)
      reads this
    {
      && QueuesOk(m, all + [r], chunks + more, got, sent, finished, sd, cp, slot0, bi0, rq + [Slot(slot0, |all|)], cq, sdBi)
      && Completed(all + [r], chunks + more, finished) == Over() && |ring| == SLOTS && |done| == SLOTS && |own| == SLOTS
      && reqNext % SLOTS == Slot(slot0, |all|)
      && SlotsOk(all + [r], Over(), slot0, ring[Slot(slot0, |all|) := r], done[Slot(slot0, |all|) := false], waited, reqNext + 1)
      && BuffersOk(m, card, all + [r], chunks + more, finished, sent, sd, cp, bi0, free, bounce, mem)
      && SumsOk(m, card, tab, step, all + [r], chunks + more, finished, cp, Over(), slot0, own[Slot(slot0, |all|) := 0], wq, crcBad, bad0)
    }

    lemma More(r: Read, more: seq<Chunk>)
      requires Valid() && |all| - Over() < SLOTS && Accepts(r) && more == Pieces(m, r, |all|)
      ensures MoreOk(r, more)
    {
      hide Queues, Slots, Buffers, Sums, QueuesOk, SlotsOk, BuffersOk, SumsOk, Completed, Slot, Pieces, Chained, Readable;
      MoreQueues(r, more);
      MoreSlots(r, more);
      MoreBuffers(r, more);
      MoreSums(r, more);
    }

    lemma Together()
      requires QueuesOk(m, all, chunks, got, sent, finished, sd, cp, slot0, bi0, rq, cq, sdBi)
      requires SlotsOk(all, Over(), slot0, ring, done, waited, reqNext)
      requires BuffersOk(m, card, all, chunks, finished, sent, sd, cp, bi0, free, bounce, mem)
      requires SumsOk(m, card, tab, step, all, chunks, finished, cp, Over(), slot0, own, wq, crcBad, bad0)
      ensures Valid()
    {
      hide QueuesOk, SlotsOk, BuffersOk, SumsOk, Completed;
    }

    lemma MoreQueues(r: Read, more: seq<Chunk>)
      requires Queues() && Readable(m, r) && more == Pieces(m, r, |all|)
      ensures QueuesOk(m, all + [r], chunks + more, got, sent, finished, sd, cp, slot0, bi0, rq + [Slot(slot0, |all|)], cq, sdBi)
    {
      hide SdOk, CpOk, Pieces, Readable, Slot;
      SdMore(m, all, chunks, got, sent, sd, slot0, rq, r);
      CpMore(m, all, chunks, sent, finished, cp, slot0, bi0, cq, r, more);
    }

    lemma MoreSlots(r: Read, more: seq<Chunk>)
      requires Queues() && Slots() && |all| - Over() < SLOTS
      ensures Completed(all + [r], chunks + more, finished) == Over() && |ring| == SLOTS && |done| == SLOTS
      ensures reqNext % SLOTS == Slot(slot0, |all|) < SLOTS
      ensures SlotsOk(all + [r], Over(), slot0, ring[Slot(slot0, |all|) := r], done[Slot(slot0, |all|) := false], waited, reqNext + 1)
    {
      hide SdOk, RingOk, DoneOk, Completed, Slot, ChunksOk;
      OverMore(m, all, chunks, r, more, finished);
      RingRoom(all, Over(), slot0, ring);
      IssueKeeps(all, Over(), slot0, ring, r);
      ClearKeeps(all, Over(), slot0, done, waited, r);
      SlotNext(slot0, |all|, reqNext);
    }

    lemma MoreBuffers(r: Read, more: seq<Chunk>)
      requires Queues() && Buffers() && Accepts(r) && more == Pieces(m, r, |all|)
      ensures BuffersOk(m, card, all + [r], chunks + more, finished, sent, sd, cp, bi0, free, bounce, mem)
    {
      hide SdOk, ChunksOk, BounceOk, MemOk, Pieces, Readable, PieceAt, Chained, Slot;
      BounceMore(m, card, all, chunks, bi0, GivenTo(finished, cp), FilledTo(sent, sd), TakenTo(sent, sd), free, bounce, r, more);
      MemMore(m, card, all, chunks, CopiedTo(finished, cp), mem, r);
    }

    lemma MoreSums(r: Read, more: seq<Chunk>)
      requires Queues() && Slots() && Sums() && Accepts(r) && |all| - Over() < SLOTS && more == Pieces(m, r, |all|)
      ensures |own| == SLOTS
      ensures SumsOk(m, card, tab, step, all + [r], chunks + more, finished, cp, Over(), slot0, own[Slot(slot0, |all|) := 0], wq, crcBad, bad0)
    {
      hide SdOk, ChunksOk, SumOk, DoneOk, Pieces, Readable, PieceAt, Chained, Slot, Completed, Mismatches;
      SumMore(m, card, tab, step, all, chunks, SummedTo(finished, cp), Over(), slot0, own, wq, r);
      BadMore(card, tab, step, all, Over(), r);
    }

    // Between passes, when everything has landed: the story starts afresh, the reader goes on as it is. What the
    // card gives next may be anything again.
    method Rest(next: Feed)
      requires Valid() && Over() == |all|
      modifies this
      ensures Valid() && all == [] && Over() == 0 && waited == {} && bad0 == crcBad == old(crcBad) && card == next
    {
      hide Valid, Completed, Sized;
      AtRest();
      Anew(next);
      Fresh();
    }

    // No reads so far.
    method Anew(next: Feed)
      modifies `all, `chunks, `got, `sent, `finished, `waited, `slot0, `bi0, `bad0, `card
      ensures all == [] && chunks == [] && got == 0 && sent == 0 && finished == 0 && waited == {} && card == next
      ensures slot0 == reqNext % SLOTS && bi0 == sdBi && bad0 == crcBad
    {
      all, chunks, got, sent, finished, waited := [], [], 0, 0, 0, {};
      slot0, bi0, bad0, card := reqNext % SLOTS, sdBi, crcBad, next;
    }

    lemma AtRest()
      requires Valid() && Over() == |all|
      ensures sd.Idle? && cp.Ready? && rq == [] && cq == [] && |free| == 2 && free[0] && free[1] && |bounce| == 2 && sdBi < 2
      ensures |ring| == SLOTS && |done| == SLOTS && |own| == SLOTS && |wq| == 2 && Sized(mem)
    {
      hide MemOk, SumOk, Mismatches, PieceAt, Slot, Bi, NoneIn, SdOk, CpOk, ChunksOk, Completed, BounceOk, Sized;
      AllFinished(m, all, chunks, sent, finished, cp, slot0, bi0, cq);
      SdIdle(m, all, chunks, got, sent, sd, slot0, rq);
      BounceFree(m, card, all, chunks, bi0, GivenTo(finished, cp), FilledTo(sent, sd), TakenTo(sent, sd), free, bounce);
    }

    lemma Fresh()
      requires all == [] && chunks == [] && got == 0 && sent == 0 && finished == 0 && waited == {}
      requires slot0 == reqNext % SLOTS && bi0 == sdBi && bad0 == crcBad
      requires sd.Idle? && cp.Ready? && rq == [] && cq == [] && |free| == 2 && free[0] && free[1] && |bounce| == 2 && sdBi < 2
      requires |ring| == SLOTS && |done| == SLOTS && |own| == SLOTS && |wq| == 2 && Sized(mem)
      ensures Valid() && Over() == 0
    {
    }

    // A read that goes on from the last, into a buffer with room for it.
    ghost predicate Accepts(r: Read)
      reads `all
    {
      && Readable(m, r) && Chained(tab, all + [r], |all|) && (r.acc.Shared? ==> r.acc.p < 2)
      && Used(r.dst) && r.len <= Capacity(r.dst)
    }

    // ---- one step of whichever task can take one ---------------------------------------------------------------

    predicate SdCan()
      reads `sd, `rq, `free, `sdBi, `cq
    {
      match sd
      case Idle => rq != []
      case Reading(_, _) => sdBi < |free| && free[sdBi]
      case Taken(_, _) => true
      case Filled(_, _) => |cq| < PIECES
    }

    predicate CpCan()
      reads `cp, `cq
    {
      !cp.Ready? || cq != []
    }

    // While a read is under way some task can go on: nothing waits for ever.
    lemma SomeoneCan()
      requires Valid() && Over() < |all|
      ensures SdCan() || CpCan()
    {
      hide ChunksOk, MemOk, SumOk, DoneOk, RingOk, Mismatches, PieceAt, Completed, Slot, Bi, NoneIn, Slots, Sums;
      if !CpCan() {
        NothingOut(bi0, sent);
        if sd.Idle? && got == |all| {
          AllSent(m, all, chunks, got, sent, slot0, rq);
        }
        BounceFree(m, card, all, chunks, bi0, finished, FilledTo(sent, sd), TakenTo(sent, sd), free, bounce);
      }
    }

    method Tick()
      requires Valid() && (SdCan() || CpCan())
      modifies this
      ensures Valid() && Left() < old(Left()) && Over() >= old(Over())
      ensures all == old(all) && waited == old(waited) && bad0 == old(bad0) && slot0 == old(slot0) && card == old(card)
    {
      hide Valid, Left, Completed, FilledWith, SentBehind, SummedThrough, CopiedInto, EndedWith;
      var sdTurn: bool := *;
      if SdCan() && (sdTurn || !CpCan()) {
        match sd {
          case Idle => SdReceive();
          case Reading(_, _) => SdTake();
          case Taken(_, _) => SdFill();
          case Filled(_, _) => SdSend();
        }
      } else {
        match cp {
          case Ready => CpReceive();
          case Received(_) => CpSum();
          case Summed(_) => CpCopy();
          case Copied(_) => CpGive();
          case Given(_) => CpFinish();
        }
      }
    }

    // Whatever the tasks get done while their caller is busy with something else.
    method Background()
      requires Valid()
      modifies this
      ensures Valid() && Over() >= old(Over())
      ensures all == old(all) && waited == old(waited) && bad0 == old(bad0) && slot0 == old(slot0) && card == old(card)
    {
      hide Valid, Left, Completed, SdCan, CpCan;
      var n: nat :| 0 <= n;
      while n > 0 && (SdCan() || CpCan())
        invariant Valid() && Over() >= old(Over())
        invariant all == old(all) && waited == old(waited) && bad0 == old(bad0) && slot0 == old(slot0) && card == old(card)
      {
        Tick();
        n := n - 1;
      }
    }

    // wait_rd: until the read is done; and it does get done, whichever task goes when.
    method WaitRd(slot: nat, ghost n: nat)
      requires Valid() && n < |all| <= n + SLOTS && n !in waited && slot == Slot(slot0, n)
      modifies this
      ensures Valid() && Over() >= old(Over()) && n < Over()
      ensures all == old(all) && waited == old(waited) + {n} && bad0 == old(bad0) && slot0 == old(slot0) && card == old(card)
    {
      hide Valid, Left, Completed, SdCan, CpCan, Slot;
      DoneSays(n);
      while !done[slot]
        invariant Valid() && Over() >= old(Over()) && slot < |done| && (done[slot] <==> n < Over())
        invariant all == old(all) && waited == old(waited) && bad0 == old(bad0) && slot0 == old(slot0) && card == old(card)
        decreases Left()
      {
        LeftPositive();
        SomeoneCan();
        Tick();
        DoneSays(n);
      }
      Take(slot, n);
    }

    lemma DoneSays(n: nat)
      requires Valid() && n < |all| <= n + SLOTS && n !in waited
      ensures Slot(slot0, n) < |done| && (done[Slot(slot0, n)] <==> n < Over())
    {
      hide SdOk, CpOk, BuffersOk, SumsOk, RingOk, Completed, Slot;
    }

    lemma LeftPositive()
      requires Valid()
      ensures Left() >= 0
    {
      hide ChunksOk, MemOk, SumOk, DoneOk, RingOk, Mismatches, PieceAt, Completed, Slot, Bi, BounceOk, Slots, Sums;
    }

    method Take(slot: nat, ghost n: nat)
      requires Valid() && n < |all| <= n + SLOTS && n < Over() && slot == Slot(slot0, n)
      modifies `done, `waited
      ensures Valid() && waited == old(waited) + {n}
    {
      hide Queues, Buffers, Sums, RingOk, DoneOk, Completed, Slot;
      TookKeeps(all, Over(), slot0, done, waited, n);
      done := done[slot := false];
      waited := waited + {n};
    }

    // What is left to do, in steps of the tasks.
    ghost function Left(): int
      reads `all, `chunks, `got, `sent, `finished, `sd, `cp
    {
      (|all| - got) + 3 * (|chunks| - sent) - SdSteps(sd) + 5 * (|chunks| - finished) - CpSteps(cp)
    }
  }

  function SdSteps(sd: Sd): nat {
    match sd case Idle => 0 case Reading(_, _) => 0 case Taken(_, _) => 1 case Filled(_, _) => 2
  }

  function CpSteps(cp: Cp): nat {
    match cp case Ready => 0 case Received(_) => 1 case Summed(_) => 2 case Copied(_) => 3 case Given(_) => 4
  }

  lemma SdGets(m: Map, rs: seq<Read>, cs: seq<Chunk>, got: nat, sent: nat, slot0: nat, rq: seq<nat>)
    requires SdOk(m, rs, cs, got, sent, Idle, slot0, rq) && rq != []
    ensures SdOk(m, rs, cs, got + 1, sent, Reading(rq[0], 0), slot0, rq[1..])
  {
    hide ChunkLen, AllReadable, Fits, Slot;
    if sent > 0 {
      assert sent < |cs|;
      assert Next(rs, cs[sent - 1], cs[sent]);
    }
  }

  lemma SdMoves(m: Map, rs: seq<Read>, cs: seq<Chunk>, got: nat, sent: nat, sd: Sd, now: Sd, slot0: nat, rq: seq<nat>)
    requires SdOk(m, rs, cs, got, sent, sd, slot0, rq) && !sd.Idle? && !now.Idle? && now.slot == sd.slot && now.at == sd.at
    ensures SdOk(m, rs, cs, got, sent, now, slot0, rq)
  {
    hide ChunksOk, Slot;
  }

  // The request of chunk sent is still in its slot.
  lemma SdRing(m: Map, rs: seq<Read>, cs: seq<Chunk>, finished: nat, sent: nat, over: nat, slot0: nat, ring: seq<Read>)
    requires ChunksOk(m, rs, cs) && finished <= sent < |cs| && over == Completed(rs, cs, finished) && RingOk(rs, over, slot0, ring)
    ensures cs[sent].n < |rs| && ring[Slot(slot0, cs[sent].n)] == rs[cs[sent].n] && Readable(m, rs[cs[sent].n])
    ensures Fits(m, rs, cs[sent]) && AllReadable(m, rs)
  {
    hide ChunkLen, Completed, Slot;
    ChunkAfter(m, rs, cs, finished, sent);
  }

  lemma SdSends(m: Map, rs: seq<Read>, cs: seq<Chunk>, got: nat, sent: nat, sd: Sd, slot0: nat, rq: seq<nat>)
    requires SdOk(m, rs, cs, got, sent, sd, slot0, rq) && sd.Filled?
    ensures var c := cs[sent];
      SdOk(m, rs, cs, got, sent + 1, if c.at + c.len == rs[c.n].len then Idle else Reading(sd.slot, c.at + c.len), slot0, rq)
  {
    hide ChunkLen, AllReadable, Slot;
    if sent + 1 < |cs| {
      assert Next(rs, cs[sent], cs[sent + 1]);
    }
  }

  lemma PieceSlot(rs: seq<Read>, slot0: nat, bi0: nat, c: Chunk, k: nat)
    requires c.n < |rs|
    ensures var p := PieceOf(rs, slot0, bi0, c, k);
      && p.slot == Slot(slot0, c.n) < SLOTS && p.dst == rs[c.n].dst && p.at == c.at && p.bi == Bi(bi0, k) < 2 && p.len == c.len
      && p.first == (c.at == 0) && p.last == Whole(rs, c)
  {
  }

  lemma StillSized(mem: map<Buffer, seq<byte>>, dst: Buffer, at: nat, data: seq<byte>)
    requires dst in mem && at + |data| <= |mem[dst]|
    ensures Sized(mem) ==> Sized(mem[dst := Splice(mem[dst], at, data)])
  {
  }

  lemma CpTakes(m: Map, rs: seq<Read>, cs: seq<Chunk>, sent: nat, finished: nat, slot0: nat, bi0: nat, cq: seq<Piece>)
    requires CpOk(m, rs, cs, sent, finished, Ready, slot0, bi0, cq) && cq != []
    ensures CpOk(m, rs, cs, sent, finished, Received(cq[0]), slot0, bi0, cq[1..])
  {
    hide ChunksOk, PieceAt;
    var rest := cq[1..];
    forall i | 0 <= i < |rest|
      ensures PieceAt(m, rs, cs, slot0, bi0, finished + 1 + i, rest[i])
    {
      assert rest[i] == cq[i + 1];
    }
    assert PieceAt(m, rs, cs, slot0, bi0, finished + 0, cq[0]);
  }

  lemma CpMoves(m: Map, rs: seq<Read>, cs: seq<Chunk>, sent: nat, finished: nat, cp: Cp, now: Cp, slot0: nat, bi0: nat, cq: seq<Piece>)
    requires CpOk(m, rs, cs, sent, finished, cp, slot0, bi0, cq) && !cp.Ready? && !now.Ready? && now.piece == cp.piece
    ensures CpOk(m, rs, cs, sent, finished, now, slot0, bi0, cq)
  {
    hide ChunksOk, PieceAt;
  }

  lemma CpBehind(m: Map, rs: seq<Read>, cs: seq<Chunk>, sent: nat, finished: nat, cp: Cp, slot0: nat, bi0: nat, cq: seq<Piece>)
    requires CpOk(m, rs, cs, sent, finished, cp, slot0, bi0, cq) && !cp.Ready?
    ensures finished < sent
  {
    hide ChunksOk, PieceAt;
  }

  // ---- somebody can always go on --------------------------------------------------------------------------------

  lemma NothingOut(bi0: nat, k: nat)
    ensures NoneIn(bi0, Bi(bi0, k), k, k) && NoneIn(bi0, 0, k, k) && NoneIn(bi0, 1, k, k)
  {
  }

  lemma AllFinished(m: Map, rs: seq<Read>, cs: seq<Chunk>, sent: nat, finished: nat, cp: Cp, slot0: nat, bi0: nat, cq: seq<Piece>)
    requires CpOk(m, rs, cs, sent, finished, cp, slot0, bi0, cq) && Completed(rs, cs, finished) == |rs|
    ensures cp.Ready? && cq == [] && sent == finished == |cs|
  {
    hide ChunkLen, AllReadable, Fits, PieceAt, ChunksOk, Completed;
    if finished < |cs| {
      ChunkAfter(m, rs, cs, finished, finished);
    }
  }

  lemma SdIdle(m: Map, rs: seq<Read>, cs: seq<Chunk>, got: nat, sent: nat, sd: Sd, slot0: nat, rq: seq<nat>)
    requires SdOk(m, rs, cs, got, sent, sd, slot0, rq) && sent == |cs|
    ensures sd.Idle? && rq == []
  {
    hide ChunkLen, AllReadable, Fits, Slot;
  }

  lemma AllSent(m: Map, rs: seq<Read>, cs: seq<Chunk>, got: nat, sent: nat, slot0: nat, rq: seq<nat>)
    requires SdOk(m, rs, cs, got, sent, Idle, slot0, rq) && got == |rs|
    ensures Completed(rs, cs, sent) == |rs|
  {
    hide ChunkLen, AllReadable, Fits, Slot;
  }

  lemma BounceFree(m: Map, card: Feed, rs: seq<Read>, cs: seq<Chunk>, bi0: nat, given: nat, filled: nat, taken: nat,
                   free: seq<bool>, bounce: seq<seq<byte>>)
    requires BounceOk(m, card, rs, cs, bi0, given, filled, taken, free, bounce)
    ensures |free| == 2 && |bounce| == 2 && (given == taken ==> free[0] && free[1])
  {
    hide Data, ChunksOk, Bi;
  }

  // ---- one more read changes nothing about those before it --------------------------------------------------

  lemma OverMore(m: Map, rs: seq<Read>, cs: seq<Chunk>, r: Read, more: seq<Chunk>, finished: nat)
    requires ChunksOk(m, rs, cs) && finished <= |cs|
    ensures Completed(rs + [r], cs + more, finished) == Completed(rs, cs, finished) <= |rs|
  {
    CompletedStays(m, rs, cs, r, more, finished);
  }

  lemma RingRoom(rs: seq<Read>, over: nat, slot0: nat, ring: seq<Read>)
    requires RingOk(rs, over, slot0, ring)
    ensures over <= |rs| <= over + SLOTS
  {
    hide Slot;
  }

  lemma SlotNext(slot0: nat, n: nat, reqNext: nat)
    requires reqNext % SLOTS == Slot(slot0, n)
    ensures (reqNext + 1) % SLOTS == Slot(slot0, n + 1)
  {
  }

  lemma SdMore(m: Map, rs: seq<Read>, cs: seq<Chunk>, got: nat, sent: nat, sd: Sd, slot0: nat, rq: seq<nat>, r: Read)
    requires SdOk(m, rs, cs, got, sent, sd, slot0, rq) && Readable(m, r)
    ensures SdOk(m, rs + [r], cs + Pieces(m, r, |rs|), got, sent, sd, slot0, rq + [Slot(slot0, |rs|)])
  {
    hide ChunksOk, Pieces, Slot, ChunkLen, AllReadable, Readable;
    ChunksMore(m, rs, cs, r);
    if sent > 0 {
      ChunkFits(m, rs, cs, sent - 1);
    }
  }

  lemma CpMore(m: Map, rs: seq<Read>, cs: seq<Chunk>, sent: nat, finished: nat, cp: Cp, slot0: nat, bi0: nat, cq: seq<Piece>, r: Read, more: seq<Chunk>)
    requires CpOk(m, rs, cs, sent, finished, cp, slot0, bi0, cq) && Readable(m, r) && more == Pieces(m, r, |rs|)
    ensures CpOk(m, rs + [r], cs + more, sent, finished, cp, slot0, bi0, cq)
  {
    hide ChunksOk, Pieces, Slot, ChunkLen, AllReadable, Readable, Bi, PieceAt;
    ChunksMore(m, rs, cs, r);
    forall i | 0 <= i < |cq|
      ensures PieceAt(m, rs + [r], cs + more, slot0, bi0, HeldTo(finished, cp) + i, cq[i])
    {
      PieceMore(m, rs, cs, slot0, bi0, HeldTo(finished, cp) + i, cq[i], r, more);
    }
    if !cp.Ready? {
      PieceMore(m, rs, cs, slot0, bi0, finished, cp.piece, r, more);
    }
  }

  lemma PieceMore(m: Map, rs: seq<Read>, cs: seq<Chunk>, slot0: nat, bi0: nat, k: nat, p: Piece, r: Read, more: seq<Chunk>)
    requires PieceAt(m, rs, cs, slot0, bi0, k, p)
    ensures PieceAt(m, rs + [r], cs + more, slot0, bi0, k, p)
  {
    hide Slot, Bi;
  }

  lemma BounceMore(m: Map, card: Feed, rs: seq<Read>, cs: seq<Chunk>, bi0: nat, given: nat, filled: nat, taken: nat,
                   free: seq<bool>, bounce: seq<seq<byte>>, r: Read, more: seq<Chunk>)
    requires BounceOk(m, card, rs, cs, bi0, given, filled, taken, free, bounce) && Readable(m, r) && more == Pieces(m, r, |rs|)
    ensures BounceOk(m, card, rs + [r], cs + more, bi0, given, filled, taken, free, bounce)
  {
    hide ChunksOk, Pieces, Readable, Bi, NoneIn, Data;
    ChunksMore(m, rs, cs, r);
  }

  lemma MemMore(m: Map, card: Feed, rs: seq<Read>, cs: seq<Chunk>, c: nat, mem: map<Buffer, seq<byte>>, r: Read)
    requires MemOk(m, card, rs, cs, c, mem) && c <= |cs| && Readable(m, r) && r.dst in mem && r.len <= |mem[r.dst]|
    ensures MemOk(m, card, rs + [r], cs + Pieces(m, r, |rs|), c, mem)
  {
    hide ChunksOk, Pieces, ChunkLen, AllReadable, Readable, BufferOk;
    ChunksMore(m, rs, cs, r);
    if c > 0 {
      ChunkFits(m, rs, cs, c - 1);
      ReadableMore(m, rs, r);
      FitsStays(m, rs, r, cs[c - 1]);
      var now, ch := rs + [r], cs[c - 1];
      forall b: Buffer | true
        ensures BufferOk(m, card, now, ch, b, mem)
      {
        BufferMore(m, card, rs, cs[c - 1], b, mem, r);
      }
    }
  }

  lemma BufferMore(m: Map, card: Feed, rs: seq<Read>, ch: Chunk, b: Buffer, mem: map<Buffer, seq<byte>>, r: Read)
    requires AllReadable(m, rs) && Fits(m, rs, ch) && AllReadable(m, rs + [r]) && Fits(m, rs + [r], ch) && BufferOk(m, card, rs, ch, b, mem)
    ensures BufferOk(m, card, rs + [r], ch, b, mem)
  {
    hide ChunkLen, AllReadable, Last, Holds;
    assert (rs + [r])[..ch.n + 1] == rs[..ch.n + 1];
  }

  lemma SumMore(m: Map, card: Feed, tab: Table, step: (int, byte) -> int, rs: seq<Read>, cs: seq<Chunk>, c: nat, over: nat,
                slot0: nat, own: seq<int>, wq: seq<int>, r: Read)
    requires |own| == SLOTS && |wq| == 2 && SumOk(m, card, tab, step, rs, cs, c, over, slot0, own, wq) && c <= |cs|
    requires over <= |rs| < over + SLOTS && Readable(m, r) && Chained(tab, rs + [r], |rs|) && (r.acc.Shared? ==> r.acc.p < 2)
    ensures SumOk(m, card, tab, step, rs + [r], cs + Pieces(m, r, |rs|), c, over, slot0, own[Slot(slot0, |rs|) := 0], wq)
  {
    hide ChunksOk, Pieces, ChunkLen, AllReadable, Readable, Slot, Covered, Crc, Chained;
    ChunksMore(m, rs, cs, r);
    ChainMore(m, tab, rs, r);
    if c > 0 {
      ChunkFits(m, rs, cs, c - 1);
      ReadableMore(m, rs, r);
      FitsStays(m, rs, r, cs[c - 1]);
      var n := cs[c - 1].n;
      if n >= over {
        SlotsApart(slot0, n, |rs|);
      }
      assert (rs + [r])[n] == rs[n];
      CoveredStays(card, rs, r, n, cs[c - 1].at + cs[c - 1].len);
    }
  }

  lemma {:induction false} CoveredStays(card: Feed, rs: seq<Read>, r: Read, n: nat, w: nat)
    requires n < |rs|
    ensures Covered(card, rs + [r], n, w) == Covered(card, rs, n, w)
    decreases n
  {
    hide Got;
    if n > 0 {
      CoveredStays(card, rs, r, n - 1, rs[n - 1].len);
    }
  }

  lemma ChainMore(m: Map, tab: Table, rs: seq<Read>, r: Read)
    requires Chain(m, tab, rs) && Readable(m, r) && Chained(tab, rs + [r], |rs|)
    ensures Chain(m, tab, rs + [r])
  {
    hide Readable, Chained;
    forall n | 0 <= n < |rs|
      ensures Chained(tab, rs + [r], n)
    {
      ChainedStays(tab, rs, [r], n);
    }
  }

  lemma {:induction false} BadMore(card: Feed, tab: Table, step: (int, byte) -> int, rs: seq<Read>, over: nat, r: Read)
    requires over <= |rs|
    ensures Mismatches(card, tab, step, rs + [r], over) == Mismatches(card, tab, step, rs, over)
    decreases over
  {
    hide Covered, Crc;
    if over > 0 {
      CoveredStays(card, rs, r, over - 1, rs[over - 1].len);
      BadMore(card, tab, step, rs, over - 1, r);
    }
  }

  lemma CpEnds(m: Map, rs: seq<Read>, cs: seq<Chunk>, sent: nat, finished: nat, cp: Cp, slot0: nat, bi0: nat, cq: seq<Piece>)
    requires CpOk(m, rs, cs, sent, finished, cp, slot0, bi0, cq) && !cp.Ready?
    ensures CpOk(m, rs, cs, sent, finished + 1, Ready, slot0, bi0, cq) && finished < sent <= |cs|
  {
    hide ChunksOk, PieceAt;
  }

  lemma RingLess(rs: seq<Read>, over: nat, slot0: nat, ring: seq<Read>)
    requires RingOk(rs, over, slot0, ring) && over < |rs|
    ensures RingOk(rs, over + 1, slot0, ring) && |rs| <= over + SLOTS
  {
    hide Slot;
  }

  lemma SumLess(m: Map, card: Feed, tab: Table, step: (int, byte) -> int, rs: seq<Read>, cs: seq<Chunk>, c: nat, over: nat, more: nat,
                slot0: nat, own: seq<int>, wq: seq<int>)
    requires |own| == SLOTS && |wq| == 2 && SumOk(m, card, tab, step, rs, cs, c, over, slot0, own, wq) && over <= more
    ensures SumOk(m, card, tab, step, rs, cs, c, more, slot0, own, wq)
  {
    hide Crc, ChunkLen, AllChained, AllReadable, ChunksOk, Covered, Slot;
  }

  // What the cp task compares when a section is complete is the CRC of all that has come of it.
  lemma Checked(m: Map, card: Feed, tab: Table, step: (int, byte) -> int, rs: seq<Read>, cs: seq<Chunk>, k: nat, over: nat,
                slot0: nat, own: seq<int>, wq: seq<int>)
    requires |own| == SLOTS && |wq| == 2 && SumOk(m, card, tab, step, rs, cs, k + 1, over, slot0, own, wq)
    requires k < |cs| && over == cs[k].n < |rs| && Whole(rs, cs[k]) && (rs[cs[k].n].acc.Shared? ==> rs[cs[k].n].acc.p < 2)
    ensures var r := rs[over];
      && (r.verify ==> (AccOf(r, Slot(slot0, over), own, wq) == tab.want(r.li, r.sec) <==> Good(card, tab, step, rs, over)))
      && Mismatches(card, tab, step, rs, over + 1)
         == Mismatches(card, tab, step, rs, over) + if r.verify && !Good(card, tab, step, rs, over) then 1 else 0
  {
    hide Covered, Crc, ChunkLen, AllReadable, ChunksOk, Slot;
    ChunkFits(m, rs, cs, k);
  }

  lemma SumSlot(m: Map, card: Feed, tab: Table, step: (int, byte) -> int, rs: seq<Read>, cs: seq<Chunk>, k: nat, over: nat,
                slot0: nat, own: seq<int>, wq: seq<int>)
    requires |own| == SLOTS && |wq| == 2 && SumOk(m, card, tab, step, rs, cs, k, over, slot0, own, wq)
    ensures forall n :: 0 <= n < |rs| && rs[n].acc.Shared? ==> rs[n].acc.p < 2
  {
    hide Crc, ChunkLen, AllChained;
  }

  lemma DoneSize(rs: seq<Read>, over: nat, slot0: nat, done: seq<bool>, waited: set<nat>)
    requires DoneOk(rs, over, slot0, done, waited)
    ensures |done| == SLOTS
  {
  }

  lemma SumCarried(m: Map, card: Feed, tab: Table, step: (int, byte) -> int, rs: seq<Read>, cs: seq<Chunk>, k: nat, over: nat,
                   slot0: nat, wasOwn: seq<int>, wasWq: seq<int>, own: seq<int>, wq: seq<int>, sum: int)
    requires |wasOwn| == SLOTS && |wasWq| == 2 && |own| == SLOTS && |wq| == 2
    requires SumOk(m, card, tab, step, rs, cs, k + 1, over, slot0, own, wq)
    requires k < |cs| && over <= cs[k].n < |rs| && (rs[cs[k].n].acc.Shared? ==> rs[cs[k].n].acc.p < 2)
    requires own == if rs[cs[k].n].acc.Own? then wasOwn[Slot(slot0, cs[k].n) := sum] else wasOwn
    requires wq == if rs[cs[k].n].acc.Own? then wasWq else wasWq[rs[cs[k].n].acc.p := sum]
    ensures SummedThrough(card, step, rs, cs, k, slot0, wasOwn, wasWq, own, wq)
  {
    hide Crc, ChunkLen, AllChained, AllReadable, Fits, ChunksOk, Slot, Covered;
    ChunkFits(m, rs, cs, k);
  }

  // The cp task's sum for chunk k.
  lemma SumKeeps(m: Map, card: Feed, tab: Table, step: (int, byte) -> int, rs: seq<Read>, cs: seq<Chunk>, k: nat, over: nat,
                 slot0: nat, own: seq<int>, wq: seq<int>)
    requires |own| == SLOTS && |wq| == 2 && SumOk(m, card, tab, step, rs, cs, k, over, slot0, own, wq)
    requires k < |cs| && over <= cs[k].n < |rs| && (rs[cs[k].n].acc.Shared? ==> rs[cs[k].n].acc.p < 2)
    ensures AllReadable(m, rs) && Fits(m, rs, cs[k])
    ensures var r, slot := rs[cs[k].n], Slot(slot0, cs[k].n);
      var base := if cs[k].at == 0 && r.reset then 0 else AccOf(r, slot, own, wq);
      var sum := Crc(step, base, Data(card, cs[k]));
      SumOk(m, card, tab, step, rs, cs, k + 1, over, slot0, if r.acc.Own? then own[slot := sum] else own, if r.acc.Own? then wq else wq[r.acc.p := sum])
  {
    hide Crc, ChunkLen, AllChained, AllReadable, ChunksOk, Data, Covered, Slot;
    SumBefore(m, card, tab, step, rs, cs, k, over, slot0, own, wq);
    var r, slot := rs[cs[k].n], Slot(slot0, cs[k].n);
    SumAfter(card, step, rs, cs[k], if cs[k].at == 0 && r.reset then 0 else AccOf(r, slot, own, wq));
  }

  lemma CpGets(m: Map, rs: seq<Read>, cs: seq<Chunk>, sent: nat, finished: nat, cp: Cp, slot0: nat, bi0: nat, cq: seq<Piece>)
    requires CpOk(m, rs, cs, sent, finished, cp, slot0, bi0, cq) && sent < |cs| && |cq| < PIECES
    ensures ChunkN(m, rs, cs, sent)
    ensures CpOk(m, rs, cs, sent + 1, finished, cp, slot0, bi0, cq + [PieceOf(rs, slot0, bi0, cs[sent], sent)])
  {
    hide ChunksOk, Fits, AllReadable, Slot, Bi, PieceOf;
    ChunkFits(m, rs, cs, sent);
    var more, from := cq + [PieceOf(rs, slot0, bi0, cs[sent], sent)], HeldTo(finished, cp);
    forall i | 0 <= i < |more|
      ensures PieceAt(m, rs, cs, slot0, bi0, from + i, more[i])
    {
      if i < |cq| {
        assert more[i] == cq[i];
      }
    }
  }
}
