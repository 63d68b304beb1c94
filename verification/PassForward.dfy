// The pass (esp32-embedder/firmware/full/main/full.c:277-354): while one unit computes the next one's reads
// are under way. What a unit computes with is what its reads brought, whatever that was, and stays so until it
// is done; and the pass succeeds exactly when what came of every section it streamed has the CRC it should.
module PassForward {
  import opened Bytes
  import opened CardFile
  import opened PassPlan
  import opened PassReads
  import opened PassChunks
  import opened PassReader
  import opened PassTasks

  // The file's index is one this card can serve: every streamed section on a sector boundary and inside
  // the file, and no more outlier channels than there is room for.
  ghost predicate Servable(m: Map, tab: Table, layers: nat) {
    && Sound(m) && 0 < tab.k <= 8 && 0 < layers <= MAX_LAYERS
    && forall li: nat, sec: nat :: li < layers && Streamed(sec) ==>
         tab.start(li, sec) % SECTOR == 0 && tab.start(li, sec) + SectionLength(tab, sec) <= Size(m)
  }

  // ---- every read of the plan can be issued ---------------------------------------------------------------

  lemma SectionFits(m: Map, tab: Table, layers: nat, li: nat, sec: nat)
    requires Servable(m, tab, layers) && li < layers && Streamed(sec)
    ensures tab.start(li, sec) % SECTOR == 0 && tab.start(li, sec) + SectionLength(tab, sec) <= Size(m)
  {
  }

  predicate Issuable(m: Map, r: Read) {
    Readable(m, r) && Used(r.dst) && r.len <= Capacity(r.dst) && (r.acc.Shared? ==> r.acc.p < 2)
  }

  lemma NormIssuable(m: Map, tab: Table, layers: nat, u: nat, i: nat)
    requires Servable(m, tab, layers) && u < PER_LAYER * layers && i < 4
    ensures Issuable(m, NormRead(tab, UnitAt(u), i))
  {
    hide UnitAt, Servable;
    UnitProper(u);
    SectionFits(m, tab, layers, UnitAt(u).li, 30 + i);
    SoundMap(m, tab, layers);
    assert SectionLength(tab, 30 + i) == D * 4;
  }

  lemma SoundMap(m: Map, tab: Table, layers: nat)
    requires Servable(m, tab, layers)
    ensures Sound(m) && 0 < tab.k <= 8 && 0 < layers
  {
  }

  lemma SmallIssuable(m: Map, tab: Table, layers: nat, u: nat, which: nat)
    requires Servable(m, tab, layers) && u < PER_LAYER * layers && (which == 1 || which == 2 || which == 4)
    ensures Issuable(m, SmallRead(tab, UnitAt(u), which))
  {
    hide UnitAt, Servable;
    UnitProper(u);
    SoundMap(m, tab, layers);
    var t := UnitAt(u);
    assert (t.mi * 5 + which) / 5 == t.mi && (t.mi * 5 + which) % 5 == which;
    SectionFits(m, tab, layers, t.li, t.mi * 5 + which);
    Lengths(tab, u);
    OutlierRoom(t.mi, tab.k);
  }

  lemma OutlierRoom(mi: nat, k: nat)
    requires 0 < k <= 8
    ensures 0 < Out(mi) * k * 4 <= FF * 8 * 4
  {
    assert Out(mi) * k <= FF * 8 by {
      assert Out(mi) * k <= Out(mi) * 8;
    }
  }

  lemma WeightIssuable(m: Map, tab: Table, layers: nat, u: nat)
    requires Servable(m, tab, layers) && u < PER_LAYER * layers
    ensures Issuable(m, WeightRead(tab, u))
  {
    hide UnitAt, Servable;
    UnitProper(u);
    SoundMap(m, tab, layers);
    WeightFacts(tab, u);
    var t := UnitAt(u);
    assert (t.mi * 5) / 5 == t.mi && (t.mi * 5) % 5 == 0;
    SectionFits(m, tab, layers, t.li, t.mi * 5);
    RowsLength(t.r0, t.r1, In(t.mi));
    InSection(t.mi, t.r1);
    OnSector(tab.start(t.li, t.mi * 5), t.r0, In(t.mi));
  }

  lemma InSection(mi: nat, r1: nat)
    requires r1 <= Out(mi)
    ensures r1 * In(mi) <= Out(mi) * In(mi)
  {
  }

  lemma OnSector(start: nat, r0: nat, width: nat)
    requires start % SECTOR == 0 && (width == D || width == FF)
    ensures (start + r0 * width) % SECTOR == 0
  {
    var k := if width == D then 2 * r0 else 8 * r0;
    assert r0 * width == k * SECTOR;
    assert start == start / SECTOR * SECTOR;
    assert start + r0 * width == (start / SECTOR + k) * SECTOR;
  }

  // ---- issue ------------------------------------------------------------------------------------------------

  // One read of unit u, the k-th, and whatever the tasks have done meanwhile.
  method IssueOne(rd: Reader, ghost u: nat, ghost k: nat, r: Read)
    requires rd.Valid() && rd.tab.k > 0 && k < |ReadsOf(rd.tab, u)| && r == ReadsOf(rd.tab, u)[k] && Issuable(rd.m, r)
    requires rd.all == Issued(rd.tab, u) + ReadsOf(rd.tab, u)[..k] && |rd.all| - rd.Over() < SLOTS
    modifies rd
    ensures rd.Valid() && rd.all == Issued(rd.tab, u) + ReadsOf(rd.tab, u)[..k + 1]
    ensures rd.Over() >= old(rd.Over()) && rd.waited == old(rd.waited) && rd.bad0 == old(rd.bad0) && rd.slot0 == old(rd.slot0) && rd.card == old(rd.card)
  {
    hide Reader.Valid, ReadsOf, Issued, Completed, Readable, Chained;
    ghost var rs := ReadsOf(rd.tab, u);
    PlanChained(rd.tab, u, k);
    rd.Rd(r);
    assert rs[..k + 1] == rs[..k] + [rs[k]];
    rd.Background();
  }

  lemma FirstOf(a: seq<Read>, rs: seq<Read>, k: nat)
    requires k < |rs|
    ensures a + rs[..k] + [rs[k]] == (a + rs)[..|a| + k + 1]
  {
  }

  lemma PlanChained(tab: Table, u: nat, k: nat)
    requires tab.k > 0 && k < |ReadsOf(tab, u)|
    ensures Chained(tab, Issued(tab, u) + ReadsOf(tab, u)[..k] + [ReadsOf(tab, u)[k]], |Issued(tab, u)| + k)
  {
    hide Chained, ReadsOf;
    IssuedChained(tab, u + 1);
    var rs, whole := ReadsOf(tab, u), Issued(tab, u + 1);
    assert whole == Issued(tab, u) + rs;
    FirstOf(Issued(tab, u), rs, k);
    ChainedPrefix(tab, whole, |Issued(tab, u)| + k);
  }

  lemma ChainedPrefix(tab: Table, rs: seq<Read>, n: nat)
    requires n < |rs| && Chained(tab, rs, n)
    ensures Chained(tab, rs[..n + 1], n)
  {
  }

  // The four norm vectors of a layer, each to be waited for.
  method IssueNorms(rd: Reader, t: Unit, u: nat, ghost layers: nat) returns (waits: seq<nat>, ghost nums: seq<nat>)
    requires rd.Valid() && Servable(rd.m, rd.tab, layers) && u < PER_LAYER * layers && t == UnitAt(u) && t.mi == 0 && t.j == 0
    requires rd.all == Issued(rd.tab, u) && |rd.all| - rd.Over() + 8 <= SLOTS
    modifies rd
    ensures rd.Valid() && 4 <= |ReadsOf(rd.tab, u)| && rd.all == Issued(rd.tab, u) + ReadsOf(rd.tab, u)[..4]
    ensures rd.Over() >= old(rd.Over()) && rd.waited == old(rd.waited) && rd.bad0 == old(rd.bad0) && rd.slot0 == old(rd.slot0) && rd.card == old(rd.card)
    ensures |nums| == |waits| == 4
    ensures forall i :: 0 <= i < 4 ==> nums[i] == |Issued(rd.tab, u)| + i && waits[i] == Slot(rd.slot0, nums[i])
  {
    hide Reader.Valid, ReadsOf, Issued, Completed, Slot, UnitAt, Servable, Issuable, NormRead, SmallRead, WeightRead;
    ghost var from := |rd.all|;
    SoundMap(rd.m, rd.tab, layers);
    Places(rd.tab, u);
    ghost var rs := ReadsOf(rd.tab, u);
    assert rd.all == Issued(rd.tab, u) + rs[..0];
    waits, nums := [], [];
    var k := 0;
    while k < 4
      invariant 0 <= k <= 4 && rd.Valid() && rd.all == Issued(rd.tab, u) + rs[..k] && |rd.all| == from + k
      invariant rd.Over() >= old(rd.Over()) && rd.waited == old(rd.waited) && rd.bad0 == old(rd.bad0) && rd.slot0 == old(rd.slot0) && rd.card == old(rd.card)
      invariant |nums| == |waits| == k && forall i :: 0 <= i < k ==> nums[i] == from + i && waits[i] == Slot(rd.slot0, nums[i])
    {
      NormIssuable(rd.m, rd.tab, layers, u, k);
      var slot := NextSlot(rd);
      IssueOne(rd, u, k, NormRead(rd.tab, t, k));
      waits, nums := waits + [slot], nums + [from + k];
      k := k + 1;
    }
  }

  // The small sections of a matrix; only the last is waited for.
  method IssueSmalls(rd: Reader, t: Unit, u: nat, k: nat, ghost layers: nat) returns (slot: nat)
    requires rd.Valid() && Servable(rd.m, rd.tab, layers) && u < PER_LAYER * layers && t == UnitAt(u) && t.j == 0
    requires k == (if t.mi == 0 then 4 else 0) && k <= |ReadsOf(rd.tab, u)|
    requires rd.all == Issued(rd.tab, u) + ReadsOf(rd.tab, u)[..k] && |rd.all| - rd.Over() + 4 <= SLOTS
    modifies rd
    ensures rd.Valid() && k + 3 <= |ReadsOf(rd.tab, u)| && rd.all == Issued(rd.tab, u) + ReadsOf(rd.tab, u)[..k + 3]
    ensures rd.Over() >= old(rd.Over()) && rd.waited == old(rd.waited) && rd.bad0 == old(rd.bad0) && rd.slot0 == old(rd.slot0) && rd.card == old(rd.card)
    ensures slot == Slot(rd.slot0, |Issued(rd.tab, u)| + k + 2)
  {
    hide Reader.Valid, ReadsOf, Issued, Completed, Slot, UnitAt, Servable, Issuable, NormRead, SmallRead, WeightRead;
    SoundMap(rd.m, rd.tab, layers);
    Places(rd.tab, u);
    SmallIssuable(rd.m, rd.tab, layers, u, 1);
    SmallIssuable(rd.m, rd.tab, layers, u, 2);
    SmallIssuable(rd.m, rd.tab, layers, u, 4);
    IssueOne(rd, u, k, SmallRead(rd.tab, t, 1));
    IssueOne(rd, u, k + 1, SmallRead(rd.tab, t, 2));
    slot := NextSlot(rd);
    IssueOne(rd, u, k + 2, SmallRead(rd.tab, t, 4));
  }

  // issue: the reads of a unit. It says which slots to wait for: of the small sections only the last, since
  // reads complete in order.
  method Issue(rd: Reader, t: Unit, u: nat, ghost layers: nat) returns (waits: seq<nat>, ghost nums: seq<nat>)
    requires rd.Valid() && Servable(rd.m, rd.tab, layers) && u < PER_LAYER * layers && t == UnitAt(u)
    requires rd.all == Issued(rd.tab, u) && |rd.all| - rd.Over() + 8 <= SLOTS
    modifies rd
    ensures rd.Valid() && rd.all == Issued(rd.tab, u + 1)
    ensures rd.Over() >= old(rd.Over()) && rd.waited == old(rd.waited) && rd.bad0 == old(rd.bad0) && rd.slot0 == old(rd.slot0) && rd.card == old(rd.card)
    ensures Waits(nums, waits, rd.slot0, |Issued(rd.tab, u)|, |rd.all|)
    ensures |waits| <= 6
  {
    hide Reader.Valid, ReadsOf, Issued, Completed, Slot, UnitAt, Servable, Issuable, NormRead, SmallRead, WeightRead;
    ghost var from := |rd.all|;
    SoundMap(rd.m, rd.tab, layers);
    Places(rd.tab, u);
    ghost var rs := ReadsOf(rd.tab, u);
    assert rd.all == Issued(rd.tab, u) + rs[..0];
    waits, nums := [], [];
    var k := 0;
    if t.mi == 0 && t.j == 0 {
      waits, nums := IssueNorms(rd, t, u, layers);
      k := 4;
    }
    if t.j == 0 {
      var slot := IssueSmalls(rd, t, u, k, layers);
      waits, nums := waits + [slot], nums + [from + k + 2];
      k := k + 3;
    }
    WeightIssuable(rd.m, rd.tab, layers, u);
    var slot := NextSlot(rd);
    IssueOne(rd, u, k, WeightRead(rd.tab, u));
    waits, nums := waits + [slot], nums + [from + k];
    assert rs[..k + 1] == rs;
    IssuedNext(rd.tab, u);
  }

  lemma IssuedNext(tab: Table, u: nat)
    ensures Issued(tab, u + 1) == Issued(tab, u) + ReadsOf(tab, u)
  {
  }

  // Where each read of a unit is among them.
  lemma Places(tab: Table, u: nat)
    ensures var t, rs := UnitAt(u), ReadsOf(tab, u);
      var k := if t.mi == 0 && t.j == 0 then 4 else 0;
      && (k == 4 ==> forall i :: 0 <= i < 4 ==> rs[i] == NormRead(tab, t, i))
      && (t.j == 0 ==> |rs| == k + 4 && rs[k] == SmallRead(tab, t, 1) && rs[k + 1] == SmallRead(tab, t, 2) && rs[k + 2] == SmallRead(tab, t, 4))
      && (t.j != 0 ==> |rs| == 1) && rs[|rs| - 1] == WeightRead(tab, u)
  {
    hide UnitAt, WeightRead;
  }

  // &reqs[req_next % NREQ]
  method NextSlot(rd: Reader) returns (slot: nat)
    requires rd.Valid()
    ensures slot == Slot(rd.slot0, |rd.all|)
  {
    hide SdOk, CpOk, BuffersOk, SumsOk, RingOk, DoneOk, Completed, Slot;
    slot := rd.reqNext % SLOTS;
  }

  // What there is to wait for: reads from the first of them to the last, the last among them.
  predicate Waits(nums: seq<nat>, waits: seq<nat>, slot0: nat, from: nat, to: nat) {
    && |nums| == |waits| && nums != [] && nums[|nums| - 1] == to - 1 && |nums| <= 6
    && (forall i :: 0 <= i < |nums| ==> from <= nums[i] < to && waits[i] == Slot(slot0, nums[i]))
    && (forall i, k :: 0 <= i < k < |nums| ==> nums[i] < nums[k])
  }

  // ---- what a unit computes with ---------------------------------------------------------------------------

  // The read meant for the buffer is done, the buffer holds all that it brought, and no read under way will
  // touch it.
  ghost predicate InPlace(rd: Reader, u: nat, b: Buffer)
    requires InUse(u, b)
    reads rd
  {
    var e, l := Expected(rd.tab, u, b), Last(rd.all, b);
    && l.Some? && rd.all[l.value] == e && l.value < rd.Over() && Holds(rd.card, rd.mem, b, l.value, e.len)
    && forall n :: rd.Over() <= n < |rd.all| ==> rd.all[n].dst != b
  }

  ghost predicate AllInPlace(rd: Reader, u: nat)
    reads rd
  {
    forall b: Buffer :: InUse(u, b) ==> InPlace(rd, u, b)
  }

  // The reads of unit u are done, and at most the next unit's are under way.
  ghost predicate AtUnit(rd: Reader, u: nat)
    reads rd
  {
    && (rd.all == Issued(rd.tab, u + 1) || rd.all == Issued(rd.tab, u + 2))
    && |Issued(rd.tab, u + 1)| <= rd.Over()
  }

  lemma LastInPrefix(rs: seq<Read>, n: nat, b: Buffer)
    requires n <= |rs| && Last(rs, b).Some? && Last(rs, b).value < n
    ensures Last(rs[..n], b) == Last(rs, b)
  {
    hide Last;
    var l, p := Last(rs, b).value, rs[..n];
    assert p[l].dst == b;
    var v := Last(p, b).value;
    assert rs[v].dst == b;
  }

  // A read complete before some point, and last into its buffer, is there in full.
  lemma FullyLanded(m: Map, card: Feed, rs: seq<Read>, cs: seq<Chunk>, finished: nat, c: nat, mem: map<Buffer, seq<byte>>, b: Buffer, l: nat)
    requires MemOk(m, card, rs, cs, c, mem) && finished <= c <= |cs|
    requires Last(rs, b) == Some(l) && l < Completed(rs, cs, finished)
    ensures Holds(card, mem, b, l, rs[l].len)
  {
    hide ChunkLen, AllReadable, Last, Holds, MemUpTo, ChunksOk, Fits;
    assert finished > 0;
    ChunkFits(m, rs, cs, c - 1);
    UpToOne(m, card, rs, cs[c - 1], mem, b);
    var ch := cs[c - 1];
    AfterOver(m, rs, cs, finished, c);
    LastInPrefix(rs, ch.n + 1, b);
  }

  lemma UpToOne(m: Map, card: Feed, rs: seq<Read>, ch: Chunk, mem: map<Buffer, seq<byte>>, b: Buffer)
    requires AllReadable(m, rs) && Fits(m, rs, ch) && MemUpTo(m, card, rs, ch, mem)
    ensures BufferOk(m, card, rs, ch, b, mem)
  {
    hide BufferOk;
  }

  // The last chunk of c, of which the first finished are done, is of a read not complete by then, or is the
  // end of the last one that is.
  lemma AfterOver(m: Map, rs: seq<Read>, cs: seq<Chunk>, finished: nat, c: nat)
    requires ChunksOk(m, rs, cs) && 0 < finished <= c <= |cs|
    ensures var ch, over := cs[c - 1], Completed(rs, cs, finished);
      ch.n < |rs| && (over <= ch.n || (ch.n == over - 1 && Whole(rs, ch)))
  {
    hide ChunkLen, AllReadable;
    ChunkFits(m, rs, cs, c - 1);
    if finished < c {
      ChunkAfter(m, rs, cs, finished, c - 1);
    }
  }

  lemma UnitInPlace(rd: Reader, u: nat, b: Buffer)
    requires rd.Valid() && AtUnit(rd, u) && InUse(u, b)
    ensures InPlace(rd, u, b)
  {
    hide SdOk, Completed, RingOk, DoneOk, SumOk, BounceOk, MemOk, Last, Holds, ChunksOk, InUse, Issued, Readable, Sized, PieceAt, Slot, Mismatches;
    LoadedThrough(rd.tab, u, b);
    LoadedSays(rd.tab, u, b, rd.all);
    var l := Last(rd.all, b).value;
    FullyLanded(rd.m, rd.card, rd.all, rd.chunks, rd.finished, CopiedTo(rd.finished, rd.cp), rd.mem, b, l);
  }

  lemma LoadedSays(tab: Table, u: nat, b: Buffer, rs: seq<Read>)
    requires InUse(u, b) && Loaded(Issued(tab, u + 1), b, Expected(tab, u, b)) && Loaded(Issued(tab, u + 2), b, Expected(tab, u, b))
    requires rs == Issued(tab, u + 1) || rs == Issued(tab, u + 2)
    ensures Last(rs, b).Some? && Last(rs, b).value < |Issued(tab, u + 1)| && rs[Last(rs, b).value] == Expected(tab, u, b)
  {
    hide ReadsOf, InUse, Expected, Last, Issued;
    NoHazard(tab, u, b);
    IssuedNext(tab, u + 1);
    LastStays(Issued(tab, u + 1), ReadsOf(tab, u + 1), b);
  }

  lemma UnitAllInPlace(rd: Reader, u: nat)
    requires rd.Valid() && AtUnit(rd, u)
    ensures AllInPlace(rd, u)
  {
    hide Reader.Valid, AtUnit, InUse, InPlace;
    forall b: Buffer | InUse(u, b)
      ensures InPlace(rd, u, b)
    {
      UnitInPlace(rd, u, b);
    }
  }

  // The buffer holds the len bytes that a read of the section, from byte `from` of it on, has brought, and no
  // later read goes there.
  ghost predicate Brought(rd: Reader, b: Buffer, li: nat, sec: nat, from: int, len: int)
    reads rd
  {
    exists n :: 0 <= n < |rd.all| && BroughtBy(rd, n, b, li, sec, from, len)
  }

  ghost predicate BroughtBy(rd: Reader, n: nat, b: Buffer, li: nat, sec: nat, from: int, len: int)
    requires n < |rd.all|
    reads rd
  {
    && n < rd.Over() && 0 <= from && 0 <= len && rd.all[n].li == li && rd.all[n].sec == sec
    && rd.all[n].off == rd.tab.start(li, sec) + from && rd.all[n].len == len
    && b in rd.mem && len <= |rd.mem[b]| && rd.mem[b][..len] == Got(rd.card, n, 0, len)
    && forall k :: n < k < |rd.all| ==> rd.all[k].dst != b
  }

  // What a unit is to find, by section: its rows of the matrix's weights, the matrix's scales, biases and outlier
  // weights, and the layer's four norm vectors.
  ghost predicate Provided(rd: Reader, u: nat)
    reads rd
  {
    var t := UnitAt(u);
    var side := (t.li * 6 + t.mi) % 2;
    && Brought(rd, Stage(u % 2), t.li, t.mi * 5, t.r0 * In(t.mi), (t.r1 - t.r0) * In(t.mi))
    && Brought(rd, Scales(side), t.li, t.mi * 5 + 1, 0, Out(t.mi) * 4)
    && Brought(rd, Biases(side), t.li, t.mi * 5 + 2, 0, Out(t.mi) * 4)
    && Brought(rd, Outliers(side), t.li, t.mi * 5 + 4, 0, Out(t.mi) * rd.tab.k * 4)
    && (forall i :: 0 <= i < 4 ==> Brought(rd, Norm(t.li % 2, i), t.li, 30 + i, 0, D * 4))
  }

  lemma BroughtHere(rd: Reader, u: nat, b: Buffer, li: nat, sec: nat, from: nat, len: nat)
    requires InUse(u, b) && InPlace(rd, u, b)
    requires var e := Expected(rd.tab, u, b); e.li == li && e.sec == sec && e.off == rd.tab.start(li, sec) + from && e.len == len
    ensures Brought(rd, b, li, sec, from, len)
  {
    hide Expected, Last, InUse, Got;
    var n := Last(rd.all, b).value;
    assert BroughtBy(rd, n, b, li, sec, from, len);
  }

  lemma UnitProvided(rd: Reader, u: nat)
    requires AllInPlace(rd, u)
    ensures Provided(rd, u)
  {
    hide UnitAt, InPlace, Brought;
    var t := UnitAt(u);
    UnitProper(u);
    BroughtHere(rd, u, Stage(u % 2), t.li, t.mi * 5, t.r0 * In(t.mi), (t.r1 - t.r0) * In(t.mi));
    BroughtHere(rd, u, Scales(Side(t)), t.li, t.mi * 5 + 1, 0, Out(t.mi) * 4);
    BroughtHere(rd, u, Biases(Side(t)), t.li, t.mi * 5 + 2, 0, Out(t.mi) * 4);
    BroughtHere(rd, u, Outliers(Side(t)), t.li, t.mi * 5 + 4, 0, Out(t.mi) * rd.tab.k * 4);
    forall i | 0 <= i < 4
      ensures Brought(rd, Norm(t.li % 2, i), t.li, 30 + i, 0, D * 4)
    {
      BroughtHere(rd, u, Norm(t.li % 2, i), t.li, 30 + i, 0, D * 4);
    }
  }

  // The other core, and the units it has computed, in order.
  class Core {
    ghost var computed: seq<nat>

    constructor ()
      ensures computed == []
    {
      computed := [];
    }
  }

  // The first n units, each once, in their order.
  ghost predicate UpTo(units: seq<nat>, n: nat) {
    |units| == n && forall k :: 0 <= k < n ==> units[k] == k
  }

  // The unit's computation, on the other core: all the while, with the tasks going on underneath it, what
  // it reads is in place, each section where it belongs. It is begun only while every section read has been good.
  method Compute(rd: Reader, core: Core, u: nat)
    requires rd.Valid() && AtUnit(rd, u) && AllInPlace(rd, u) && Provided(rd, u) && rd.crcBad == rd.bad0
    modifies rd, core
    ensures core.computed == old(core.computed) + [u]
    ensures rd.Valid() && AllInPlace(rd, u) && Provided(rd, u) && rd.Over() >= old(rd.Over())
    ensures rd.all == old(rd.all) && rd.waited == old(rd.waited) && rd.bad0 == old(rd.bad0) && rd.slot0 == old(rd.slot0) && rd.card == old(rd.card)
  {
    hide Reader.Valid, Reader.SdCan, Reader.CpCan, AllInPlace, Provided, Completed, Issued, Reader.Left;
    core.computed := core.computed + [u];
    var n: nat :| 0 <= n;
    while n > 0 && (rd.SdCan() || rd.CpCan())
      invariant core.computed == old(core.computed) + [u]
      invariant rd.Valid() && AtUnit(rd, u) && AllInPlace(rd, u) && Provided(rd, u) && rd.Over() >= old(rd.Over())
      invariant rd.all == old(rd.all) && rd.waited == old(rd.waited) && rd.bad0 == old(rd.bad0) && rd.slot0 == old(rd.slot0) && rd.card == old(rd.card)
    {
      rd.Tick();
      UnitAllInPlace(rd, u);
      UnitProvided(rd, u);
      n := n - 1;
    }
  }

  // ---- what the pass says -----------------------------------------------------------------------------------

  lemma {:induction false} NoneBad(card: Feed, tab: Table, step: (int, byte) -> int, rs: seq<Read>, over: nat)
    requires over <= |rs|
    ensures Mismatches(card, tab, step, rs, over) == 0 <==> forall n :: 0 <= n < over && rs[n].verify ==> Good(card, tab, step, rs, n)
    decreases over
  {
    hide Good;
    if over > 0 {
      NoneBad(card, tab, step, rs, over - 1);
    }
  }

  // All the reads of a pass, and whether what came of every section they verify has the CRC it should.
  function PassOf(tab: Table, layers: nat): seq<Read> {
    Issued(tab, PER_LAYER * layers)
  }

  ghost predicate AllGood(card: Feed, tab: Table, step: (int, byte) -> int, layers: nat) {
    var rs := PassOf(tab, layers);
    forall n :: 0 <= n < |rs| && rs[n].verify ==> Good(card, tab, step, rs, n)
  }

  lemma {:induction false} IssuedPrefix(tab: Table, a: nat, b: nat)
    requires a <= b
    ensures Issued(tab, a) <= Issued(tab, b)
    decreases b
  {
    hide ReadsOf;
    if a < b {
      IssuedPrefix(tab, a, b - 1);
    }
  }

  lemma {:induction false} CoveredPrefix(card: Feed, rs: seq<Read>, all: seq<Read>, n: nat, w: nat)
    requires rs <= all && n < |rs|
    ensures Covered(card, all, n, w) == Covered(card, rs, n, w)
    decreases n
  {
    hide Got;
    if n > 0 {
      CoveredPrefix(card, rs, all, n - 1, rs[n - 1].len);
    }
  }

  lemma GoodPrefix(card: Feed, tab: Table, step: (int, byte) -> int, rs: seq<Read>, all: seq<Read>, n: nat)
    requires rs <= all && n < |rs|
    ensures Good(card, tab, step, all, n) <==> Good(card, tab, step, rs, n)
  {
    hide Covered, Crc;
    CoveredPrefix(card, rs, all, n, rs[n].len);
  }

  // No mismatch among all the reads of a pass: every section came as it should; and one among any of them
  // means that some section did not.
  lemma Verdict(card: Feed, tab: Table, step: (int, byte) -> int, layers: nat, n: nat, over: nat)
    requires n <= PER_LAYER * layers && over <= |Issued(tab, n)|
    ensures Mismatches(card, tab, step, Issued(tab, n), over) > 0 ==> !AllGood(card, tab, step, layers)
    ensures n == PER_LAYER * layers && over == |Issued(tab, n)| ==>
      (Mismatches(card, tab, step, Issued(tab, n), over) == 0 <==> AllGood(card, tab, step, layers))
  {
    hide Good, Issued, Mismatches;
    var rs := Issued(tab, n);
    NoneBad(card, tab, step, rs, over);
    IssuedPrefix(tab, n, PER_LAYER * layers);
    forall k | 0 <= k < |rs|
      ensures Good(card, tab, step, PassOf(tab, layers), k) <==> Good(card, tab, step, rs, k)
    {
      GoodPrefix(card, tab, step, rs, PassOf(tab, layers), k);
    }
  }

  lemma BadIs(rd: Reader)
    requires rd.Valid()
    ensures rd.crcBad == rd.bad0 + Mismatches(rd.card, rd.tab, rd.step, rd.all, rd.Over()) && rd.Over() <= |rd.all|
  {
    hide SdOk, CpOk, BuffersOk, SumOk, DoneOk, Mismatches, Completed, Slot;
  }

  // Every request of the unit, in turn.
  method WaitAll(rd: Reader, waits: seq<nat>, ghost nums: seq<nat>, ghost from: nat, ghost to: nat)
    requires rd.Valid() && Waits(nums, waits, rd.slot0, from, to) && to <= |rd.all| <= from + SLOTS
    requires forall w :: w in rd.waited ==> w < from
    modifies rd
    ensures rd.Valid() && rd.Over() >= old(rd.Over()) && rd.Over() >= to
    ensures rd.all == old(rd.all) && rd.bad0 == old(rd.bad0) && rd.slot0 == old(rd.slot0) && rd.card == old(rd.card)
    ensures forall w :: w in rd.waited ==> w < to
  {
    hide Reader.Valid, Completed, Slot;
    var i := 0;
    while i < |waits|
      invariant 0 <= i <= |waits| && rd.Valid() && rd.Over() >= old(rd.Over())
      invariant rd.all == old(rd.all) && rd.bad0 == old(rd.bad0) && rd.slot0 == old(rd.slot0) && rd.card == old(rd.card)
      invariant forall w :: w in rd.waited ==> w < from || (i > 0 && w <= nums[i - 1])
      invariant i > 0 ==> nums[i - 1] < rd.Over()
    {
      assert i > 0 ==> nums[i - 1] < nums[i];
      rd.WaitRd(waits[i], nums[i]);
      i := i + 1;
    }
  }

  lemma UnitReads(tab: Table, u: nat)
    ensures |Issued(tab, u + 1)| == |Issued(tab, u)| + |ReadsOf(tab, u)| && 0 < |ReadsOf(tab, u)| <= 8
  {
    hide ReadsOf;
    LastRead(tab, u);
  }

  // pass_fwd: 0 if and only if what came of every section it streams, whatever that was, has the CRC it should.
  // Either way no read is left under way when it ends. If 0, every unit has been computed, once and in order; if
  // not, some first units, and not all.
  method PassForward(rd: Reader, core: Core, card: Feed, units: array<Unit>, n: nat, ghost layers: nat) returns (rc: int)
    requires rd.Valid() && rd.Over() == |rd.all| && Servable(rd.m, rd.tab, layers)
    requires n == PER_LAYER * layers <= units.Length && forall u :: 0 <= u < n ==> units[u] == UnitAt(u)
    requires core.computed == []
    modifies rd, core
    ensures rd.Valid() && rd.Over() == |rd.all|
    ensures rc == 0 || rc == -1
    ensures rc == 0 ==> UpTo(core.computed, n)
    ensures rc != 0 ==> exists k: nat :: k < n && UpTo(core.computed, k)
    ensures rc == 0 <==> AllGood(card, rd.tab, rd.step, layers)
  {
    hide Reader.Valid, Completed, Slot, Issued, ReadsOf, UnitAt, Servable, AllGood, Mismatches, Waits, AllInPlace,
      Provided;
    SoundMap(rd.m, rd.tab, layers);
    var crc0 := rd.crcBad;
    rd.Rest(card);
    NoReads(rd.tab);
    var waits;
    ghost var nums;
    waits, nums := Issue(rd, units[0], 0, layers);
    var u := 0;
    while u < n
      invariant 0 <= u <= n && rd.Valid() && rd.bad0 == crc0 && rd.card == card && UpTo(core.computed, u)
      invariant rd.all == Issued(rd.tab, if u < n then u + 1 else n) && |Issued(rd.tab, u)| <= rd.Over()
      invariant u < n ==> Waits(nums, waits, rd.slot0, |Issued(rd.tab, u)|, |Issued(rd.tab, u + 1)|)
      invariant forall w :: w in rd.waited ==> w < |Issued(rd.tab, u)|
      invariant u == n ==> Mismatches(rd.card, rd.tab, rd.step, rd.all, |rd.all|) == 0
    {
      UnitReads(rd.tab, u);
      var next: seq<nat> := [];
      ghost var nextNums: seq<nat> := [];
      if u + 1 < n {
        UnitReads(rd.tab, u + 1);
        next, nextNums := Issue(rd, units[u + 1], u + 1, layers);
      }
      WaitAll(rd, waits, nums, |Issued(rd.tab, u)|, |Issued(rd.tab, u + 1)|);
      BadIs(rd);
      if rd.crcBad != crc0 {
        Verdict(rd.card, rd.tab, rd.step, layers, if u + 1 < n then u + 2 else u + 1, rd.Over());
        if u + 1 < n {
          LastWait(nextNums, next, rd.slot0, |Issued(rd.tab, u + 1)|, |Issued(rd.tab, u + 2)|);
          rd.WaitRd(next[|next| - 1], nextNums[|nextNums| - 1]);
          BadIs(rd);
        }
        return -1;
      }
      UnitAllInPlace(rd, u);
      UnitProvided(rd, u);
      Compute(rd, core, u);
      BadIs(rd);
      waits := next;
      nums := nextNums;
      u := u + 1;
    }
    BadIs(rd);
    Verdict(rd.card, rd.tab, rd.step, layers, n, |rd.all|);
    return 0;
  }

  lemma NoReads(tab: Table)
    ensures Issued(tab, 0) == []
  {
  }

  lemma LastWait(nums: seq<nat>, waits: seq<nat>, slot0: nat, from: nat, to: nat)
    requires Waits(nums, waits, slot0, from, to)
    ensures |waits| == |nums| > 0 && nums[|nums| - 1] == to - 1 >= from && waits[|waits| - 1] == Slot(slot0, nums[|nums| - 1])
  {
    hide Slot;
  }
}
