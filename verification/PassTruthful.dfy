// When the card gives what is on it: then a pass succeeds exactly when every streamed section of the file has
// the CRC it should, and computes with the file's bytes (esp32-embedder/firmware/full/main/full.c:115-134, 277-354).
module PassTruthful {
  import opened Bytes
  import opened CardFile
  import opened PassPlan
  import opened PassReads
  import opened PassChunks
  import opened PassReader
  import opened PassTasks
  import opened PassForward

  // Each byte of each read is the file's.
  ghost predicate Truthful(m: Map, file: Card, card: Feed, rs: seq<Read>)
    requires AllReadable(m, rs)
  {
    forall n, i :: 0 <= n < |rs| && 0 <= i < rs[n].len ==> card(n, i) == ByteOf(m, file, rs, n, i)
  }

  function ByteOf(m: Map, file: Card, rs: seq<Read>, n: nat, i: nat): byte
    requires AllReadable(m, rs) && n < |rs| && i < rs[n].len
  {
    assert Readable(m, rs[n]);
    FileByte(m, file, rs[n].off + i)
  }

  // Then what a read brings is its part of the file.
  lemma GotIsFile(m: Map, file: Card, card: Feed, rs: seq<Read>, n: nat, w: nat)
    requires AllReadable(m, rs) && Truthful(m, file, card, rs) && n < |rs| && w <= rs[n].len
    ensures Readable(m, rs[n]) && Got(card, n, 0, w) == FileBytes(m, file, rs[n].off, w)
  {
    hide FileByte;
    assert Readable(m, rs[n]);
    forall i | 0 <= i < w
      ensures Got(card, n, 0, w)[i] == FileBytes(m, file, rs[n].off, w)[i]
    {
      assert card(n, i) == ByteOf(m, file, rs, n, i);
    }
  }

  // And what has come of a section is the file's section from its start.
  lemma {:induction false} CoveredIsFile(m: Map, file: Card, card: Feed, tab: Table, rs: seq<Read>, n: nat, w: nat)
    requires AllReadable(m, rs) && AllChained(tab, rs) && Truthful(m, file, card, rs) && n < |rs| && w <= rs[n].len
    ensures Readable(m, rs[n]) && tab.start(rs[n].li, rs[n].sec) <= rs[n].off
    ensures var start := tab.start(rs[n].li, rs[n].sec);
      Covered(card, rs, n, w) == FileBytes(m, file, start, rs[n].off + w - start)
    decreases n
  {
    hide *;
    Readable_(m, rs, n);
    ReadableIs(m, rs[n]);
    LinkOf(tab, rs, n);
    GotIsFile(m, file, card, rs, n, w);
    CoveredIs(card, rs, n, w);
    if !rs[n].reset {
      CoveredIsFile(m, file, card, tab, rs, n - 1, rs[n - 1].len);
      Joined(m, file, tab.start(rs[n].li, rs[n].sec), rs[n].off, w);
    }
  }

  lemma ReadableIs(m: Map, r: Read)
    requires Readable(m, r)
    ensures Sound(m) && r.off + r.len <= Size(m)
  {
  }

  lemma Joined(m: Map, file: Card, start: nat, off: nat, w: nat)
    requires Sound(m) && start <= off && off + w <= Size(m)
    ensures FileBytes(m, file, start, off + w - start) == FileBytes(m, file, start, off - start) + FileBytes(m, file, off, w)
  {
    hide FileBytes, Sound;
    BytesSplit(m, file, start, off - start, w);
  }

  lemma LinkOf(tab: Table, rs: seq<Read>, n: nat)
    requires AllChained(tab, rs) && n < |rs|
    ensures tab.start(rs[n].li, rs[n].sec) <= rs[n].off && (rs[n].reset ==> rs[n].off == tab.start(rs[n].li, rs[n].sec))
    ensures !rs[n].reset ==> n > 0 && rs[n - 1].li == rs[n].li && rs[n - 1].sec == rs[n].sec && rs[n - 1].off + rs[n - 1].len == rs[n].off
    ensures rs[n].verify ==> rs[n].off + rs[n].len == tab.start(rs[n].li, rs[n].sec) + SectionLength(tab, rs[n].sec)
  {
    hide SectionLength;
    assert Chained(tab, rs, n);
  }

  lemma CoveredIs(card: Feed, rs: seq<Read>, n: nat, w: nat)
    requires n < |rs|
    ensures n == 0 || rs[n].reset ==> Covered(card, rs, n, w) == Got(card, n, 0, w)
    ensures n > 0 && !rs[n].reset ==> Covered(card, rs, n, w) == Covered(card, rs, n - 1, rs[n - 1].len) + Got(card, n, 0, w)
  {
    hide Got;
    assert [] + Got(card, n, 0, w) == Got(card, n, 0, w);
  }

  // The section on the card has the CRC it should.
  predicate SectionGood(m: Map, file: Card, tab: Table, step: (int, byte) -> int, li: nat, sec: nat) {
    Sound(m) && tab.start(li, sec) + SectionLength(tab, sec) <= Size(m) &&
    Crc(step, 0, FileBytes(m, file, tab.start(li, sec), SectionLength(tab, sec))) == tab.want(li, sec)
  }

  lemma GoodIsSection(m: Map, file: Card, card: Feed, tab: Table, step: (int, byte) -> int, rs: seq<Read>, n: nat)
    requires AllReadable(m, rs) && AllChained(tab, rs) && Truthful(m, file, card, rs) && n < |rs| && rs[n].verify
    ensures Good(card, tab, step, rs, n) <==> SectionGood(m, file, tab, step, rs[n].li, rs[n].sec)
  {
    hide FileBytes, Truthful, AllReadable, Covered, Crc, Chained, AllChained, SectionLength;
    CoveredIsFile(m, file, card, tab, rs, n, rs[n].len);
    LinkOf(tab, rs, n);
  }

  // ---- the reads of a pass ------------------------------------------------------------------------------------

  lemma UnitReadable(m: Map, tab: Table, layers: nat, u: nat, k: nat)
    requires Servable(m, tab, layers) && u < PER_LAYER * layers && k < |ReadsOf(tab, u)|
    ensures Readable(m, ReadsOf(tab, u)[k])
  {
    hide UnitAt, Servable, NormRead, SmallRead, WeightRead, Readable;
    Places(tab, u);
    NormIssuable(m, tab, layers, u, 0);
    NormIssuable(m, tab, layers, u, 1);
    NormIssuable(m, tab, layers, u, 2);
    NormIssuable(m, tab, layers, u, 3);
    SmallIssuable(m, tab, layers, u, 1);
    SmallIssuable(m, tab, layers, u, 2);
    SmallIssuable(m, tab, layers, u, 4);
    WeightIssuable(m, tab, layers, u);
  }

  lemma {:induction false} PassReadable(m: Map, tab: Table, layers: nat, n: nat)
    requires Servable(m, tab, layers) && n <= PER_LAYER * layers
    ensures AllReadable(m, Issued(tab, n))
    decreases n
  {
    hide ReadsOf, Servable, Readable;
    if n > 0 {
      PassReadable(m, tab, layers, n - 1);
      var rs := ReadsOf(tab, n - 1);
      forall k | 0 <= k < |rs|
        ensures Readable(m, rs[k])
      {
        UnitReadable(m, tab, layers, n - 1, k);
      }
    }
  }

  lemma {:induction false} IssuedStreamed(tab: Table, n: nat, k: nat)
    requires k < |Issued(tab, n)|
    ensures Streamed(Issued(tab, n)[k].sec) && PER_LAYER * Issued(tab, n)[k].li < n
    decreases n
  {
    hide ReadsOf, UnitAt;
    if k < |Issued(tab, n - 1)| {
      IssuedStreamed(tab, n - 1, k);
    } else {
      UnitStreamed(tab, n - 1, k - |Issued(tab, n - 1)|);
    }
  }

  lemma UnitStreamed(tab: Table, u: nat, k: nat)
    requires k < |ReadsOf(tab, u)|
    ensures Streamed(ReadsOf(tab, u)[k].sec) && PER_LAYER * ReadsOf(tab, u)[k].li <= u
  {
    hide UnitAt, WeightRead, SectionLength, Streamed;
    UnitProper(u);
    WeightFacts(tab, u);
    OfMatrix(UnitAt(u).mi, 0);
    OfMatrix(UnitAt(u).mi, 1);
    OfMatrix(UnitAt(u).mi, 2);
    OfMatrix(UnitAt(u).mi, 4);
    NormStreamed();
  }

  lemma OfMatrix(mi: nat, which: nat)
    requires mi < 6 && which < 5 && which != 3
    ensures Streamed(mi * 5 + which)
  {
    assert (mi * 5 + which) % 5 == which;
  }

  lemma NormStreamed()
    ensures Streamed(30) && Streamed(31) && Streamed(32) && Streamed(33)
  {
  }

  // With such a card a pass ends well if and only if every streamed section of the file is as it should be.
  lemma GoodIsFile(m: Map, file: Card, card: Feed, tab: Table, step: (int, byte) -> int, layers: nat)
    requires Servable(m, tab, layers) && AllReadable(m, PassOf(tab, layers)) && Truthful(m, file, card, PassOf(tab, layers))
    ensures AllGood(card, tab, step, layers) <==>
      forall li: nat, sec: nat :: li < layers && ((sec < 30 && sec % 5 != 3) || 30 <= sec < 34) ==>
        && Sound(m) && tab.start(li, sec) + SectionLength(tab, sec) <= Size(m)
        && Crc(step, 0, FileBytes(m, file, tab.start(li, sec), SectionLength(tab, sec))) == tab.want(li, sec)
  {
    hide AllGood, AllReadable, Truthful, Servable, FileBytes, Crc, SectionLength;
    AllGoodIsFile(m, file, card, tab, step, layers);
    assert forall li: nat, sec: nat :: SectionGood(m, file, tab, step, li, sec) <==>
      && Sound(m) && tab.start(li, sec) + SectionLength(tab, sec) <= Size(m)
      && Crc(step, 0, FileBytes(m, file, tab.start(li, sec), SectionLength(tab, sec))) == tab.want(li, sec);
  }

  lemma AllGoodIsFile(m: Map, file: Card, card: Feed, tab: Table, step: (int, byte) -> int, layers: nat)
    requires Servable(m, tab, layers) && AllReadable(m, PassOf(tab, layers)) && Truthful(m, file, card, PassOf(tab, layers))
    ensures AllGood(card, tab, step, layers) <==>
      forall li: nat, sec: nat :: li < layers && Streamed(sec) ==> SectionGood(m, file, tab, step, li, sec)
  {
    hide Issued, Good, SectionGood, Truthful, AllReadable, Streamed;
    var rs := PassOf(tab, layers);
    SoundMap(m, tab, layers);
    IssuedChained(tab, PER_LAYER * layers);
    forall k | 0 <= k < |rs| && rs[k].verify
      ensures Good(card, tab, step, rs, k) <==> SectionGood(m, file, tab, step, rs[k].li, rs[k].sec)
      ensures Streamed(rs[k].sec) && rs[k].li < layers
    {
      GoodIsSection(m, file, card, tab, step, rs, k);
      IssuedStreamed(tab, PER_LAYER * layers, k);
    }
    if AllGood(card, tab, step, layers) {
      forall li: nat, sec: nat | li < layers && Streamed(sec)
        ensures SectionGood(m, file, tab, step, li, sec)
      {
        AllVerified(tab, layers, li, sec);
        var k :| 0 <= k < |rs| && rs[k].verify && rs[k].li == li && rs[k].sec == sec;
      }
    }
  }

  // And what a unit finds in a buffer it uses is the file's bytes of the section meant for it.
  lemma InPlaceIsFile(rd: Reader, u: nat, b: Buffer, file: Card)
    requires InUse(u, b) && InPlace(rd, u, b) && AllReadable(rd.m, rd.all) && Truthful(rd.m, file, rd.card, rd.all)
    ensures var e := Expected(rd.tab, u, b);
      && Readable(rd.m, e) && b in rd.mem && e.len <= |rd.mem[b]|
      && rd.mem[b][..e.len] == FileBytes(rd.m, file, e.off, e.len)
  {
    hide Expected, Last, Got, FileBytes, Truthful, AllReadable;
    GotIsFile(rd.m, file, rd.card, rd.all, Last(rd.all, b).value, Expected(rd.tab, u, b).len);
  }

  // While a unit computes, each buffer it uses holds the file's bytes: of its own rows of the matrix's weights,
  // of the matrix's scales, biases and outlier weights, and of the layer's four norm vectors.
  lemma UnitSees(rd: Reader, u: nat, file: Card)
    requires Provided(rd, u) && AllReadable(rd.m, rd.all) && Truthful(rd.m, file, rd.card, rd.all)
    ensures var t := UnitAt(u);
      var side := (t.li * 6 + t.mi) % 2;
      && Shows(rd, file, Stage(u % 2), t.li, t.mi * 5, t.r0 * In(t.mi), (t.r1 - t.r0) * In(t.mi))
      && Shows(rd, file, Scales(side), t.li, t.mi * 5 + 1, 0, Out(t.mi) * 4)
      && Shows(rd, file, Biases(side), t.li, t.mi * 5 + 2, 0, Out(t.mi) * 4)
      && Shows(rd, file, Outliers(side), t.li, t.mi * 5 + 4, 0, Out(t.mi) * rd.tab.k * 4)
      && forall i :: 0 <= i < 4 ==> Shows(rd, file, Norm(t.li % 2, i), t.li, 30 + i, 0, D * 4)
  {
    hide UnitAt, Brought, Shows, Truthful, AllReadable;
    var t := UnitAt(u);
    UnitProper(u);
    var side := (t.li * 6 + t.mi) % 2;
    BroughtShows(rd, file, Stage(u % 2), t.li, t.mi * 5, t.r0 * In(t.mi), (t.r1 - t.r0) * In(t.mi));
    BroughtShows(rd, file, Scales(side), t.li, t.mi * 5 + 1, 0, Out(t.mi) * 4);
    BroughtShows(rd, file, Biases(side), t.li, t.mi * 5 + 2, 0, Out(t.mi) * 4);
    BroughtShows(rd, file, Outliers(side), t.li, t.mi * 5 + 4, 0, Out(t.mi) * rd.tab.k * 4);
    forall i | 0 <= i < 4
      ensures Shows(rd, file, Norm(t.li % 2, i), t.li, 30 + i, 0, D * 4)
    {
      BroughtShows(rd, file, Norm(t.li % 2, i), t.li, 30 + i, 0, D * 4);
    }
  }

  // The buffer begins with the len bytes of the file that stand at byte `from` of the section.
  ghost predicate Shows(rd: Reader, file: Card, b: Buffer, li: nat, sec: nat, from: int, len: int)
    reads rd
  {
    var at := rd.tab.start(li, sec) + from;
    && 0 <= from && 0 <= len && Sound(rd.m) && at + len <= Size(rd.m) && b in rd.mem && len <= |rd.mem[b]|
    && rd.mem[b][..len] == FileBytes(rd.m, file, at, len)
  }

  lemma BroughtShows(rd: Reader, file: Card, b: Buffer, li: nat, sec: nat, from: int, len: int)
    requires Brought(rd, b, li, sec, from, len) && AllReadable(rd.m, rd.all) && Truthful(rd.m, file, rd.card, rd.all)
    ensures Shows(rd, file, b, li, sec, from, len)
  {
    hide Got, FileBytes, Truthful, AllReadable;
    var n :| 0 <= n < |rd.all| && BroughtBy(rd, n, b, li, sec, from, len);
    GotIsFile(rd.m, file, rd.card, rd.all, n, len);
  }
}
