// The reads of each unit (esp32-embedder/firmware/full/main/full.c:277-298): which section of the file goes
// to which buffer. What a unit computes with stays loaded, and untouched, until it is done.
module PassReads {
  import opened Bytes
  import opened PassPlan

  datatype Buffer = Stage(p: nat) | Scales(p: nat) | Biases(p: nat) | Outliers(p: nat) | Norm(p: nat, i: nat)

  // Where a read's CRC is kept: with the read, or with its matrix, over all its blocks.
  datatype Acc = Own | Shared(p: nat)

  // The file's index: where each section of each layer starts, and its CRC as it should be.
  datatype Table = Table(k: nat, start: (nat, nat) -> nat, want: (nat, nat) -> int)

  datatype Read = Read(dst: Buffer, off: nat, len: nat, acc: Acc, reset: bool, verify: bool, li: nat, sec: nat)

  // The matrix's weights, scales, biases, outlier channels and their weights; then the layer's norms.
  function SectionLength(tab: Table, sec: nat): nat {
    if sec >= 30 then D * 4
    else
      var mi, which := sec / 5, sec % 5;
      if which == 0 then Out(mi) * In(mi) else if which == 4 then Out(mi) * tab.k * 4 else if which == 3 then tab.k * 2 else Out(mi) * 4
  }

  // Of matrix mi's five sections: a byte to a weight, four to a scale, a bias and each outlier channel's weight, two
  // to an outlier channel's number; and four to each of a norm vector's 1024 numbers.
  lemma SectionsInBytes(tab: Table, mi: nat, i: nat)
    requires mi < 6 && i < 4
    ensures SectionLength(tab, mi * 5) == Out(mi) * In(mi)
    ensures SectionLength(tab, mi * 5 + 1) == SectionLength(tab, mi * 5 + 2) == 4 * Out(mi)
    ensures SectionLength(tab, mi * 5 + 3) == 2 * tab.k && SectionLength(tab, mi * 5 + 4) == Out(mi) * tab.k * 4
    ensures SectionLength(tab, 30 + i) == 4096
  {
    hide In, Out;
    OfFive(mi, 0);
    OfFive(mi, 1);
    OfFive(mi, 2);
    OfFive(mi, 3);
    OfFive(mi, 4);
  }

  lemma OfFive(mi: nat, which: nat)
    requires mi < 6 && which < 5
    ensures mi * 5 + which < 30 && (mi * 5 + which) / 5 == mi && (mi * 5 + which) % 5 == which
  {
  }

  function Side(t: Unit): nat { (t.li * 6 + t.mi) % 2 }

  function NormRead(tab: Table, t: Unit, i: nat): Read {
    Read(Norm(t.li % 2, i), tab.start(t.li, 30 + i), D * 4, Own, true, true, t.li, 30 + i)
  }

  function SmallRead(tab: Table, t: Unit, which: nat): Read {
    Read(if which == 1 then Scales(Side(t)) else if which == 2 then Biases(Side(t)) else Outliers(Side(t)),
         tab.start(t.li, t.mi * 5 + which), if which == 4 then Out(t.mi) * tab.k * 4 else Out(t.mi) * 4,
         Own, true, true, t.li, t.mi * 5 + which)
  }

  function WeightRead(tab: Table, u: nat): Read {
    var t := UnitAt(u);
    Read(Stage(u % 2), tab.start(t.li, t.mi * 5) + t.r0 * In(t.mi), Height(t) * In(t.mi),
         Shared(Side(t)), t.j == 0, t.j == t.nb - 1, t.li, t.mi * 5)
  }

  // The rows of a unit.
  function Height(t: Unit): nat {
    if t.r0 <= t.r1 then t.r1 - t.r0 else 0
  }

  function ReadsOf(tab: Table, u: nat): seq<Read> {
    var t := UnitAt(u);
    (if t.mi == 0 && t.j == 0 then [NormRead(tab, t, 0), NormRead(tab, t, 1), NormRead(tab, t, 2), NormRead(tab, t, 3)] else [])
    + (if t.j == 0 then [SmallRead(tab, t, 1), SmallRead(tab, t, 2), SmallRead(tab, t, 4)] else [])
    + [WeightRead(tab, u)]
  }

  // The reads of the first n units.
  function Issued(tab: Table, n: nat): seq<Read> {
    if n == 0 then [] else Issued(tab, n - 1) + ReadsOf(tab, n - 1)
  }

  // ---- what a unit uses ------------------------------------------------------------------------------

  predicate InUse(u: nat, b: Buffer) {
    var t := UnitAt(u);
    match b
    case Stage(p) => p == u % 2
    case Scales(p) => p == Side(t)
    case Biases(p) => p == Side(t)
    case Outliers(p) => p == Side(t)
    case Norm(p, i) => p == t.li % 2 && i < 4
  }

  // The read that a buffer's contents must come from while unit u computes.
  function Expected(tab: Table, u: nat, b: Buffer): Read
    requires InUse(u, b)
  {
    var t := UnitAt(u);
    match b
    case Stage(_) => WeightRead(tab, u)
    case Scales(_) => SmallRead(tab, t, 1)
    case Biases(_) => SmallRead(tab, t, 2)
    case Outliers(_) => SmallRead(tab, t, 4)
    case Norm(_, i) => NormRead(tab, t, i)
  }

  function Last(rs: seq<Read>, b: Buffer): (r: Option<nat>)
    ensures r.Some? ==> r.value < |rs| && rs[r.value].dst == b && forall m :: r.value < m < |rs| ==> rs[m].dst != b
    ensures r.None? ==> forall m :: 0 <= m < |rs| ==> rs[m].dst != b
  {
    if rs == [] then None
    else if rs[|rs| - 1].dst == b then Some(|rs| - 1)
    else Last(rs[..|rs| - 1], b)
  }

  predicate Loaded(rs: seq<Read>, b: Buffer, r: Read) {
    Last(rs, b).Some? && rs[Last(rs, b).value] == r
  }

  predicate Avoids(rs: seq<Read>, b: Buffer) {
    forall m :: 0 <= m < |rs| ==> rs[m].dst != b
  }

  lemma {:induction false} LastStays(rs: seq<Read>, more: seq<Read>, b: Buffer)
    requires Avoids(more, b)
    ensures Last(rs + more, b) == Last(rs, b)
    decreases |more|
  {
    if more == [] {
      assert rs + more == rs;
    } else {
      assert (rs + more)[..|rs + more| - 1] == rs + more[..|more| - 1];
      LastStays(rs, more[..|more| - 1], b);
    }
  }

  lemma LoadedNow(rs: seq<Read>, more: seq<Read>, b: Buffer, k: nat)
    requires k < |more| && more[k].dst == b && forall m :: k < m < |more| ==> more[m].dst != b
    ensures Loaded(rs + more, b, more[k])
  {
    var all := rs + more;
    assert all[|rs| + k] == more[k];
    assert forall m :: |rs| + k < m < |all| ==> all[m] == more[m - |rs|];
  }

  lemma LoadedStays(rs: seq<Read>, more: seq<Read>, b: Buffer, r: Read)
    requires Loaded(rs, b, r) && Avoids(more, b)
    ensures Loaded(rs + more, b, r)
  {
    LastStays(rs, more, b);
  }

  // Within a matrix a unit reads nothing but its rows.
  lemma OnlyRows(tab: Table, u: nat)
    requires UnitAt(u).j > 0
    ensures ReadsOf(tab, u) == [WeightRead(tab, u)]
  {
  }

  // The reads that start a matrix, or a layer, fill the other side.
  lemma NoHazard(tab: Table, u: nat, b: Buffer)
    requires InUse(u, b)
    ensures Avoids(ReadsOf(tab, u + 1), b)
  {
    hide UnitAt;
    UnitsFollow(u);
    UnitProper(u);
    UnitProper(u + 1);
    Sides(u);
  }

  lemma Sides(u: nat)
    ensures (u + 1) % 2 != u % 2
    ensures UnitAt(u + 1).j == 0 ==> Side(UnitAt(u + 1)) != Side(UnitAt(u))
    ensures UnitAt(u + 1).j > 0 ==> Side(UnitAt(u + 1)) == Side(UnitAt(u)) && UnitAt(u + 1).li == UnitAt(u).li && UnitAt(u + 1).mi == UnitAt(u).mi
    ensures UnitAt(u + 1).mi == 0 && UnitAt(u + 1).j == 0 ==> UnitAt(u + 1).li == UnitAt(u).li + 1
    ensures !(UnitAt(u + 1).mi == 0 && UnitAt(u + 1).j == 0) ==> UnitAt(u + 1).li == UnitAt(u).li
  {
    hide UnitAt;
    UnitsFollow(u);
    UnitProper(u);
    UnitProper(u + 1);
  }

  // Whatever unit u computes with has been read by its own reads or by those of units before it, and by
  // nothing since.
  lemma {:induction false} LoadedFor(tab: Table, u: nat, b: Buffer)
    requires InUse(u, b)
    ensures Loaded(Issued(tab, u + 1), b, Expected(tab, u, b))
    decreases u
  {
    hide UnitAt, Loaded, Avoids, Last, WeightRead;
    var t, rs := UnitAt(u), ReadsOf(tab, u);
    UnitProper(u);
    if b.Stage? {
      LastRead(tab, u);
      LoadedNow(Issued(tab, u), rs, b, |rs| - 1);
    } else if t.j == 0 && !b.Norm? {
      SmallPlace(tab, u, b);
    } else if t.j == 0 && t.mi == 0 {
      NormPlace(tab, u, b);
    } else {
      NotFirst(u);
      Sides(u - 1);
      UnitProper(u - 1);
      LoadedFor(tab, u - 1, b);
      AvoidsHeld(tab, u, b);
      LoadedStays(Issued(tab, u), rs, b, Expected(tab, u, b));
    }
  }

  lemma LastRead(tab: Table, u: nat)
    ensures var rs := ReadsOf(tab, u); rs != [] && rs[|rs| - 1] == WeightRead(tab, u) && |rs| <= 8
    ensures WeightRead(tab, u).dst == Stage(u % 2)
  {
    hide UnitAt;
  }

  lemma NotFirst(u: nat)
    ensures u == 0 ==> UnitAt(u).j == 0 && UnitAt(u).mi == 0
  {
    UnitsFollow(0);
  }

  lemma SmallPlace(tab: Table, u: nat, b: Buffer)
    requires InUse(u, b) && !b.Stage? && !b.Norm? && UnitAt(u).j == 0
    ensures Loaded(Issued(tab, u + 1), b, Expected(tab, u, b))
  {
    hide UnitAt, Loaded, WeightRead;
    var rs := ReadsOf(tab, u);
    LastRead(tab, u);
    var k := (if UnitAt(u).mi == 0 then 4 else 0) + if b.Scales? then 0 else if b.Biases? then 1 else 2;
    LoadedNow(Issued(tab, u), rs, b, k);
  }

  lemma NormPlace(tab: Table, u: nat, b: Buffer)
    requires InUse(u, b) && b.Norm? && UnitAt(u).j == 0 && UnitAt(u).mi == 0
    ensures Loaded(Issued(tab, u + 1), b, Expected(tab, u, b))
  {
    hide UnitAt, Loaded, WeightRead;
    LastRead(tab, u);
    LoadedNow(Issued(tab, u), ReadsOf(tab, u), b, b.i);
  }

  lemma AvoidsHeld(tab: Table, u: nat, b: Buffer)
    requires !b.Stage? && (UnitAt(u).j > 0 || (b.Norm? && UnitAt(u).mi > 0))
    ensures Avoids(ReadsOf(tab, u), b)
  {
    hide UnitAt;
    LastRead(tab, u);
  }

  // And it is untouched while the reads of the next unit are under way.
  lemma LoadedThrough(tab: Table, u: nat, b: Buffer)
    requires InUse(u, b)
    ensures Loaded(Issued(tab, u + 1), b, Expected(tab, u, b))
    ensures Loaded(Issued(tab, u + 2), b, Expected(tab, u, b))
  {
    hide Loaded, Avoids, ReadsOf, InUse;
    LoadedFor(tab, u, b);
    NoHazard(tab, u, b);
    assert Issued(tab, u + 2) == Issued(tab, u + 1) + ReadsOf(tab, u + 1);
    LoadedStays(Issued(tab, u + 1), ReadsOf(tab, u + 1), b, Expected(tab, u, b));
  }

  // ---- the CRCs ----------------------------------------------------------------------------------------

  // A read starts its section's CRC, or goes on exactly where the read before it left off; and it is
  // verified when the section is complete.
  predicate Chained(tab: Table, rs: seq<Read>, n: nat)
    requires n < |rs|
  {
    var r := rs[n];
    && tab.start(r.li, r.sec) <= r.off
    && (r.reset ==> r.off == tab.start(r.li, r.sec))
    && (!r.reset ==> n > 0 && r.acc.Shared? && rs[n - 1].acc == r.acc && rs[n - 1].li == r.li && rs[n - 1].sec == r.sec
                     && rs[n - 1].off + rs[n - 1].len == r.off)
    && (r.acc == Own ==> r.reset && r.verify)
    && (r.verify ==> r.off + r.len == tab.start(r.li, r.sec) + SectionLength(tab, r.sec))
    && r.len > 0
  }

  ghost predicate AllChained(tab: Table, rs: seq<Read>) {
    forall n :: 0 <= n < |rs| ==> Chained(tab, rs, n)
  }

  lemma {:induction false} IssuedChained(tab: Table, n: nat)
    requires tab.k > 0
    ensures AllChained(tab, Issued(tab, n))
    ensures n > 0 ==> Issued(tab, n) != [] && Issued(tab, n)[|Issued(tab, n)| - 1] == WeightRead(tab, n - 1)
  {
    hide Chained, ReadsOf, WeightRead, UnitAt;
    if n > 0 {
      IssuedChained(tab, n - 1);
      LastRead(tab, n - 1);
      var before, rs := Issued(tab, n - 1), ReadsOf(tab, n - 1);
      var all := before + rs;
      forall k | 0 <= k < |all|
        ensures Chained(tab, all, k)
      {
        if k < |before| {
          ChainedStays(tab, before, rs, k);
        } else {
          UnitChained(tab, n - 1, k - |before|);
        }
      }
    }
  }

  lemma ChainedStays(tab: Table, rs: seq<Read>, more: seq<Read>, k: nat)
    requires k < |rs| && Chained(tab, rs, k)
    ensures Chained(tab, rs + more, k)
  {
  }

  lemma UnitChained(tab: Table, u: nat, k: nat)
    requires tab.k > 0 && k < |ReadsOf(tab, u)|
    requires u > 0 ==> Issued(tab, u) != [] && Issued(tab, u)[|Issued(tab, u)| - 1] == WeightRead(tab, u - 1)
    ensures Chained(tab, Issued(tab, u) + ReadsOf(tab, u), |Issued(tab, u)| + k)
  {
    hide UnitAt, WeightRead, Issued, SectionLength;
    LastRead(tab, u);
    UnitProper(u);
    var before, rs := Issued(tab, u), ReadsOf(tab, u);
    var all := before + rs;
    assert all[|before| + k] == rs[k];
    Lengths(tab, u);
    if k == |rs| - 1 {
      WeightFacts(tab, u);
      if UnitAt(u).j > 0 {
        NotFirst(u);
        OnlyRows(tab, u);
        WeightsJoin(tab, u - 1);
        assert all[|before| - 1] == before[|before| - 1];
      }
    }
  }

  lemma Lengths(tab: Table, u: nat)
    ensures var t := UnitAt(u);
      && NormRead(tab, t, 0).len == SectionLength(tab, 30) > 0
      && NormRead(tab, t, 1).len == SectionLength(tab, 31) > 0
      && NormRead(tab, t, 2).len == SectionLength(tab, 32) > 0
      && NormRead(tab, t, 3).len == SectionLength(tab, 33) > 0
      && SmallRead(tab, t, 1).len == SectionLength(tab, t.mi * 5 + 1) > 0
      && SmallRead(tab, t, 2).len == SectionLength(tab, t.mi * 5 + 2) > 0
      && SmallRead(tab, t, 4).len == SectionLength(tab, t.mi * 5 + 4)
      && (tab.k > 0 ==> SmallRead(tab, t, 4).len > 0)
  {
    hide UnitAt, NormRead, SmallRead, SectionLength;
    UnitProper(u);
    SmallLengths(tab, UnitAt(u));
    NormLength(tab, UnitAt(u), 0);
    NormLength(tab, UnitAt(u), 1);
    NormLength(tab, UnitAt(u), 2);
    NormLength(tab, UnitAt(u), 3);
  }

  lemma NormLength(tab: Table, t: Unit, i: nat)
    requires i < 4
    ensures NormRead(tab, t, i).len == SectionLength(tab, 30 + i) > 0
  {
  }

  lemma SmallLengths(tab: Table, t: Unit)
    requires t.mi < 6
    ensures SmallRead(tab, t, 1).len == SectionLength(tab, t.mi * 5 + 1) > 0
    ensures SmallRead(tab, t, 2).len == SectionLength(tab, t.mi * 5 + 2) > 0
    ensures SmallRead(tab, t, 4).len == SectionLength(tab, t.mi * 5 + 4)
    ensures tab.k > 0 ==> SmallRead(tab, t, 4).len > 0
  {
    var mi := t.mi;
    assert (mi * 5 + 1) / 5 == mi && (mi * 5 + 2) / 5 == mi && (mi * 5 + 4) / 5 == mi;
    assert Out(mi) * tab.k * 4 == 4 * (Out(mi) * tab.k);
    if tab.k > 0 { assert Out(mi) * tab.k >= Out(mi); }
  }

  lemma WeightFacts(tab: Table, u: nat)
    ensures var t, r := UnitAt(u), WeightRead(tab, u);
      && r.acc == Shared(Side(t)) && r.li == t.li && r.sec == t.mi * 5 && r.len > 0 && tab.start(r.li, r.sec) <= r.off
      && r.reset == (t.j == 0) && r.verify == (t.j == t.nb - 1)
      && (r.reset ==> r.off == tab.start(r.li, r.sec))
      && (r.verify ==> r.off + r.len == tab.start(r.li, r.sec) + SectionLength(tab, r.sec))
  {
    hide UnitAt;
    UnitProper(u);
    var t := UnitAt(u);
    assert t.mi * 5 / 5 == t.mi && t.mi * 5 % 5 == 0;
    RowsLength(t.r0, t.r1, In(t.mi));
  }

  lemma RowsLength(r0: nat, r1: nat, width: nat)
    requires r0 < r1 && width > 0
    ensures r0 * width + (r1 - r0) * width == r1 * width && (r1 - r0) * width > 0
  {
    assert (r1 - r0) * width == r1 * width - r0 * width;
  }

  lemma WeightsJoin(tab: Table, u: nat)
    requires UnitAt(u + 1).j > 0
    ensures var a, b := WeightRead(tab, u), WeightRead(tab, u + 1);
      a.acc == b.acc && a.li == b.li && a.sec == b.sec && a.off + a.len == b.off
  {
    hide UnitAt;
    UnitsFollow(u);
    UnitProper(u);
    UnitProper(u + 1);
    Sides(u);
    RowsLength(UnitAt(u).r0, UnitAt(u).r1, In(UnitAt(u).mi));
  }

  // ---- every section is verified --------------------------------------------------------------------------

  // The sections of a layer that a pass reads.
  predicate Streamed(sec: nat) {
    (sec < 30 && sec % 5 != 3) || 30 <= sec < 34
  }

  predicate Verified(rs: seq<Read>, li: nat, sec: nat) {
    exists n :: 0 <= n < |rs| && rs[n].verify && rs[n].li == li && rs[n].sec == sec
  }

  // The unit whose reads verify a section.
  function Verifier(li: nat, sec: nat): nat
    requires Streamed(sec)
  {
    if sec >= 30 then PER_LAYER * li
    else if sec % 5 == 0 then PER_LAYER * li + First(sec / 5) + Blocks(sec / 5) - 1
    else PER_LAYER * li + First(sec / 5)
  }

  lemma VerifierVerifies(tab: Table, li: nat, sec: nat)
    requires Streamed(sec)
    ensures Verified(ReadsOf(tab, Verifier(li, sec)), li, sec)
  {
    hide UnitAt, Blocks, Rows;
    var u := Verifier(li, sec);
    var rs := ReadsOf(tab, u);
    LastRead(tab, u);
    if sec >= 30 {
      UnitIs(li, 0, 0);
      BlockProper(li, 0, 0);
      assert rs[sec - 30] == NormRead(tab, UnitAt(u), sec - 30);
    } else {
      var mi, which := sec / 5, sec % 5;
      assert sec == mi * 5 + which;
      if which == 0 {
        UnitIs(li, mi, Blocks(mi) - 1);
        BlockProper(li, mi, Blocks(mi) - 1);
        WeightFacts(tab, u);
      } else {
        UnitIs(li, mi, 0);
        BlockProper(li, mi, 0);
        var k := (if mi == 0 then 4 else 0) + if which == 4 then 2 else which - 1;
        assert rs[k] == SmallRead(tab, UnitAt(u), which);
      }
    }
  }

  lemma {:induction false} IssuedHas(tab: Table, n: nat, u: nat, li: nat, sec: nat)
    requires u < n && Verified(ReadsOf(tab, u), li, sec)
    ensures Verified(Issued(tab, n), li, sec)
    decreases n
  {
    hide ReadsOf;
    if u < n - 1 {
      IssuedHas(tab, n - 1, u, li, sec);
      var k :| 0 <= k < |Issued(tab, n - 1)| && Issued(tab, n - 1)[k].verify && Issued(tab, n - 1)[k].li == li && Issued(tab, n - 1)[k].sec == sec;
      assert Issued(tab, n)[k] == Issued(tab, n - 1)[k];
    } else {
      var rs := ReadsOf(tab, u);
      var k :| 0 <= k < |rs| && rs[k].verify && rs[k].li == li && rs[k].sec == sec;
      assert Issued(tab, n)[|Issued(tab, n - 1)| + k] == rs[k];
    }
  }

  // The reads of a pass verify every section it streams, of every layer.
  lemma AllVerified(tab: Table, layers: nat, li: nat, sec: nat)
    requires li < layers && Streamed(sec)
    ensures Verified(Issued(tab, PER_LAYER * layers), li, sec)
  {
    hide ReadsOf, Verified;
    VerifierVerifies(tab, li, sec);
    if sec < 30 {
      UnitIs(li, sec / 5, 0);
    }
    IssuedHas(tab, PER_LAYER * layers, Verifier(li, sec), li, sec);
  }
}
