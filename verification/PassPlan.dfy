// The streamed pass as a list of units, and the reads each unit needs
// (esp32-embedder/firmware/full/main/full.c:254-298): which rows each unit takes, which buffer each read
// fills, and why the reads of one unit never touch what the unit before it is computing with.
module PassPlan {
  const D: nat := 1024
  const FF: nat := 4096
  const HALF: nat := 524288
  const MAX_UNITS: nat := 864
  const MAX_LAYERS: nat := 24

  function In(mi: nat): nat { if mi == 5 then FF else D }

  function Out(mi: nat): nat { if mi == 4 then FF else D }

  // Rows a block holds, and blocks a matrix takes.
  function Rows(mi: nat): (rows: nat)
    ensures rows == if mi == 5 then 128 else 512
  {
    HALF / In(mi)
  }

  function Blocks(mi: nat): (blocks: nat)
    ensures blocks == if mi == 4 || mi == 5 then 8 else 2
  {
    (Out(mi) + Rows(mi) - 1) / Rows(mi)
  }

  datatype Unit = Unit(li: nat, mi: nat, j: nat, nb: nat, r0: nat, r1: nat)

  // ---- the list --------------------------------------------------------------------------------------

  function Block(li: nat, mi: nat, j: nat): Unit {
    var r0, r1 := j * Rows(mi), j * Rows(mi) + Rows(mi);
    Unit(li, mi, j, Blocks(mi), r0, if r1 < Out(mi) then r1 else Out(mi))
  }

  // The first unit of a matrix, within its layer.
  function First(mi: nat): nat { if mi <= 4 then 2 * mi else 16 }

  const PER_LAYER: nat := 24

  function InLayer(li: nat, r: nat): Unit {
    if r < 8 then Block(li, r / 2, r % 2) else if r < 16 then Block(li, 4, r - 8) else Block(li, 5, r - 16)
  }

  function UnitAt(u: nat): Unit {
    InLayer(u / PER_LAYER, u % PER_LAYER)
  }

  lemma UnitIs(li: nat, mi: nat, j: nat)
    requires mi < 6 && j < Blocks(mi)
    ensures UnitAt(PER_LAYER * li + First(mi) + j) == Block(li, mi, j)
    ensures First(mi) + Blocks(mi) == if mi == 5 then PER_LAYER else First(mi + 1)
  {
    var r := First(mi) + j;
    assert r < PER_LAYER;
    DivLayer(li, r);
  }

  lemma DivLayer(li: nat, r: nat)
    requires r < PER_LAYER
    ensures (PER_LAYER * li + r) / PER_LAYER == li && (PER_LAYER * li + r) % PER_LAYER == r
  {
  }

  // Unit u in numbers. A layer is six matrices of 1024 columns and 1024 rows, but for the fifth, of 4096 rows, and
  // the sixth, of 4096 columns: in blocks of 512 KiB, two of each of the first four, eight of each of the last two.
  lemma UnitInNumbers(u: nat)
    ensures var t, r := UnitAt(u), u % 24;
      && t.li == u / 24
      && t.mi == (if r < 8 then r / 2 else if r < 16 then 4 else 5)
      && t.j == (if r < 8 then r % 2 else if r < 16 then r - 8 else r - 16)
      && t.nb == (if r < 8 then 2 else 8)
      && t.r0 == t.j * (if r < 16 then 512 else 128)
      && t.r1 == (t.j + 1) * (if r < 16 then 512 else 128)
  {
    var r := u % 24;
    BlockInNumbers(u / 24, if r < 8 then r / 2 else if r < 16 then 4 else 5,
                   if r < 8 then r % 2 else if r < 16 then r - 8 else r - 16);
  }

  lemma BlockInNumbers(li: nat, mi: nat, j: nat)
    requires mi < 6 && j < if mi < 4 then 2 else 8
    ensures var rows := if mi < 5 then 512 else 128;
      Block(li, mi, j) == Unit(li, mi, j, if mi < 4 then 2 else 8, j * rows, (j + 1) * rows)
  {
  }

  lemma MatrixShapes(mi: nat)
    requires mi < 6
    ensures In(mi) == (if mi == 5 then 4096 else 1024) && Out(mi) == (if mi == 4 then 4096 else 1024)
  {
  }

  // plan: layer by layer, matrix by matrix, block by block.
  method Plan(layers: nat, units: array<Unit>) returns (n: nat)
    requires layers <= MAX_LAYERS && units.Length == MAX_UNITS
    modifies units
    ensures n == PER_LAYER * layers <= MAX_UNITS
    ensures forall u :: 0 <= u < n ==> units[u] == UnitAt(u)
  {
    n := 0;
    var li := 0;
    while li < layers
      invariant 0 <= li <= layers && n == PER_LAYER * li
      invariant forall u :: 0 <= u < n ==> units[u] == UnitAt(u)
    {
      n := PlanLayer(li, units, n);
      li := li + 1;
    }
  }

  method PlanLayer(li: nat, units: array<Unit>, start: nat) returns (n: nat)
    requires start == PER_LAYER * li && start + PER_LAYER <= units.Length
    requires forall u :: 0 <= u < start ==> units[u] == UnitAt(u)
    modifies units
    ensures n == start + PER_LAYER && forall u :: 0 <= u < n ==> units[u] == UnitAt(u)
  {
    hide UnitAt, Block;
    n := start;
    var mi := 0;
    while mi < 6
      invariant 0 <= mi <= 6 && n == start + if mi == 6 then PER_LAYER else First(mi)
      invariant forall u :: 0 <= u < n ==> units[u] == UnitAt(u)
    {
      var rb := HALF / In(mi);
      var nb := (Out(mi) + rb - 1) / rb;
      UnitIs(li, mi, 0);
      var j := 0;
      while j < nb
        invariant 0 <= j <= nb == Blocks(mi) && n == start + First(mi) + j
        invariant forall u :: 0 <= u < n ==> units[u] == UnitAt(u)
      {
        UnitIs(li, mi, j);
        var r0 := j * rb;
        var r1 := if r0 + rb < Out(mi) then r0 + rb else Out(mi);
        MakeBlock(li, mi, j);
        units[n] := Unit(li, mi, j, nb, r0, r1);
        n := n + 1;
        j := j + 1;
      }
      mi := mi + 1;
    }
  }

  lemma MakeBlock(li: nat, mi: nat, j: nat)
    requires mi < 6
    ensures var r0, r1 := j * Rows(mi), j * Rows(mi) + Rows(mi);
      Block(li, mi, j) == Unit(li, mi, j, Blocks(mi), r0, if r1 < Out(mi) then r1 else Out(mi))
  {
  }

  // A unit with what follows it: the next block of its matrix, or the first of the next.
  predicate Follows(a: Unit, b: Unit) {
    if a.j + 1 < a.nb then b.li == a.li && b.mi == a.mi && b.j == a.j + 1 && b.r0 == a.r1
    else b.j == 0 && b.r0 == 0 && b.li * 6 + b.mi == a.li * 6 + a.mi + 1 && (b.mi == 0 <==> b.li != a.li)
  }

  predicate Proper(t: Unit) {
    && t.mi < 6 && t.j < t.nb == Blocks(t.mi) && t.r0 < t.r1 <= Out(t.mi) && (t.r1 - t.r0) * In(t.mi) <= HALF
    && (t.j == 0 ==> t.r0 == 0) && (t.j == t.nb - 1 ==> t.r1 == Out(t.mi))
  }

  lemma UnitProper(u: nat)
    ensures Proper(UnitAt(u)) && UnitAt(u).li == u / PER_LAYER
  {
    var r := u % PER_LAYER;
    BlockProper(u / PER_LAYER, if r < 8 then r / 2 else if r < 16 then 4 else 5, if r < 8 then r % 2 else if r < 16 then r - 8 else r - 16);
  }

  lemma BlockProper(li: nat, mi: nat, j: nat)
    requires mi < 6 && j < Blocks(mi)
    ensures Proper(Block(li, mi, j)) && Block(li, mi, j).li == li
  {
  }

  lemma FollowsInLayer(li: nat, r: nat)
    requires r + 1 < PER_LAYER
    ensures Follows(InLayer(li, r), InLayer(li, r + 1))
  {
    hide Rows, Blocks;
    if r < 7 {
      FollowsHalf(li, r);
    }
  }

  lemma FollowsHalf(li: nat, r: nat)
    requires r < 7
    ensures Follows(InLayer(li, r), InLayer(li, r + 1))
  {
    hide Rows, Blocks;
    assert r == 2 * (r / 2) + r % 2;
  }

  lemma FollowsLayer(li: nat)
    ensures Follows(InLayer(li, PER_LAYER - 1), InLayer(li + 1, 0))
  {
  }

  // Unit after unit: the blocks of a matrix in order without gap or overlap, then the next matrix.
  lemma UnitsFollow(u: nat)
    ensures Follows(UnitAt(u), UnitAt(u + 1))
    ensures UnitAt(0) == Block(0, 0, 0)
  {
    hide Follows, InLayer;
    var li, r := u / PER_LAYER, u % PER_LAYER;
    UnitIs(0, 0, 0);
    if r + 1 < PER_LAYER {
      FollowsInLayer(li, r);
      DivLayer(li, r + 1);
    } else {
      FollowsLayer(li);
      DivLayer(li + 1, 0);
    }
  }

  // Every row of every matrix is in exactly one unit.
  lemma RowsTiled(li: nat, mi: nat, row: nat, u: nat)
    requires mi < 6 && row < Out(mi)
    ensures (UnitAt(u).li == li && UnitAt(u).mi == mi && UnitAt(u).r0 <= row < UnitAt(u).r1)
      <==> u == PER_LAYER * li + First(mi) + row / Rows(mi)
  {
    hide UnitAt, First;
    var j := row / Rows(mi);
    RowInBlock(li, mi, row);
    UnitIs(li, mi, j);
    BackIndex(u);
    if UnitAt(u).li == li && UnitAt(u).mi == mi && UnitAt(u).r0 <= row < UnitAt(u).r1 {
      SameBlock(li, mi, UnitAt(u).j, row);
    }
  }

  lemma RowInBlock(li: nat, mi: nat, row: nat)
    requires mi < 6 && row < Out(mi)
    ensures var j := row / Rows(mi); j < Blocks(mi) && var t := Block(li, mi, j); t.li == li && t.mi == mi && t.r0 <= row < t.r1
  {
  }

  lemma BackIndex(u: nat)
    ensures var t := UnitAt(u); t.mi < 6 && t.j < Blocks(t.mi) && t == Block(t.li, t.mi, t.j) && u == PER_LAYER * t.li + First(t.mi) + t.j
  {
  }

  lemma SameBlock(li: nat, mi: nat, j: nat, row: nat)
    requires mi < 6 && j < Blocks(mi) && Block(li, mi, j).r0 <= row < Block(li, mi, j).r1
    ensures j == row / Rows(mi)
  {
    hide Rows, Blocks;
    if mi == 5 {
      Quotient(row, 128, j);
    } else {
      Quotient(row, 512, j);
    }
  }

  lemma Quotient(row: nat, rows: nat, j: nat)
    requires rows == 128 || rows == 512
    requires j * rows <= row < j * rows + rows
    ensures j == row / rows
  {
  }
}
