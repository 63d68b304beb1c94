// Literal special-token text (esp32-embedder/tok/tok.c:287-308): one scan from the left for all
// five, against llama.cpp's way, which splits every fragment by each special token in turn.
module TokSpecials {
  import opened Bytes

  // "[PAD]" "[UNK]" "[CLS]" "[SEP]" "[MASK]"
  const SPECIALS: seq<seq<byte>> := [
    [91, 80, 65, 68, 93],
    [91, 85, 78, 75, 93],
    [91, 67, 76, 83, 93],
    [91, 83, 69, 80, 93],
    [91, 77, 65, 83, 75, 93]
  ]

  datatype Piece = Text(bytes: seq<byte>) | Mark(k: nat)

  predicate Known(k: nat) {
    k < |SPECIALS|
  }

  predicate OccursAt(t: seq<byte>, i: nat, k: nat)
    requires Known(k)
  {
    i + |SPECIALS[k]| <= |t| && t[i..i + |SPECIALS[k]|] == SPECIALS[k]
  }

  // '[' opens a special and occurs nowhere else in it; ']' closes it and occurs nowhere else in it.
  predicate Bracketed(s: seq<byte>) {
    && |s| >= 2 && s[0] == 91 && s[|s| - 1] == 93
    && (forall i :: 0 < i < |s| ==> s[i] != 91)
    && (forall i :: 0 <= i < |s| - 1 ==> s[i] != 93)
  }

  // Letter by letter.
  lemma SpecialNames(k: nat)
    requires k < 5
    ensures |SPECIALS| == 5
    ensures var name := ["[PAD]", "[UNK]", "[CLS]", "[SEP]", "[MASK]"][k];
      |SPECIALS[k]| == |name| && forall i :: 0 <= i < |name| ==> SPECIALS[k][i] as int == name[i] as int
  {
  }

  lemma SpecialsAreBracketed(k: nat)
    requires Known(k)
    ensures Bracketed(SPECIALS[k])
  {
  }

  lemma OccursBytes(t: seq<byte>, i: nat, k: nat)
    requires Known(k) && OccursAt(t, i, k)
    ensures i + |SPECIALS[k]| <= |t|
    ensures forall m :: i <= m < i + |SPECIALS[k]| ==> t[m] == SPECIALS[k][m - i]
  {
    assert forall m :: i <= m < i + |SPECIALS[k]| ==> t[m] == t[i..i + |SPECIALS[k]|][m - i];
  }

  lemma SameBrackets(x: seq<byte>, y: seq<byte>)
    requires Bracketed(x) && Bracketed(y)
    requires forall m :: 0 <= m < |x| && m < |y| ==> x[m] == y[m]
    ensures x == y
  {
    assert |x| <= |y| ==> y[|x| - 1] == 93;
    assert |y| <= |x| ==> x[|y| - 1] == 93;
  }

  // Two specials never overlap, and one place matches at most one of them.
  lemma NoOverlap(t: seq<byte>, i: nat, a: nat, j: nat, b: nat)
    requires Known(a) && Known(b) && OccursAt(t, i, a) && OccursAt(t, j, b) && i <= j
    ensures i == j ==> a == b
    ensures i < j ==> i + |SPECIALS[a]| <= j
  {
    SpecialsAreBracketed(a);
    SpecialsAreBracketed(b);
    OccursBytes(t, i, a);
    OccursBytes(t, j, b);
    assert t[j] == 91;
    if i == j {
      forall m | 0 <= m < |SPECIALS[a]| && m < |SPECIALS[b]|
        ensures SPECIALS[a][m] == SPECIALS[b][m]
      {
        assert t[i + m] == SPECIALS[a][m];
      }
      SameBrackets(SPECIALS[a], SPECIALS[b]);
      SpecialsDiffer(a, b);
    }
  }

  lemma SpecialsDiffer(a: nat, b: nat)
    requires Known(a) && Known(b) && SPECIALS[a] == SPECIALS[b]
    ensures a == b
  {
    var x, y := SPECIALS[a], SPECIALS[b];
    assert x[1] == y[1] && x[2] == y[2];
  }

  // ---- the two ways ---------------------------------------------------------------------

  // The special of A at place i, if there is one.
  function MarkAt(t: seq<byte>, i: nat, A: set<nat>, k: nat): (r: Option<nat>)
    requires k <= |SPECIALS|
    ensures r.Some? ==> k <= r.value && Known(r.value) && r.value in A && OccursAt(t, i, r.value)
    ensures r.None? ==> forall m :: k <= m < |SPECIALS| && m in A ==> !OccursAt(t, i, m)
    decreases |SPECIALS| - k
  {
    if k == |SPECIALS| then None
    else if k in A && OccursAt(t, i, k) then Some(k)
    else MarkAt(t, i, A, k + 1)
  }

  // The first place from i on with a special of A, or the end.
  function Next(t: seq<byte>, i: nat, A: set<nat>): (j: nat)
    requires i <= |t|
    ensures i <= j <= |t|
    ensures j < |t| ==> MarkAt(t, j, A, 0).Some?
    ensures forall m :: i <= m < j ==> MarkAt(t, m, A, 0).None?
    decreases |t| - i
  {
    if i == |t| || MarkAt(t, i, A, 0).Some? then i else Next(t, i + 1, A)
  }

  // One scan from the left for every special in A.
  function Scan(t: seq<byte>, A: set<nat>): (ps: seq<Piece>)
    decreases |t|
  {
    var i := Next(t, 0, A);
    if i == |t| then [Text(t)]
    else
      var k := MarkAt(t, i, A, 0).value;
      [Text(t[..i]), Mark(k)] + Scan(t[i + |SPECIALS[k]|..], A)
  }

  // Every fragment of text split by special k alone.
  function SplitBy(ps: seq<Piece>, k: nat): seq<Piece> {
    if ps == [] then []
    else (if ps[0].Text? then Scan(ps[0].bytes, {k}) else [ps[0]]) + SplitBy(ps[1..], k)
  }

  // Split by each special of the list in turn.
  function SplitInTurn(ps: seq<Piece>, order: seq<nat>): seq<Piece>
    decreases |order|
  {
    if order == [] then ps else SplitInTurn(SplitBy(ps, order[0]), order[1..])
  }

  // ---- why they agree -----------------------------------------------------------------------

  // The first special of A in t is a, at place i.
  ghost predicate IsFirst(t: seq<byte>, A: set<nat>, i: nat, a: nat) {
    && Known(a) && a in A && OccursAt(t, i, a)
    && Free(t, i, A)
  }

  // No special of A begins before place n.
  ghost predicate Free(t: seq<byte>, n: nat, A: set<nat>) {
    forall j, k :: 0 <= j < n && k in A && Known(k) ==> !OccursAt(t, j, k)
  }

  lemma ScanAtFirst(t: seq<byte>, A: set<nat>, i: nat, a: nat)
    requires IsFirst(t, A, i, a)
    ensures i + |SPECIALS[a]| <= |t|
    ensures Scan(t, A) == [Text(t[..i]), Mark(a)] + Scan(t[i + |SPECIALS[a]|..], A)
  {
    SpecialsAreBracketed(a);
    var n, m := Next(t, 0, A), MarkAt(t, i, A, 0);
    assert m.Some? && n == i;
    NoOverlap(t, i, a, i, m.value);
  }

  lemma ScanOfNone(t: seq<byte>, A: set<nat>)
    requires Free(t, |t|, A)
    ensures Scan(t, A) == [Text(t)]
  {
    var n := Next(t, 0, A);
    var m := MarkAt(t, n, A, 0);
    assert n == |t| || m.Some?;
  }

  lemma FindFirst(t: seq<byte>, A: set<nat>) returns (i: nat, a: nat)
    ensures i <= |t|
    ensures i < |t| ==> IsFirst(t, A, i, a)
    ensures i == |t| ==> Free(t, |t|, A)
  {
    i := Next(t, 0, A);
    a := 0;
    if i < |t| {
      a := MarkAt(t, i, A, 0).value;
    }
    forall j, k | 0 <= j < i && k in A && Known(k)
      ensures !OccursAt(t, j, k)
    {
      assert MarkAt(t, j, A, 0).None?;
    }
  }

  lemma OccursInTail(t: seq<byte>, n: nat, i: nat, k: nat)
    requires n <= |t| && Known(k)
    ensures OccursAt(t[n..], i, k) == OccursAt(t, n + i, k)
  {
    var l := |SPECIALS[k]|;
    if n + i + l <= |t| {
      assert t[n..][i..i + l] == t[n + i..n + i + l];
    }
  }

  lemma OccursInHead(t: seq<byte>, n: nat, i: nat, k: nat)
    requires n <= |t| && Known(k)
    ensures OccursAt(t[..n], i, k) <==> OccursAt(t, i, k) && i + |SPECIALS[k]| <= n
  {
    var l := |SPECIALS[k]|;
    if i + l <= n {
      assert t[..n][i..i + l] == t[i..i + l];
    }
  }

  lemma FreeTail(t: seq<byte>, n: nat, m: nat, A: set<nat>)
    requires n <= m && n <= |t| && Free(t, m, A)
    ensures Free(t[n..], m - n, A)
  {
    forall j, k | 0 <= j < m - n && k in A && Known(k)
      ensures !OccursAt(t[n..], j, k)
    {
      OccursInTail(t, n, j, k);
    }
  }

  // If t holds none of A, scanning it for A and k is scanning it for k.
  lemma {:induction false} NothingElse(t: seq<byte>, A: set<nat>, k: nat)
    requires Free(t, |t|, A)
    ensures Scan(t, A + {k}) == Scan(t, {k})
    decreases |t|
  {
    hide Scan;
    var i, a := FindFirst(t, {k});
    if i == |t| {
      ScanOfNone(t, {k});
      ScanOfNone(t, A + {k});
    } else {
      ScanAtFirst(t, {k}, i, a);
      ScanAtFirst(t, A + {k}, i, a);
      SpecialsAreBracketed(a);
      var n := i + |SPECIALS[a]|;
      FreeTail(t, n, |t|, A);
      NothingElse(t[n..], A, k);
    }
  }

  // With a at place i the first of A, the text before it can be split by k on its own.
  lemma {:induction false} BeforeFirst(t: seq<byte>, A: set<nat>, i: nat, a: nat, k: nat)
    requires IsFirst(t, A, i, a)
    ensures i + |SPECIALS[a]| <= |t|
    ensures Scan(t, A + {k}) == Scan(t[..i], {k}) + [Mark(a)] + Scan(t[i + |SPECIALS[a]|..], A + {k})
    decreases |t|
  {
    hide Scan;
    SpecialsAreBracketed(a);
    var u, rest := t[..i], t[i + |SPECIALS[a]|..];
    var j, b := FindFirst(u, {k});
    if j == |u| {
      ScanOfNone(u, {k});
      forall m, c | 0 <= m < i && c in A + {k} && Known(c)
        ensures !OccursAt(t, m, c)
      {
        if OccursAt(t, m, c) {
          NoOverlap(t, m, c, i, a);
          OccursInHead(t, i, m, c);
        }
      }
      ScanAtFirst(t, A + {k}, i, a);
    } else {
      OccursInHead(t, i, j, b);
      SpecialsAreBracketed(b);
      forall m, c | 0 <= m < j && c in A + {k} && Known(c)
        ensures !OccursAt(t, m, c)
      {
        if OccursAt(t, m, c) {
          NoOverlap(t, m, c, i, a);
          OccursInHead(t, i, m, c);
        }
      }
      ScanAtFirst(t, A + {k}, j, b);
      ScanAtFirst(u, {k}, j, b);
      var n := j + |SPECIALS[b]|;
      var t' := t[n..];
      OccursInTail(t, n, i - n, a);
      FreeTail(t, n, i, A);
      BeforeFirst(t', A, i - n, a, k);
      assert t'[..i - n] == u[n..] && t'[i - n + |SPECIALS[a]|..] == rest;
      var x, y, z := [Text(u[..j]), Mark(b)], Scan(u[n..], {k}), [Mark(a)] + Scan(rest, A + {k});
      assert t[..j] == u[..j];
      assert x + (y + [Mark(a)] + Scan(rest, A + {k})) == x + y + [Mark(a)] + Scan(rest, A + {k});
    }
  }

  lemma {:induction false} SplitByConcat(ps: seq<Piece>, qs: seq<Piece>, k: nat)
    ensures SplitBy(ps + qs, k) == SplitBy(ps, k) + SplitBy(qs, k)
    decreases |ps|
  {
    hide Scan;
    if ps == [] {
      assert ps + qs == qs;
    } else {
      assert (ps + qs)[1..] == ps[1..] + qs;
      SplitByConcat(ps[1..], qs, k);
    }
  }

  lemma SplitByTwo(u: seq<byte>, a: nat, k: nat)
    ensures SplitBy([Text(u), Mark(a)], k) == Scan(u, {k}) + [Mark(a)]
    ensures SplitBy([Text(u)], k) == Scan(u, {k})
  {
    hide Scan;
    assert [Text(u), Mark(a)][1..] == [Mark(a)] && [Mark(a)][1..] == [] && [Text(u)][1..] == [];
    assert SplitBy([Mark(a)], k) == [Mark(a)];
  }

  // Splitting by one more special is scanning for one more.
  lemma {:induction false} SplitRefines(t: seq<byte>, A: set<nat>, k: nat)
    ensures SplitBy(Scan(t, A), k) == Scan(t, A + {k})
    decreases |t|
  {
    hide Scan;
    var i, a := FindFirst(t, A);
    if i == |t| {
      ScanOfNone(t, A);
      SplitByTwo(t, 0, k);
      NothingElse(t, A, k);
    } else {
      ScanAtFirst(t, A, i, a);
      SpecialsAreBracketed(a);
      var rest := t[i + |SPECIALS[a]|..];
      SplitByConcat([Text(t[..i]), Mark(a)], Scan(rest, A), k);
      SplitByTwo(t[..i], a, k);
      SplitRefines(rest, A, k);
      BeforeFirst(t, A, i, a, k);
    }
  }

  lemma {:induction false} SplitInTurnScans(t: seq<byte>, A: set<nat>, order: seq<nat>)
    ensures SplitInTurn(Scan(t, A), order) == Scan(t, A + (set k | k in order))
    decreases |order|
  {
    hide Scan, SplitBy;
    if order == [] {
      assert A + (set k | k in order) == A;
    } else {
      SplitRefines(t, A, order[0]);
      SplitInTurnScans(t, A + {order[0]}, order[1..]);
      assert order == [order[0]] + order[1..];
      assert A + {order[0]} + (set k | k in order[1..]) == A + (set k | k in order);
    }
  }

  // Every special, as the scan in tok_encode looks for them.
  const ALL: set<nat> := {0, 1, 2, 3, 4}

  // The five never overlap, so the one scan partitions any text exactly as splitting by each of
  // them in turn does, whatever the order.
  lemma Confluence(t: seq<byte>, order: seq<nat>)
    requires (set k | k in order) == ALL
    ensures SplitInTurn([Text(t)], order) == Scan(t, ALL)
  {
    hide Scan, SplitInTurn;
    var A := set k | k in order;
    ScanOfNone(t, {});
    SplitInTurnScans(t, {}, order);
    assert {} + A == A;
    assert A == ALL;
    assert Scan(t, {}) == [Text(t)];
    assert SplitInTurn([Text(t)], order) == Scan(t, A);
  }
}
