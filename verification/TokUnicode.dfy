// Code points (esp32-embedder/tok/tok.c:100-199): the three tables as parameters, searched by
// bisection, and the UTF-8 codec as llama.cpp reads and writes it.
module TokUnicode {
  import opened Bytes

  datatype Class = Keep | Space | Drop | Split

  datatype Run = Run(first: nat, cls: Class)

  datatype Range = Range(first: nat, last: nat, replacement: nat)

  datatype Pair = Pair(src: nat, dst: nat)

  datatype Tables = Tables(runs: seq<Run>, nfd: seq<Range>, lower: seq<Pair>)

  // Each table is sorted and not empty; the class runs start at 0; and nothing that stays in a word
  // is U+0000.
  ghost predicate WellFormed(t: Tables) {
    && t.runs != [] && t.runs[0].first == 0
    && (forall i, j :: 0 <= i < j < |t.runs| ==> t.runs[i].first < t.runs[j].first)
    && t.nfd != []
    && (forall i :: 0 <= i < |t.nfd| ==> t.nfd[i].first <= t.nfd[i].last)
    && (forall i, j :: 0 <= i < j < |t.nfd| ==> t.nfd[i].last < t.nfd[j].first)
    && (forall i, j :: 0 <= i < j < |t.lower| ==> t.lower[i].src < t.lower[j].src)
    && (forall cp: nat :: ClassOf(t, cp) == Keep || ClassOf(t, cp) == Split ==> LowerOf(t, cp) != 0)
  }

  // ---- what a table says, read from one end ------------------------------------------------------

  // The class of the last run that starts at or before cp.
  function RunClass(runs: seq<Run>, cp: nat): Class {
    if runs == [] then Keep
    else if runs[|runs| - 1].first <= cp then runs[|runs| - 1].cls
    else RunClass(runs[..|runs| - 1], cp)
  }

  const BEYOND := 0x110000

  function ClassOf(t: Tables, cp: nat): Class {
    if cp >= BEYOND then Keep else RunClass(t.runs, cp)
  }

  function Replaced(nfd: seq<Range>, cp: nat): nat {
    if nfd == [] then cp
    else if nfd[0].first <= cp <= nfd[0].last then nfd[0].replacement
    else Replaced(nfd[1..], cp)
  }

  function NfdOf(t: Tables, cp: nat): nat {
    Replaced(t.nfd, cp)
  }

  function Lowered(lower: seq<Pair>, cp: nat): nat {
    if lower == [] then cp
    else if lower[0].src == cp then lower[0].dst
    else Lowered(lower[1..], cp)
  }

  function LowerOf(t: Tables, cp: nat): nat {
    Lowered(t.lower, cp)
  }

  // ---- the searches ------------------------------------------------------------------------------

  lemma {:induction false} RunClassAt(runs: seq<Run>, cp: nat, i: nat)
    requires i < |runs| && runs[i].first <= cp
    requires forall j :: i < j < |runs| ==> runs[j].first > cp
    ensures RunClass(runs, cp) == runs[i].cls
    decreases |runs|
  {
    if i < |runs| - 1 {
      RunClassAt(runs[..|runs| - 1], cp, i);
    }
  }

  // A code point has the class of the run it is in, which goes on until the next begins; past U+10FFFF it is kept.
  lemma ClassMeans(t: Tables, cp: nat, i: nat)
    requires WellFormed(t) && i < |t.runs|
    ensures cp >= 0x110000 ==> ClassOf(t, cp) == Keep
    ensures cp < 0x110000 && t.runs[i].first <= cp && (i + 1 == |t.runs| || cp < t.runs[i + 1].first) ==>
      ClassOf(t, cp) == t.runs[i].cls
  {
    hide RunClass;
    if t.runs[i].first <= cp && (i + 1 == |t.runs| || cp < t.runs[i + 1].first) {
      RunClassAt(t.runs, cp, i);
    }
  }

  // It is replaced by what its range says, and is itself where it is in none.
  lemma NfdMeans(t: Tables, cp: nat, i: nat)
    requires WellFormed(t) && i < |t.nfd|
    ensures t.nfd[i].first <= cp <= t.nfd[i].last ==> NfdOf(t, cp) == t.nfd[i].replacement
    ensures (forall k :: 0 <= k < |t.nfd| ==> !(t.nfd[k].first <= cp <= t.nfd[k].last)) ==> NfdOf(t, cp) == cp
  {
    hide Replaced;
    if t.nfd[i].first <= cp <= t.nfd[i].last || forall k :: 0 <= k < |t.nfd| ==> !(t.nfd[k].first <= cp <= t.nfd[k].last) {
      ReplacedAt(t.nfd, cp, i);
    }
  }

  // Its lower case is what the table pairs it with, and itself where the table does not have it.
  lemma LowerMeans(t: Tables, cp: nat, i: nat)
    requires WellFormed(t) && i <= |t.lower|
    ensures i < |t.lower| && t.lower[i].src == cp ==> LowerOf(t, cp) == t.lower[i].dst
    ensures (forall k :: 0 <= k < |t.lower| ==> t.lower[k].src != cp) ==> LowerOf(t, cp) == cp
  {
    hide Lowered;
    if i < |t.lower| && t.lower[i].src == cp {
      LoweredAt(t.lower, cp, i);
    } else if forall k :: 0 <= k < |t.lower| ==> t.lower[k].src != cp {
      LoweredAt(t.lower, cp, |t.lower|);
    }
  }

  method CptClass(t: Tables, cp: nat) returns (c: Class)
    requires WellFormed(t)
    ensures c == ClassOf(t, cp)
  {
    if cp >= BEYOND {
      return Keep;
    }
    var lo, hi := 0, |t.runs| - 1;
    while lo < hi
      invariant 0 <= lo <= hi < |t.runs|
      invariant t.runs[lo].first <= cp
      invariant forall j :: hi < j < |t.runs| ==> t.runs[j].first > cp
    {
      var mid := (lo + hi + 1) / 2;
      if t.runs[mid].first <= cp {
        lo := mid;
      } else {
        hi := mid - 1;
      }
    }
    RunClassAt(t.runs, cp, lo);
    return t.runs[lo].cls;
  }

  lemma {:induction false} ReplacedAt(nfd: seq<Range>, cp: nat, i: nat)
    requires i < |nfd|
    requires forall j :: 0 <= j < |nfd| && j != i ==> !(nfd[j].first <= cp <= nfd[j].last)
    ensures Replaced(nfd, cp) == if nfd[i].first <= cp <= nfd[i].last then nfd[i].replacement else cp
    decreases |nfd|
  {
    if i > 0 {
      ReplacedAt(nfd[1..], cp, i - 1);
    } else if !(nfd[0].first <= cp <= nfd[0].last) && |nfd| > 1 {
      ReplacedAt(nfd[1..], cp, 0);
    }
  }

  method CptNfd(t: Tables, cp: nat) returns (r: nat)
    requires WellFormed(t)
    ensures r == NfdOf(t, cp)
  {
    var lo, hi := 0, |t.nfd| - 1;
    while lo < hi
      invariant 0 <= lo <= hi < |t.nfd|
      invariant lo == 0 || t.nfd[lo].first <= cp
      invariant forall j :: hi < j < |t.nfd| ==> t.nfd[j].first > cp
    {
      var mid := (lo + hi + 1) / 2;
      if t.nfd[mid].first <= cp {
        lo := mid;
      } else {
        hi := mid - 1;
      }
    }
    ReplacedAt(t.nfd, cp, lo);
    return if t.nfd[lo].first <= cp <= t.nfd[lo].last then t.nfd[lo].replacement else cp;
  }

  lemma {:induction false} LoweredAt(lower: seq<Pair>, cp: nat, i: nat)
    requires i <= |lower|
    requires forall j :: 0 <= j < |lower| && j != i ==> lower[j].src != cp
    requires i < |lower| ==> lower[i].src == cp
    ensures Lowered(lower, cp) == if i < |lower| then lower[i].dst else cp
    decreases |lower|
  {
    if i > 0 {
      LoweredAt(lower[1..], cp, i - 1);
    }
  }

  method CptLower(t: Tables, cp: nat) returns (r: nat)
    requires WellFormed(t)
    ensures r == LowerOf(t, cp)
  {
    var lo, hi := 0, |t.lower| - 1;
    while lo <= hi
      invariant 0 <= lo <= |t.lower| && -1 <= hi < |t.lower| && lo <= hi + 1
      invariant forall j :: 0 <= j < lo ==> t.lower[j].src < cp
      invariant forall j :: hi < j < |t.lower| ==> t.lower[j].src > cp
    {
      var mid := (lo + hi) / 2;
      if t.lower[mid].src == cp {
        LoweredAt(t.lower, cp, mid);
        return t.lower[mid].dst;
      }
      if t.lower[mid].src < cp {
        lo := mid + 1;
      } else {
        hi := mid - 1;
      }
    }
    LoweredAt(t.lower, cp, |t.lower|);
    return cp;
  }

  // ---- UTF-8 ----------------------------------------------------------------------------------

  // (b & 0xc0) == 0x80
  predicate Continues(b: byte) {
    0x80 <= b < 0xc0
  }

  // b & 0x3f, as an integer to build on
  function Payload(b: byte): (p: nat)
    ensures p < 0x40
  {
    b as int % 0x40
  }

  datatype Read = Read(cp: nat, n: nat)

  // utf8_next: the code point at the front of s and the bytes it took. A bad sequence costs one byte
  // and reads as U+FFFD; overlong forms and surrogates pass.
  function Utf8Next(s: seq<byte>): (r: Read)
    requires s != []
    ensures 1 <= r.n <= 4 && r.n <= |s|
    ensures r.cp < 0x20_0000
  {
    var c := s[0] as int;
    if c < 0x80 then Read(c, 1)
    else if 0xc0 <= c < 0xe0 && |s| > 1 && Continues(s[1]) then
      Read((c % 0x20) * 0x40 + Payload(s[1]), 2)
    else if 0xe0 <= c < 0xf0 && |s| > 2 && Continues(s[1]) && Continues(s[2]) then
      Read((c % 0x10) * 0x1000 + Payload(s[1]) * 0x40 + Payload(s[2]), 3)
    else if 0xf0 <= c < 0xf8 && |s| > 3 && Continues(s[1]) && Continues(s[2]) && Continues(s[3]) then
      Read((c % 0x08) * 0x4_0000 + Payload(s[1]) * 0x1000 + Payload(s[2]) * 0x40 + Payload(s[3]), 4)
    else Read(0xFFFD, 1)
  }

  // utf8_put
  function Utf8Put(cp: nat): (o: seq<byte>)
    requires cp < BEYOND
    ensures 1 <= |o| <= 4
    ensures cp != 0 ==> forall i :: 0 <= i < |o| ==> o[i] != 0
  {
    if cp < 0x80 then [cp]
    else if cp < 0x800 then [0xc0 + cp / 0x40, 0x80 + cp % 0x40]
    else if cp < 0x1_0000 then [0xe0 + cp / 0x1000, 0x80 + cp / 0x40 % 0x40, 0x80 + cp % 0x40]
    else [0xf0 + cp / 0x4_0000, 0x80 + cp / 0x1000 % 0x40, 0x80 + cp / 0x40 % 0x40, 0x80 + cp % 0x40]
  }

  // What is written reads back, whatever follows it, for every code point up to U+10FFFF.
  lemma Utf8RoundTrip(cp: nat, rest: seq<byte>)
    requires cp < BEYOND
    ensures Utf8Next(Utf8Put(cp) + rest) == Read(cp, |Utf8Put(cp)|)
  {
    hide Utf8Next;
    SixBits(cp);
    var x, y, z := cp % 0x40, cp / 0x40 % 0x40, cp / 0x1000 % 0x40;
    if cp < 0x80 {
      NextOfOne(cp, rest);
    } else if cp < 0x800 {
      NextOfTwo(cp / 0x40, x, rest);
    } else if cp < 0x1_0000 {
      NextOfThree(cp / 0x1000, y, x, rest);
    } else {
      NextOfFour(cp / 0x4_0000, z, y, x, rest);
    }
  }

  lemma NextOfOne(a: nat, rest: seq<byte>)
    requires a < 0x80
    ensures Utf8Next([a] + rest) == Read(a, 1)
  {
  }

  lemma NextOfTwo(a: nat, b: nat, rest: seq<byte>)
    requires a < 0x20 && b < 0x40
    ensures Utf8Next([0xc0 + a, 0x80 + b] + rest) == Read(a * 0x40 + b, 2)
  {
  }

  lemma NextOfThree(a: nat, b: nat, c: nat, rest: seq<byte>)
    requires a < 0x10 && b < 0x40 && c < 0x40
    ensures Utf8Next([0xe0 + a, 0x80 + b, 0x80 + c] + rest) == Read(a * 0x1000 + b * 0x40 + c, 3)
  {
  }

  lemma NextOfFour(a: nat, b: nat, c: nat, d: nat, rest: seq<byte>)
    requires a < 0x08 && b < 0x40 && c < 0x40 && d < 0x40
    ensures Utf8Next([0xf0 + a, 0x80 + b, 0x80 + c, 0x80 + d] + rest) ==
      Read(a * 0x4_0000 + b * 0x1000 + c * 0x40 + d, 4)
  {
  }

  // As many bytes as UTF-8 has for it, and no more.
  lemma Utf8Lengths(cp: nat)
    requires cp < BEYOND
    ensures |Utf8Put(cp)| == if cp < 0x80 then 1 else if cp < 0x800 then 2 else if cp < 0x1_0000 then 3 else 4
  {
    hide BEYOND;
  }

  // What is not a sequence costs one byte and reads as U+FFFD: a byte that only continues, one that starts nothing,
  // and one whose continuation is cut off or missing.
  lemma BadSequence(s: seq<byte>)
    requires s != [] && s[0] >= 0x80
    requires var n := if s[0] < 0xc0 || s[0] >= 0xf8 then 0 else if s[0] < 0xe0 then 1 else if s[0] < 0xf0 then 2 else 3;
      n == 0 || |s| <= n || exists i :: 1 <= i <= n && !(0x80 <= s[i] < 0xc0)
    ensures Utf8Next(s) == Read(0xFFFD, 1)
  {
    hide Payload;
  }

  // A code point is its groups of six bits put together.
  lemma SixBits(cp: nat)
    requires cp < BEYOND
    ensures cp == cp / 0x40 * 0x40 + cp % 0x40
    ensures cp / 0x40 == cp / 0x1000 * 0x40 + cp / 0x40 % 0x40
    ensures cp / 0x1000 == cp / 0x4_0000 * 0x40 + cp / 0x1000 % 0x40
  {
    assert cp / 0x40 / 0x40 == cp / 0x1000 && cp / 0x1000 / 0x40 == cp / 0x4_0000;
  }

  function CodePoints(s: seq<byte>): seq<nat>
    decreases |s|
  {
    if s == [] then [] else [Utf8Next(s).cp] + CodePoints(s[Utf8Next(s).n..])
  }

  function Utf8(cps: seq<nat>): seq<byte>
    requires forall i :: 0 <= i < |cps| ==> cps[i] < BEYOND
  {
    if cps == [] then [] else Utf8Put(cps[0]) + Utf8(cps[1..])
  }

  // Reading undoes writing for any text.
  lemma {:induction false} Utf8TextRoundTrip(cps: seq<nat>)
    requires forall i :: 0 <= i < |cps| ==> cps[i] < BEYOND
    ensures CodePoints(Utf8(cps)) == cps
    decreases |cps|
  {
    if cps != [] {
      var o, rest := Utf8Put(cps[0]), Utf8(cps[1..]);
      Utf8RoundTrip(cps[0], rest);
      assert (o + rest)[|o|..] == rest;
      Utf8TextRoundTrip(cps[1..]);
    }
  }
}
