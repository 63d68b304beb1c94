// The tokeniser's vocabulary (esp32-embedder/tok/tok.c:11-98): the section of the model file turned
// into GGUF-form strings in one buffer, found through an open-addressing hash table.
module TokVocab {
  import opened Bytes

  // ---- strings ------------------------------------------------------------------------------

  predicate NulFree(s: seq<byte>) {
    forall i :: 0 <= i < |s| ==> s[i] != 0
  }

  // The first n NUL-terminated strings of the section, if it holds that many.
  function Section(hf: seq<byte>, n: nat): (r: Option<seq<seq<byte>>>)
    ensures r.Some? ==> |r.value| == n
    ensures r.Some? ==> forall i :: 0 <= i < n ==> NulFree(r.value[i])
  {
    if n == 0 then Some([])
    else
      var l := UpToNul(hf);
      if l == |hf| then None
      else
        var rest := Section(hf[l + 1..], n - 1);
        if rest.None? then None else Some([hf[..l]] + rest.value)
  }

  function UpToNul(s: seq<byte>): (l: nat)
    ensures l <= |s|
    ensures NulFree(s[..l])
    ensures l < |s| ==> s[l] == 0
  {
    if s == [] || s[0] == 0 then 0
    else
      var l := UpToNul(s[1..]);
      assert s[..l + 1] == [s[0]] + s[1..][..l];
      l + 1
  }

  // "\u2581", which starts a word in GGUF form
  const LOW_LINE: seq<byte> := [0xe2, 0x96, 0x81]

  // HF form to GGUF form: "##piece" to "piece", "[X]" as it is, "word" with the mark in front.
  function Gguf(s: seq<byte>): seq<byte> {
    if |s| >= 2 && s[0] == 35 && s[1] == 35 then s[2..]
    else if |s| >= 2 && s[0] == 91 && s[|s| - 1] == 93 then s
    else LOW_LINE + s
  }

  function GgufAll(ss: seq<seq<byte>>): (ws: seq<seq<byte>>)
    ensures |ws| == |ss|
    ensures forall i :: 0 <= i < |ss| ==> ws[i] == Gguf(ss[i])
  {
    if ss == [] then [] else GgufAll(ss[..|ss| - 1]) + [Gguf(ss[|ss| - 1])]
  }

  // The id of a string: of equal ones, llama.cpp's token_to_id keeps the last; -1 if there is none.
  function IdOf(words: seq<seq<byte>>, s: seq<byte>): (id: int)
    ensures -1 <= id < |words|
    ensures id >= 0 ==> words[id] == s
    ensures forall i :: id < i < |words| ==> words[i] != s
  {
    if words == [] then -1
    else if words[|words| - 1] == s then |words| - 1
    else IdOf(words[..|words| - 1], s)
  }

  function MaxLen(words: seq<seq<byte>>): (m: nat)
    ensures forall i :: 0 <= i < |words| ==> |words[i]| <= m
  {
    if words == [] then 0
    else
      var m, l := MaxLen(words[..|words| - 1]), |words[|words| - 1]|;
      if l > m then l else m
  }

  // ---- the hash -----------------------------------------------------------------------------

  function Xor(a: byte, b: byte): byte {
    ((a as bv8) ^ (b as bv8)) as byte
  }

  const FNV_PRIME := 16777619

  // fnv1a, in 32 bits.
  function Fnv1a(s: seq<byte>): (h: nat)
    ensures h < 0x1_0000_0000
  {
    if s == [] then 2166136261
    else
      var h := Fnv1a(s[..|s| - 1]);
      ((h - h % 256 + Xor(h % 256, s[|s| - 1])) * FNV_PRIME) % 0x1_0000_0000
  }

  // The slot a string's search starts from; the size is a power of two, so "& hmask" is a remainder.
  function Home(s: seq<byte>, size: nat): (h: nat)
    requires size > 0
    ensures h < size
  {
    Fnv1a(s) % size
  }

  function NextSlot(h: nat, size: nat): nat {
    if h + 1 >= size then 0 else h + 1
  }

  // ---- the table ------------------------------------------------------------------------------

  // Slot q comes before slot p on the way round from home.
  predicate OnTheWay(home: nat, p: nat, q: nat) {
    if home <= p then home <= q < p else home <= q || q < p
  }

  // A slot holds an id plus one, or 0 if it is empty.
  ghost predicate Holds(table: seq<nat>, words: seq<seq<byte>>) {
    forall p :: 0 <= p < |table| ==> table[p] <= |words|
  }

  function WordAt(table: seq<nat>, words: seq<seq<byte>>, p: nat): seq<byte>
    requires p < |table| && 0 < table[p] <= |words|
  {
    words[table[p] - 1]
  }

  // Every occupied slot can be reached from its word's home over occupied slots.
  ghost predicate Reachable(table: seq<nat>, words: seq<seq<byte>>)
    requires Holds(table, words)
  {
    forall p, q | 0 <= p < |table| && table[p] != 0 && 0 <= q < |table| ::
      OnTheWay(Home(WordAt(table, words, p), |table|), p, q) ==> table[q] != 0
  }

  ghost predicate HasSlot(table: seq<nat>, words: seq<seq<byte>>, s: seq<byte>)
    requires Holds(table, words)
  {
    exists p :: 0 <= p < |table| && table[p] != 0 && WordAt(table, words, p) == s
  }

  // Every word has a slot; a slot holds the id of the last word equal to its own, and no two slots
  // hold the same id.
  ghost predicate Indexed(table: seq<nat>, words: seq<seq<byte>>)
    requires Holds(table, words)
  {
    && (forall i :: 0 <= i < |words| ==> HasSlot(table, words, words[i]))
    && (forall p, i :: 0 <= p < |table| && table[p] != 0 && table[p] <= i < |words| ==>
      words[i] != WordAt(table, words, p))
    && (forall p, q :: 0 <= p < q < |table| && table[p] != 0 ==> table[p] != table[q])
  }

  function Occupied(table: seq<nat>): (n: nat)
    ensures n <= |table|
  {
    if table == [] then 0
    else Occupied(table[..|table| - 1]) + (if table[|table| - 1] != 0 then 1 else 0)
  }

  ghost predicate IsTable(table: seq<nat>, words: seq<seq<byte>>) {
    && |table| > 0
    && Holds(table, words)
    && Reachable(table, words)
    && Indexed(table, words)
    && Occupied(table) <= |words|
  }

  lemma {:induction false} EmptySlot(table: seq<nat>) returns (z: nat)
    requires Occupied(table) < |table|
    ensures z < |table| && table[z] == 0
    decreases |table|
  {
    z := |table| - 1;
    if table[z] != 0 {
      z := EmptySlot(table[..z]);
    }
  }

  lemma {:induction false} OccupiedUpdate(table: seq<nat>, p: nat, v: nat)
    requires p < |table| && v != 0
    ensures Occupied(table[p := v]) == Occupied(table) + (if table[p] == 0 then 1 else 0)
    decreases |table|
  {
    var last := |table| - 1;
    if p == last {
      assert table[p := v][..last] == table[..last];
    } else {
      assert table[p := v][..last] == table[..last][p := v];
      OccupiedUpdate(table[..last], p, v);
    }
  }

  // Where a search for s stops: at s's slot, or at the first empty one from its home.
  ghost predicate StopsAt(table: seq<nat>, words: seq<seq<byte>>, s: seq<byte>, h: nat)
    requires Holds(table, words) && |table| > 0
  {
    && h < |table|
    && (forall q :: 0 <= q < |table| && OnTheWay(Home(s, |table|), h, q) ==>
      table[q] != 0 && WordAt(table, words, q) != s)
    && (table[h] != 0 ==> WordAt(table, words, h) == s)
  }

  lemma OnlySlot(table: seq<nat>, words: seq<seq<byte>>, s: seq<byte>, h: nat, p: nat)
    requires IsTable(table, words) && StopsAt(table, words, s, h)
    requires p < |table| && table[p] != 0 && WordAt(table, words, p) == s
    ensures p == h
  {
    hide Home, Occupied;
    var home := Home(s, |table|);
    assert !OnTheWay(home, h, p);
    assert OnTheWay(home, p, h) ==> table[h] != 0;
  }

  lemma StopDecides(table: seq<nat>, words: seq<seq<byte>>, s: seq<byte>, h: nat)
    requires IsTable(table, words) && StopsAt(table, words, s, h)
    ensures IdOf(words, s) == table[h] as int - 1
  {
    hide Home, Occupied, Reachable;
    if table[h] == 0 {
      forall i | 0 <= i < |words|
        ensures words[i] != s
      {
        if words[i] == s {
          var p :| 0 <= p < |table| && table[p] != 0 && WordAt(table, words, p) == words[i];
          OnlySlot(table, words, s, h, p);
        }
      }
    } else {
      assert words[table[h] - 1] == s;
    }
  }

  // Entering the next word where its search stops keeps the table, and the last of equal words wins.
  lemma Enter(table: seq<nat>, words: seq<seq<byte>>, s: seq<byte>, h: nat)
    requires IsTable(table, words) && StopsAt(table, words, s, h)
    ensures IsTable(table[h := |words| + 1], words + [s])
  {
    hide Home, Occupied, Reachable, Indexed;
    OccupiedUpdate(table, h, |words| + 1);
    EnterReachable(table, words, s, h);
    EnterIndexed(table, words, s, h);
  }

  lemma EnterReachable(table: seq<nat>, words: seq<seq<byte>>, s: seq<byte>, h: nat)
    requires IsTable(table, words) && StopsAt(table, words, s, h)
    ensures Holds(table[h := |words| + 1], words + [s]) && Reachable(table[h := |words| + 1], words + [s])
  {
    hide Home, Occupied, Indexed;
    var t, ws := table[h := |words| + 1], words + [s];
    forall p, q | 0 <= p < |t| && t[p] != 0 && 0 <= q < |t| && OnTheWay(Home(WordAt(t, ws, p), |t|), p, q)
      ensures t[q] != 0
    {
      if p != h {
        assert WordAt(t, ws, p) == WordAt(table, words, p);
      }
    }
  }

  lemma EnterIndexed(table: seq<nat>, words: seq<seq<byte>>, s: seq<byte>, h: nat)
    requires IsTable(table, words) && StopsAt(table, words, s, h)
    ensures Holds(table[h := |words| + 1], words + [s]) && Indexed(table[h := |words| + 1], words + [s])
  {
    hide Home, Occupied, Reachable;
    var t, ws := table[h := |words| + 1], words + [s];
    assert WordAt(t, ws, h) == s;
    forall p | 0 <= p < |t| && p != h && t[p] != 0
      ensures WordAt(t, ws, p) == WordAt(table, words, p) != s
    {
      if WordAt(table, words, p) == s {
        OnlySlot(table, words, s, h, p);
      }
    }
    forall i | 0 <= i < |ws|
      ensures HasSlot(t, ws, ws[i])
    {
      if ws[i] != s {
        assert HasSlot(table, words, words[i]);
        var p :| 0 <= p < |table| && table[p] != 0 && WordAt(table, words, p) == words[i];
        assert p != h;
      }
    }
  }

  // ---- the string buffer ----------------------------------------------------------------------

  // "!strncmp(t, s, len) && !t[len]" of the string at offset o.
  predicate StringAt(buf: seq<byte>, o: nat, s: seq<byte>) {
    o + |s| < |buf| && buf[o..o + |s|] == s && buf[o + |s|] == 0
  }

  ghost predicate Stored(buf: seq<byte>, off: seq<nat>, words: seq<seq<byte>>, end: nat) {
    && |words| <= |off|
    && (forall i :: 0 <= i < |words| ==> NulFree(words[i]))
    && (forall i :: 0 <= i < |words| ==> StringAt(buf, off[i], words[i]) && off[i] + |words[i]| < end)
  }

  lemma StringAtDecides(buf: seq<byte>, o: nat, w: seq<byte>, s: seq<byte>)
    requires NulFree(w) && NulFree(s) && StringAt(buf, o, w)
    ensures StringAt(buf, o, s) <==> s == w
  {
    assert forall m :: o <= m < o + |w| ==> buf[m] == buf[o..o + |w|][m - o] == w[m - o];
    if StringAt(buf, o, s) {
      assert forall m :: o <= m < o + |s| ==> buf[m] == buf[o..o + |s|][m - o] == s[m - o];
    }
  }

  lemma GgufNulFree(s: seq<byte>)
    requires NulFree(s)
    ensures NulFree(Gguf(s)) && |Gguf(s)| <= |s| + 3
  {
  }

  lemma SameSlice(buf: seq<byte>, buf': seq<byte>, a: nat, b: nat, end: nat)
    requires a <= b < end <= |buf| == |buf'| && buf'[..end] == buf[..end]
    ensures buf'[a..b] == buf[a..b] && buf'[b] == buf[b]
  {
    assert forall i :: 0 <= i < end ==> buf'[..end][i] == buf[..end][i];
  }

  // Writing past what is stored leaves it.
  lemma StoredStays(buf: seq<byte>, buf': seq<byte>, off: seq<nat>, off': seq<nat>, words: seq<seq<byte>>, end: nat)
    requires Stored(buf, off, words, end) && end <= |buf| == |buf'| && |off| == |off'|
    requires buf'[..end] == buf[..end] && off'[..|words|] == off[..|words|]
    ensures Stored(buf', off', words, end)
  {
    forall i | 0 <= i < |words|
      ensures StringAt(buf', off'[i], words[i]) && off'[i] + |words[i]| < end
    {
      assert off'[i] == off'[..|words|][i] == off[..|words|][i];
      SameSlice(buf, buf', off[i], off[i] + |words[i]|, end);
    }
  }

  function Distance(h: nat, z: nat, size: nat): nat
    requires h < size && z < size
  {
    if h <= z then z - h else z - h + size
  }

  // A string and its NUL, from place o on.
  method Copy(buf: array<byte>, w: seq<byte>, o: nat)
    requires o + |w| < buf.Length
    modifies buf
    ensures StringAt(buf[..], o, w) && buf[..o] == old(buf[..o])
  {
    forall k | 0 <= k < |w| {
      buf[o + k] := w[k];
    }
    buf[o + |w|] := 0;
    assert buf[o..o + |w|] == w;
  }

  class Vocab {
    var buf: array<byte>      // GGUF-form strings, each with its NUL
    var off: array<nat>       // where each id's string starts
    var hash: array<nat>      // open addressing: id + 1, or 0
    var n: nat
    var maxLen: nat
    ghost var words: seq<seq<byte>>
    ghost var end: nat

    // The words entered so far, in the buffer and in the table, which keeps an empty slot.
    ghost predicate Entered()
      reads `buf, `off, `hash, `words, `end, `maxLen, buf, off, hash
    {
      && off != hash && end <= buf.Length
      && Stored(buf[..], off[..], words, end)
      && IsTable(hash[..], words)
      && |words| < hash.Length
      && maxLen == MaxLen(words)
    }

    ghost predicate Valid()
      reads this, buf, off, hash
    {
      Entered() && n == |words|
    }

    lemma LongestString()
      requires Valid()
      ensures maxLen == MaxLen(words)
    {
    }

    // The loop both tok_lookup and tok_init run. It ends because the table keeps an empty slot.
    method Probe(s: seq<byte>) returns (h: nat)
      requires Entered() && NulFree(s)
      ensures StopsAt(hash[..], words, s, h)
    {
      hide Home, Occupied, Stored, IsTable, NulFree;
      ghost var table := hash[..];
      TableFacts(table, words);
      StoredFacts(buf[..], off[..], words, end);
      ghost var z := EmptySlot(table);
      h := Home(s, hash.Length);
      while hash[h] != 0 && !StringAt(buf[..], off[hash[h] - 1], s)
        invariant h < hash.Length
        invariant forall q :: 0 <= q < |table| && OnTheWay(Home(s, |table|), h, q) ==>
          table[q] != 0 && WordAt(table, words, q) != s
        decreases Distance(h, z, hash.Length)
      {
        StoredAt(buf[..], off[..], words, end, hash[h] - 1, s);
        h := NextSlot(h, hash.Length);
      }
      if hash[h] != 0 {
        StoredAt(buf[..], off[..], words, end, hash[h] - 1, s);
      }
    }

    // tok_lookup: the id of a GGUF-form string, or -1.
    method Lookup(s: seq<byte>) returns (id: int)
      requires Valid() && NulFree(s)
      ensures id == IdOf(words, s)
    {
      hide Stored, IdOf;
      var h := Probe(s);
      StopDecides(hash[..], words, s, h);
      id := hash[h] as int - 1;
    }

    // The next id's string w goes into the buffer at o, with its NUL, and into the table.
    method Append(i: nat, w: seq<byte>, o: nat)
      requires Entered() && NulFree(w) && i == |words|
      requires o == end && o + |w| < buf.Length && |words| < off.Length && |words| + 1 < hash.Length
      modifies this, buf, off, hash
      ensures Entered() && words == old(words) + [w] && end == o + |w| + 1
      ensures buf == old(buf) && off == old(off) && hash == old(hash) && n == old(n)
    {
      hide Home, Occupied, IsTable, MaxLen, NulFree, IdOf, Stored, StringAt;
      ghost var was, offs, table := buf[..], off[..], hash[..];
      StoredFacts(was, offs, words, end);
      off[i] := o;
      Copy(buf, w, o);
      StoredStays(was, buf[..], offs, off[..], words, end);
      assert hash[..] == table;
      var h := Probe(w);
      TableFacts(hash[..], words);
      Enter(hash[..], words, w, h);
      hash[h] := i + 1;
      MaxLenGrows(words, w);
      if |w| > maxLen {
        maxLen := |w|;
      }
      StoredGrows(buf[..], off[..], words, end, w, o);
      words, end := words + [w], o + |w| + 1;
    }

    // tok_init: 0 and a vocabulary of the section's first n strings, or -1.
    method Init(hf: seq<byte>, count: int, memory: bool) returns (rc: int)
      modifies this
      ensures rc == 0 || rc == -1
      ensures rc == 0 ==> 0 < count && Section(hf, count).Some? && Valid() && words == GgufAll(Section(hf, count).value)
      ensures rc == 0 ==> fresh(buf) && fresh(off) && fresh(hash)
      ensures rc == -1 <==> count <= 0 || count >= 0xFFFF || !memory || Section(hf, count).None?
    {
      hide Section, GgufAll, IsTable, Stored, MaxLen, NulFree, Gguf;
      if count <= 0 || count >= 0xFFFF {
        return -1;
      }
      var size := 1;
      while size < 2 * count
        invariant 0 < size
        decreases 2 * count - size
      {
        size := size * 2;
      }
      if !memory {
        return -1;
      }
      buf, off, hash := new byte[|hf| + 3 * count], new nat[count], new nat[size](_ => 0);
      n, maxLen, words, end := 0, 0, [], 0;
      NothingEntered(buf[..], off[..], hash[..]);
      rc := Fill(hf, count);
    }

    // The strings of the section, one after the other, into the buffer and the table.
    method Fill(hf: seq<byte>, count: nat) returns (rc: int)
      requires Entered() && words == [] && end == 0
      requires buf.Length == |hf| + 3 * count && off.Length == count && count < hash.Length
      modifies this, buf, off, hash
      ensures rc == 0 || rc == -1
      ensures rc == 0 ==> Section(hf, count).Some? && Valid() && words == GgufAll(Section(hf, count).value)
      ensures buf == old(buf) && off == old(off) && hash == old(hash)
      ensures rc == -1 <==> Section(hf, count).None?
    {
      hide Section, GgufAll, Entered, NulFree, Gguf;
      NoneGguf();
      var p, o := 0, 0;
      ghost var done: seq<seq<byte>> := [];
      SectionStart(hf, count);
      for i := 0 to count
        invariant p <= |hf| && o == end <= p + 3 * i
        invariant buf == old(buf) && off == old(off) && hash == old(hash)
        invariant Entered() && |words| == i && |done| == i && words == GgufAll(done)
        invariant Section(hf, count) == Prepended(done, Section(hf[p..], count - i))
      {
        var l := UpToNul(hf[p..]);
        SectionStep(hf[p..], count - i, done);
        if l == |hf| - p {
          return -1;
        }
        var w := Gguf(hf[p..][..l]);
        GgufNulFree(hf[p..][..l]);
        Append(i, w, o);
        o := o + |w| + 1;
        GgufAllGrows(done, hf[p..][..l]);
        done := done + [hf[p..][..l]];
        assert hf[p..][l + 1..] == hf[p + l + 1..];
        p := p + l + 1;
      }
      SectionEnd(hf[p..], done);
      n := count;
      return 0;
    }
  }

  function Prepended(done: seq<seq<byte>>, r: Option<seq<seq<byte>>>): Option<seq<seq<byte>>> {
    if r.None? then None else Some(done + r.value)
  }

  lemma SectionStart(hf: seq<byte>, n: nat)
    ensures Section(hf, n) == Prepended([], Section(hf[0..], n - 0))
  {
    assert hf[0..] == hf;
    if Section(hf, n).Some? {
      assert [] + Section(hf, n).value == Section(hf, n).value;
    }
  }

  lemma SectionIs(rest: seq<byte>, n: nat)
    requires n > 0
    ensures var l := UpToNul(rest);
      if l == |rest| then Section(rest, n).None?
      else
        var later := Section(rest[l + 1..], n - 1);
        Section(rest, n) == if later.None? then None else Some([rest[..l]] + later.value)
  {
    hide UpToNul, NulFree;
  }

  lemma SectionStep(rest: seq<byte>, n: nat, done: seq<seq<byte>>)
    requires n > 0
    ensures var l := UpToNul(rest);
      if l == |rest| then Section(rest, n).None?
      else Prepended(done, Section(rest, n)) == Prepended(done + [rest[..l]], Section(rest[l + 1..], n - 1))
  {
    hide Section, NulFree;
    SectionIs(rest, n);
    var l := UpToNul(rest);
    if l < |rest| {
      var later := Section(rest[l + 1..], n - 1);
      if later.Some? {
        assert done + ([rest[..l]] + later.value) == done + [rest[..l]] + later.value;
      }
    }
  }

  lemma SectionEnd(rest: seq<byte>, done: seq<seq<byte>>)
    ensures Prepended(done, Section(rest, 0)) == Some(done)
  {
    assert done + [] == done;
  }

  lemma GgufAllGrows(done: seq<seq<byte>>, s: seq<byte>)
    ensures GgufAll(done + [s]) == GgufAll(done) + [Gguf(s)]
  {
    assert (done + [s])[..|done|] == done;
  }

  lemma MaxLenGrows(words: seq<seq<byte>>, w: seq<byte>)
    ensures MaxLen(words + [w]) == if |w| > MaxLen(words) then |w| else MaxLen(words)
  {
    assert (words + [w])[..|words|] == words;
  }

  lemma StoredGrows(buf: seq<byte>, off: seq<nat>, words: seq<seq<byte>>, end: nat, w: seq<byte>, o: nat)
    requires Stored(buf, off, words, end) && NulFree(w)
    requires |words| < |off| && off[|words|] == o == end && StringAt(buf, o, w)
    ensures Stored(buf, off, words + [w], o + |w| + 1)
  {
  }

  lemma {:induction false} NothingOccupied(table: seq<nat>)
    requires forall p :: 0 <= p < |table| ==> table[p] == 0
    ensures Occupied(table) == 0
    decreases |table|
  {
    if table != [] {
      NothingOccupied(table[..|table| - 1]);
    }
  }

  lemma NoneGguf()
    ensures GgufAll([]) == []
  {
  }

  lemma NothingEntered(buf: seq<byte>, off: seq<nat>, table: seq<nat>)
    requires |table| > 0 && forall p :: 0 <= p < |table| ==> table[p] == 0
    ensures Stored(buf, off, [], 0) && IsTable(table, []) && MaxLen([]) == 0 && GgufAll([]) == []
  {
    NothingOccupied(table);
  }

  lemma TableFacts(table: seq<nat>, words: seq<seq<byte>>)
    requires IsTable(table, words)
    ensures Holds(table, words) && |table| > 0 && Occupied(table) <= |words|
  {
  }

  lemma StoredFacts(buf: seq<byte>, off: seq<nat>, words: seq<seq<byte>>, end: nat)
    requires Stored(buf, off, words, end)
    ensures |words| <= |off|
  {
  }

  lemma StoredAt(buf: seq<byte>, off: seq<nat>, words: seq<seq<byte>>, end: nat, i: nat, s: seq<byte>)
    requires Stored(buf, off, words, end) && i < |words| && NulFree(s)
    ensures i < |off| && (StringAt(buf, off[i], s) <==> words[i] == s)
  {
    StringAtDecides(buf, off[i], words[i], s);
  }

  // ---- the section and its strings -----------------------------------------------------------------------

  function NulEnded(ss: seq<seq<byte>>): seq<byte> {
    if ss == [] then [] else ss[0] + [0] + NulEnded(ss[1..])
  }

  // The section holds just these strings if and only if it begins with them, each up to its NUL.
  lemma SectionHolds(hf: seq<byte>, ss: seq<seq<byte>>)
    ensures Section(hf, |ss|) == Some(ss) <==> (forall i :: 0 <= i < |ss| ==> NulFree(ss[i])) && NulEnded(ss) <= hf
  {
    hide Section, NulFree, NulEnded;
    if Section(hf, |ss|) == Some(ss) {
      HeldThere(hf, ss);
    }
    if (forall i :: 0 <= i < |ss| ==> NulFree(ss[i])) && NulEnded(ss) <= hf {
      ThereHeld(hf, ss);
    }
  }

  lemma {:induction false} HeldThere(hf: seq<byte>, ss: seq<seq<byte>>)
    requires Section(hf, |ss|) == Some(ss)
    ensures NulEnded(ss) <= hf
    decreases |ss|
  {
    hide UpToNul, NulFree, Section;
    if ss != [] {
      SectionIs(hf, |ss|);
      var l := UpToNul(hf);
      assert Section(hf, |ss|).value[1..] == ss[1..];
      HeldThere(hf[l + 1..], ss[1..]);
      assert hf == hf[..l] + [0] + hf[l + 1..];
    }
  }

  lemma {:induction false} ThereHeld(hf: seq<byte>, ss: seq<seq<byte>>)
    requires (forall i :: 0 <= i < |ss| ==> NulFree(ss[i])) && NulEnded(ss) <= hf
    ensures Section(hf, |ss|) == Some(ss)
    decreases |ss|
  {
    hide UpToNul, NulFree, Section;
    if ss == [] {
      NoneInSection(hf);
    } else {
      SectionIs(hf, |ss|);
      var first, rest := ss[0] + [0], ss[1..];
      assert hf[..|first|] == NulEnded(ss)[..|first|] == first;
      UpToNulIs(hf, ss[0]);
      assert hf[|first|..][..|NulEnded(rest)|] == NulEnded(ss)[|first|..];
      ThereHeld(hf[|first|..], rest);
      assert hf[..|ss[0]|] == hf[..|first|][..|ss[0]|];
      assert ss == [ss[0]] + rest;
    }
  }

  lemma NoneInSection(hf: seq<byte>)
    ensures Section(hf, 0) == Some([])
  {
  }

  lemma UpToNulIs(hf: seq<byte>, s: seq<byte>)
    requires NulFree(s) && s + [0] <= hf
    ensures UpToNul(hf) == |s|
  {
    hide UpToNul;
    var l := UpToNul(hf);
    assert (s + [0])[|s|] == 0 && hf[|s|] == 0;
    assert forall i :: 0 <= i < |s| ==> hf[i] == (s + [0])[i] == s[i];
    assert forall i :: 0 <= i < l ==> hf[..l][i] == hf[i];
  }

  // "##piece" is "piece", "[X]" is itself, and any other string has the mark in front.
  lemma GgufForms(s: seq<byte>)
    ensures Gguf([35, 35] + s) == s
    ensures !([35, 35] <= s) && |s| >= 2 && s[0] == 91 && s[|s| - 1] == 93 ==> Gguf(s) == s
    ensures !([35, 35] <= s) && !(|s| >= 2 && s[0] == 91 && s[|s| - 1] == 93) ==> Gguf(s) == [0xe2, 0x96, 0x81] + s
  {
    assert ([35, 35] + s)[2..] == s;
  }
}
