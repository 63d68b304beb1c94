// tok_encode (esp32-embedder/tok/tok.c:201-319): what the tokens of a text are, and the streamed,
// capped encoder that writes the first of them.
module TokEncode {
  import opened Bytes
  import opened TokUnicode
  import opened TokVocab
  import opened TokSpecials

  const CLS := 101
  const SEP := 102
  const UNK := 100

  // ---- the tokens of a text --------------------------------------------------------------------

  type Words = seq<seq<byte>>

  // The length of the longest prefix of w[..j] that is in the vocabulary; 0 if none is.
  function Longest(vocab: Words, w: seq<byte>, j: nat): (l: nat)
    requires j <= |w|
    ensures l <= j
    ensures l > 0 ==> IdOf(vocab, w[..l]) >= 0
    ensures forall m :: l < m <= j ==> IdOf(vocab, w[..m]) < 0
  {
    if j == 0 then 0 else if IdOf(vocab, w[..j]) >= 0 then j else Longest(vocab, w, j - 1)
  }

  // Greedy longest match from the left, if it gets through.
  function Greedy(vocab: Words, w: seq<byte>): Option<seq<int>>
    decreases |w|
  {
    if w == [] then Some([])
    else
      var l := Longest(vocab, w, |w|);
      if l == 0 then None
      else
        var rest := Greedy(vocab, w[l..]);
        if rest.None? then None else Some([IdOf(vocab, w[..l])] + rest.value)
  }

  // A word's tokens: its greedy match, or [UNK] for the whole of it.
  function WordTokens(vocab: Words, word: seq<byte>): seq<int> {
    var ids := Greedy(vocab, LOW_LINE + word);
    if ids.Some? then ids.value else [UNK]
  }

  function Closed(word: seq<byte>): Words {
    if word == [] then [] else [word]
  }

  // The words of a text, of which word has been read: space ends one, a splitting character is one by
  // itself. None if it holds a code point llama.cpp throws on.
  function WordsFrom(t: Tables, word: seq<byte>, s: seq<byte>): Option<Words>
    decreases |s|
  {
    if s == [] then Some(Closed(word))
    else
      var r := Utf8Next(s);
      var cp := NfdOf(t, r.cp);
      var cls := ClassOf(t, cp);
      var low := LowerOf(t, cp);
      if cls == Space then Before(Closed(word), WordsFrom(t, [], s[r.n..]))
      else if cls == Drop then WordsFrom(t, word, s[r.n..])
      else if low >= BEYOND then None
      else if cls == Split then Before(Closed(word) + [Utf8Put(low)], WordsFrom(t, [], s[r.n..]))
      else WordsFrom(t, word + Utf8Put(low), s[r.n..])
  }

  function Before<T>(first: seq<T>, rest: Option<seq<T>>): Option<seq<T>> {
    if rest.None? then None else Some(first + rest.value)
  }

  function TokensOfWords(vocab: Words, words: Words): seq<int> {
    if words == [] then [] else WordTokens(vocab, words[0]) + TokensOfWords(vocab, words[1..])
  }

  function FragmentTokens(t: Tables, vocab: Words, s: seq<byte>): Option<seq<int>> {
    var words := WordsFrom(t, [], s);
    if words.None? then None else Some(TokensOfWords(vocab, words.value))
  }

  function PieceTokens(t: Tables, vocab: Words, p: Piece): Option<seq<int>> {
    match p
    case Text(s) => FragmentTokens(t, vocab, s)
    case Mark(k) => Some([if Known(k) then IdOf(vocab, SPECIALS[k]) else -1])
  }

  function TokensOf(t: Tables, vocab: Words, ps: seq<Piece>): Option<seq<int>> {
    if ps == [] then Some([])
    else
      var first := PieceTokens(t, vocab, ps[0]);
      if first.None? then None else Before(first.value, TokensOf(t, vocab, ps[1..]))
  }

  // The tokens of a text, without limit; None where llama.cpp throws.
  function TextTokens(t: Tables, vocab: Words, s: seq<byte>): Option<seq<int>> {
    TokensOf(t, vocab, Scan(s, ALL))
  }

  // ---- the encoder -------------------------------------------------------------------------------

  function AtMost(n: nat, cap: nat): nat {
    if n < cap then n else cap
  }

  // Nothing longer than the longest vocabulary string can match.
  // No beginning of w longer than l is in the vocabulary.
  ghost predicate NoneLonger(vocab: Words, w: seq<byte>, l: nat) {
    forall m :: l < m <= |w| ==> IdOf(vocab, w[..m]) < 0
  }

  lemma LongerUnknown(vocab: Words, w: seq<byte>, l: nat)
    requires l > MaxLen(vocab) || l >= |w|
    ensures NoneLonger(vocab, w, l)
  {
    hide IdOf, MaxLen;
    forall m | l < m <= |w|
      ensures IdOf(vocab, w[..m]) < 0
    {
      assert |w[..m]| == m;
    }
  }

  lemma OneShorter(vocab: Words, w: seq<byte>, l: nat)
    requires 0 < l <= |w| && NoneLonger(vocab, w, l) && IdOf(vocab, w[..l]) < 0
    ensures NoneLonger(vocab, w, l - 1)
  {
    hide IdOf;
  }

  lemma LongestIs(vocab: Words, w: seq<byte>, l: nat)
    requires l <= |w|
    requires l > 0 ==> IdOf(vocab, w[..l]) >= 0
    requires NoneLonger(vocab, w, l)
    ensures Longest(vocab, w, |w|) == l
  {
  }

  // Having matched done, what is left of the word is w.
  ghost predicate Matched(vocab: Words, all: seq<byte>, done: seq<int>, w: seq<byte>) {
    Greedy(vocab, all) == Before(done, Greedy(vocab, w))
  }

  lemma MatchMore(vocab: Words, all: seq<byte>, done: seq<int>, w: seq<byte>, l: nat)
    requires Matched(vocab, all, done, w) && 0 < l <= |w| && Longest(vocab, w, |w|) == l
    ensures Matched(vocab, all, done + [IdOf(vocab, w[..l])], w[l..])
  {
    var rest := Greedy(vocab, w[l..]);
    if rest.Some? {
      assert done + ([IdOf(vocab, w[..l])] + rest.value) == done + [IdOf(vocab, w[..l])] + rest.value;
    }
  }

  lemma MatchNone(vocab: Words, all: seq<byte>, done: seq<int>, w: seq<byte>)
    requires Matched(vocab, all, done, w) && w != [] && Longest(vocab, w, |w|) == 0
    ensures Greedy(vocab, all) == None
  {
  }

  lemma MatchAll(vocab: Words, all: seq<byte>, done: seq<int>)
    requires Matched(vocab, all, done, [])
    ensures Greedy(vocab, all) == Some(done)
  {
    assert done + [] == done;
  }

  lemma MatchStart(vocab: Words, all: seq<byte>)
    ensures Matched(vocab, all, [], all[0..])
  {
    assert all[0..] == all;
    if Greedy(vocab, all).Some? {
      assert [] + Greedy(vocab, all).value == Greedy(vocab, all).value;
    }
  }

  // The first tokens are still in place under those that are taken back.
  lemma TakeBack(out: seq<int>, before: seq<int>, done: seq<int>, cap: nat)
    requires out == (before + done)[..AtMost(|before + done|, cap)]
    ensures AtMost(|before|, cap) <= |out| && out[..AtMost(|before|, cap)] == before[..AtMost(|before|, cap)]
  {
  }

  class Encoder {
    const v: Vocab
    const cap: nat
    const ids: array<int>     // text tokens go to ids[1..]
    var n: nat                // text tokens so far, including any past cap
    const word: array<byte>   // the mark, then the current word
    var wlen: nat
    ghost var tokens: seq<int>

    constructor (v: Vocab, ids: array<int>, cap: nat, len: nat)
      requires cap + 2 <= ids.Length
      requires ids as object != v.off as object && ids as object != v.hash as object && ids as object != v.buf as object
      ensures Separate() && Written() && Reading([])
      ensures this.v == v && this.ids == ids && this.cap == cap
      ensures fresh(word) && word.Length == 3 + 4 * len + 1
      ensures tokens == []
    {
      this.v, this.ids, this.cap := v, ids, cap;
      n, wlen, tokens := 0, 3, [];
      word := new byte[3 + 4 * len + 1];
      new;
      word[0], word[1], word[2] := LOW_LINE[0], LOW_LINE[1], LOW_LINE[2];
    }

    // The first tokens, as many as fit, are in place.
    ghost predicate Written()
      reads this`n, this`tokens, ids
    {
      && cap + 2 <= ids.Length
      && n == |tokens|
      && ids[1..1 + AtMost(n, cap)] == tokens[..AtMost(n, cap)]
    }

    // The word being read, without the mark in front.
    ghost predicate Reading(w: seq<byte>)
      reads this`wlen, word
    {
      && wlen <= word.Length && wlen == 3 + |w|
      && word[..wlen] == LOW_LINE + w
      && NulFree(w)
    }

    method Push(id: int)
      requires Written()
      modifies this`n, this`tokens, ids
      ensures Written() && tokens == old(tokens) + [id]
    {
      if n < cap {
        ids[1 + n] := id;
      }
      n := n + 1;
      tokens := tokens + [id];
    }

    // e->n = start: the tokens done are taken back, and those before them still stand.
    method GoBack(start: nat, ghost before: seq<int>, ghost done: seq<int>)
      requires Written() && tokens == before + done && start == |before|
      modifies this`n, this`tokens
      ensures Written() && tokens == before
    {
      ghost var out := ids[1..1 + AtMost(n, cap)];
      TakeBack(out, before, done, cap);
      assert ids[1..1 + AtMost(start, cap)] == out[..AtMost(start, cap)];
      n := start;
      tokens := before;
    }

    lemma Output()
      requires Written()
      ensures n == |tokens| && 1 + AtMost(n, cap) <= ids.Length
      ensures ids[1..1 + AtMost(n, cap)] == tokens[..AtMost(n, cap)]
    {
    }

    lemma Count()
      requires Written()
      ensures n == |tokens|
    {
    }

    // The encoder's buffers are not the vocabulary's.
    ghost predicate Separate()
      reads v
    {
      && ids as object != v.off as object && ids as object != v.hash as object && ids as object != v.buf as object
      && word as object != v.off as object && word as object != v.hash as object && word as object != v.buf as object
      && ids as object != word as object
    }

    // The longest vocabulary string at place i of the word: where it ends (i if there is none) and its id.
    method Match(i: nat, ghost m: seq<byte>) returns (j: nat, id: int)
      requires v.Valid() && i < wlen <= word.Length && m == word[..wlen] && NulFree(m)
      ensures i <= j <= wlen && j - i == Longest(v.words, m[i..], |m| - i)
      ensures j > i ==> id == IdOf(v.words, m[i..][..j - i])
    {
      hide *;
      v.LongestString();
      j, id := i + v.maxLen + 1, -1;
      if j > wlen {
        j := wlen;
      }
      ghost var w := m[i..];
      LongerUnknown(v.words, w, j - i);
      while j > i
        invariant i <= j <= wlen
        invariant NoneLonger(v.words, w, j - i)
      {
        assert word[i..j] == word[..wlen][i..j] && m[i..j] == w[..j - i];
        SliceNulFree(m, i, j);
        id := v.Lookup(word[i..j]);
        if id >= 0 {
          break;
        }
        OneShorter(v.words, w, j - i);
        j := j - 1;
      }
      LongestIs(v.words, w, j - i);
    }

    // flush_word: the word's tokens, or [UNK] for all of it. Tokens pushed before a place that does
    // not match are taken back, whether or not they fitted.
    method FlushWord(ghost w: seq<byte>)
      requires v.Valid() && Separate() && Written() && Reading(w)
      modifies this`n, this`tokens, this`wlen, ids
      ensures v.Valid() && Written() && Reading([])
      ensures tokens == old(tokens) + (if w == [] then [] else WordTokens(v.words, w))
    {
      hide Matched, Greedy, Longest, IdOf, Vocab.Valid, Vocab.Entered, Encoder.Written, Encoder.Separate;
      Count();
      if wlen == 3 {
        return;
      }
      ghost var m := word[..wlen];
      var start, i := n, 0;
      ghost var before, done: seq<int> := tokens, [];
      MatchStart(v.words, m);
      while i < wlen
        invariant i <= wlen == |m| && wlen <= word.Length && m == word[..wlen]
        invariant v.Valid() && Separate() && Written()
        invariant tokens == before + done && n == |tokens|
        invariant i > 0 ==> done != []
        invariant Matched(v.words, m, done, m[i..])
      {
        var j, id := Match(i, m);
        if j == i {
          MatchNone(v.words, m, done, m[i..]);
          GoBack(start, before, done);
          break;
        }
        MatchMore(v.words, m, done, m[i..], j - i);
        Push(id);
        Count();
        done := done + [id];
        i := j;
      }
      if n == start {
        Push(UNK);
      } else {
        assert m[|m|..] == [];
        MatchAll(v.words, m, done);
      }
      wlen := 3;
      assert word[..3] == m[..3] == LOW_LINE == LOW_LINE + [];
    }

    // One more code point joins the word; the buffer has room for it.
    method Put(cp: nat, ghost w: seq<byte>)
      requires 0 < cp < BEYOND && Reading(w) && wlen + 4 <= word.Length
      requires v.Valid() && Separate() && Written()
      modifies this`wlen, word
      ensures Reading(w + Utf8Put(cp))
      ensures v.Valid() && Written()
    {
      hide Utf8Put, Vocab.Valid, Vocab.Entered;
      var o := Utf8Put(cp);
      forall k | 0 <= k < |o| {
        word[wlen + k] := o[k];
      }
      assert word[..wlen + |o|] == old(word[..wlen]) + o;
      wlen := wlen + |o|;
      assert LOW_LINE + w + o == LOW_LINE + (w + o);
    }

    // fragment: the words of s and their tokens, streamed. -2 where llama.cpp throws.
    method Fragment(t: Tables, s: seq<byte>) returns (rc: int)
      requires v.Valid() && Separate() && Written() && Reading([]) && WellFormed(t)
      requires 3 + 4 * |s| < word.Length
      modifies this`n, this`tokens, this`wlen, ids, word
      ensures v.Valid() && Written()
      ensures var all := FragmentTokens(t, v.words, s);
        if all.None? then rc == -2
        else rc == 0 && tokens == old(tokens) + all.value && Reading([])
    {
      hide WordTokens, WordsFrom, Vocab.Valid, Vocab.Entered, Utf8Next, Utf8Put, NfdOf, ClassOf, LowerOf, TokensOfWords,
        StillToRead, NulFree, Encoder.Written, Encoder.Separate;
      ghost var before := tokens;
      ghost var w: seq<byte>, done: Words := [], [];
      WordsStart(t, s);
      NoWords(v.words);
      var i := 0;
      while i < |s|
        invariant i <= |s| && |w| <= 4 * i
        invariant v.Valid() && Separate() && Written() && Reading(w)
        invariant tokens == before + TokensOfWords(v.words, done)
        invariant StillToRead(t, s, done, w, s[i..])
      {
        ghost var rest := s[i..];
        var r := Utf8Next(s[i..]);
        assert s[i + r.n..] == rest[r.n..];
        i := i + r.n;
        var cp := CptNfd(t, r.cp);
        var c := CptClass(t, cp);
        ReadOne(t, s, done, w, rest);
        if c == Space {
          FlushWord(w);
          MoreWords(v.words, done, w);
          done, w := done + Closed(w), [];
          continue;
        }
        if c == Drop {
          continue;
        }
        cp := CptLower(t, cp);
        if cp >= BEYOND {
          return -2;
        }
        if c == Split {
          FlushWord(w);
          MoreWords(v.words, done, w);
          done := done + Closed(w);
          Put(cp, []);
          assert [] + Utf8Put(cp) == Utf8Put(cp);
          FlushWord(Utf8Put(cp));
          MoreWords(v.words, done, Utf8Put(cp));
          done, w := done + [Utf8Put(cp)], [];
        } else {
          Put(cp, w);
          w := w + Utf8Put(cp);
        }
      }
      FlushWord(w);
      MoreWords(v.words, done, w);
      assert s[|s|..] == [];
      WordsEnd(t, s, done, w);
      return 0;
    }
  }

  // Having read the words done and the beginning w of one more, what is left of s is rest.
  ghost predicate StillToRead(t: Tables, s: seq<byte>, done: Words, w: seq<byte>, rest: seq<byte>) {
    WordsFrom(t, [], s) == Before(done, WordsFrom(t, w, rest))
  }

  lemma WordsStart(t: Tables, s: seq<byte>)
    ensures StillToRead(t, s, [], [], s[0..])
  {
    assert s[0..] == s;
    if WordsFrom(t, [], s).Some? {
      assert [] + WordsFrom(t, [], s).value == WordsFrom(t, [], s).value;
    }
  }

  lemma WordsEnd(t: Tables, s: seq<byte>, done: Words, w: seq<byte>)
    requires StillToRead(t, s, done, w, [])
    ensures WordsFrom(t, [], s) == Some(done + Closed(w))
  {
  }

  lemma BeforeTwice<T>(a: seq<T>, b: seq<T>, rest: Option<seq<T>>)
    ensures Before(a, Before(b, rest)) == Before(a + b, rest)
  {
    if rest.Some? {
      assert a + (b + rest.value) == a + b + rest.value;
    }
  }

  lemma ReadOne(t: Tables, s: seq<byte>, done: Words, w: seq<byte>, rest: seq<byte>)
    requires rest != [] && StillToRead(t, s, done, w, rest)
    ensures var r := Utf8Next(rest);
      var cp := NfdOf(t, r.cp);
      var cls := ClassOf(t, cp);
      var low := LowerOf(t, cp);
      var later := rest[r.n..];
      if cls == Space then StillToRead(t, s, done + Closed(w), [], later)
      else if cls == Drop then StillToRead(t, s, done, w, later)
      else if low >= BEYOND then WordsFrom(t, [], s).None?
      else if cls == Split then StillToRead(t, s, done + Closed(w) + [Utf8Put(low)], [], later)
      else StillToRead(t, s, done, w + Utf8Put(low), later)
  {
    hide Utf8Next, NfdOf, ClassOf, LowerOf, Utf8Put;
    var r := Utf8Next(rest);
    var low := LowerOf(t, NfdOf(t, r.cp));
    var anew := WordsFrom(t, [], rest[r.n..]);
    BeforeTwice(done, Closed(w), anew);
    if low < BEYOND {
      BeforeTwice(done, Closed(w) + [Utf8Put(low)], anew);
      assert done + (Closed(w) + [Utf8Put(low)]) == done + Closed(w) + [Utf8Put(low)];
    }
  }

  lemma NoWords(vocab: Words)
    ensures TokensOfWords(vocab, []) == []
  {
  }

  lemma {:induction false} TokensOfMore(vocab: Words, a: Words, b: Words)
    ensures TokensOfWords(vocab, a + b) == TokensOfWords(vocab, a) + TokensOfWords(vocab, b)
    decreases |a|
  {
    hide WordTokens;
    if a == [] {
      assert a + b == b;
    } else {
      assert (a + b)[1..] == a[1..] + b;
      TokensOfMore(vocab, a[1..], b);
    }
  }

  lemma MoreWords(vocab: Words, done: Words, w: seq<byte>)
    ensures TokensOfWords(vocab, done + Closed(w)) ==
      TokensOfWords(vocab, done) + (if w == [] then [] else WordTokens(vocab, w))
  {
    hide WordTokens;
    TokensOfMore(vocab, done, Closed(w));
    if w != [] {
      assert [w][1..] == [];
    }
  }

  lemma SliceNulFree(m: seq<byte>, i: nat, j: nat)
    requires NulFree(m) && i <= j <= |m|
    ensures NulFree(m[i..j])
  {
  }

  // ---- tok_encode ----------------------------------------------------------------------------------

  // Having written tokens, what is left to do is the text rest.
  ghost predicate StillToScan(t: Tables, vocab: Words, text: seq<byte>, tokens: seq<int>, rest: seq<byte>) {
    TextTokens(t, vocab, text) == Before(tokens, TextTokens(t, vocab, rest))
  }

  lemma ScanStart(t: Tables, vocab: Words, text: seq<byte>)
    ensures StillToScan(t, vocab, text, [], text[0..])
  {
    hide TextTokens;
    assert text[0..] == text;
    if TextTokens(t, vocab, text).Some? {
      assert [] + TextTokens(t, vocab, text).value == TextTokens(t, vocab, text).value;
    }
  }

  // A special at place i of what is left: the text before it is a fragment, and the scan goes on behind it.
  lemma ScanSpecial(t: Tables, vocab: Words, text: seq<byte>, tokens: seq<int>, rest: seq<byte>, i: nat, k: nat)
    requires StillToScan(t, vocab, text, tokens, rest) && IsFirst(rest, ALL, i, k)
    ensures i + |SPECIALS[k]| <= |rest|
    ensures var f := FragmentTokens(t, vocab, rest[..i]);
      if f.None? then TextTokens(t, vocab, text).None?
      else StillToScan(t, vocab, text, tokens + f.value + [IdOf(vocab, SPECIALS[k])], rest[i + |SPECIALS[k]|..])
  {
    hide Scan, IdOf, FragmentTokens;
    ScanAtFirst(rest, ALL, i, k);
    var later := Scan(rest[i + |SPECIALS[k]|..], ALL);
    PiecesAhead(t, vocab, rest[..i], k, later);
    var f := FragmentTokens(t, vocab, rest[..i]);
    if f.Some? {
      var id := [IdOf(vocab, SPECIALS[k])];
      BeforeTwice(f.value, id, TokensOf(t, vocab, later));
      BeforeTwice(tokens, f.value + id, TokensOf(t, vocab, later));
      assert tokens + (f.value + id) == tokens + f.value + id;
    }
  }

  lemma PiecesAhead(t: Tables, vocab: Words, u: seq<byte>, k: nat, later: seq<Piece>)
    requires Known(k)
    ensures var f := FragmentTokens(t, vocab, u);
      TokensOf(t, vocab, [Text(u), Mark(k)] + later) ==
        if f.None? then None else Before(f.value, Before([IdOf(vocab, SPECIALS[k])], TokensOf(t, vocab, later)))
  {
    hide FragmentTokens, IdOf;
    var ps := [Text(u), Mark(k)] + later;
    assert ps[1..] == [Mark(k)] + later && ([Mark(k)] + later)[1..] == later;
  }

  lemma ScanNoMore(t: Tables, vocab: Words, text: seq<byte>, tokens: seq<int>, rest: seq<byte>)
    requires StillToScan(t, vocab, text, tokens, rest) && Free(rest, |rest|, ALL)
    ensures var f := FragmentTokens(t, vocab, rest);
      TextTokens(t, vocab, text) == if f.None? then None else Some(tokens + f.value)
  {
    hide Scan, FragmentTokens;
    ScanOfNone(rest, ALL);
    assert [Text(rest)][1..] == [] && TokensOf(t, vocab, []) == Some([]);
    var f := FragmentTokens(t, vocab, rest);
    if f.Some? {
      assert f.value + [] == f.value;
    }
  }

  // A special can only begin at '['.
  lemma NoBracketNoSpecial(s: seq<byte>, i: nat)
    requires i < |s| && s[i] != 91
    ensures forall k :: Known(k) ==> !OccursAt(s, i, k)
  {
    forall k | Known(k)
      ensures !OccursAt(s, i, k)
    {
      SpecialsAreBracketed(k);
      if OccursAt(s, i, k) {
        OccursBytes(s, i, k);
      }
    }
  }

  lemma FreeMore(rest: seq<byte>, n: nat)
    requires Free(rest, n, ALL) && forall k :: Known(k) ==> !OccursAt(rest, n, k)
    ensures Free(rest, n + 1, ALL)
  {
  }

  lemma FreeOfNone(rest: seq<byte>)
    ensures Free(rest, 0, ALL)
  {
  }

  // Place i of the text, seen from place a.
  lemma AtInRest(text: seq<byte>, a: nat, i: nat, k: nat)
    requires a <= i <= |text| && k <= |SPECIALS| && Free(text[a..], i - a, ALL)
    ensures Known(k) && OccursAt(text, i, k) ==> IsFirst(text[a..], ALL, i - a, k)
    ensures (forall m :: Known(m) ==> !OccursAt(text, i, m)) ==>
      forall m :: Known(m) ==> !OccursAt(text[a..], i - a, m)
  {
    hide OccursAt, Free;
    forall m | Known(m)
      ensures OccursAt(text[a..], i - a, m) == OccursAt(text, i, m)
    {
      OccursInTail(text, a, i - a, m);
    }
  }

  lemma SpecialsAreNulFree(k: nat)
    requires Known(k)
    ensures NulFree(SPECIALS[k])
  {
  }

  // The special at place i of the text, if there is one, trying them in order.
  method SpecialAt(text: seq<byte>, i: nat) returns (k: nat)
    requires i < |text|
    ensures k <= |SPECIALS|
    ensures k < |SPECIALS| ==> OccursAt(text, i, k)
    ensures k == |SPECIALS| ==> forall m :: Known(m) ==> !OccursAt(text, i, m)
  {
    k := |SPECIALS|;
    if text[i] != 91 {
      NoBracketNoSpecial(text, i);
      return;
    }
    k := 0;
    while k < |SPECIALS|
      invariant k <= |SPECIALS|
      invariant forall m :: 0 <= m < k ==> !OccursAt(text, i, m)
    {
      var l := |SPECIALS[k]|;
      if i + l <= |text| && text[i..i + l] == SPECIALS[k] {
        return;
      }
      k := k + 1;
    }
  }

  // A text's ids: [CLS], as many of its tokens as fit, [SEP]; and how many there were in all. -1 if
  // there is no room or no memory for the word buffer, -2 where llama.cpp throws.
  method Encode(v: Vocab, t: Tables, text: seq<byte>, ids: array<int>, maxIds: int, memory: bool)
    returns (r: int, total: int)
    requires v.Valid() && WellFormed(t) && maxIds <= ids.Length
    requires ids as object != v.off as object && ids as object != v.hash as object && ids as object != v.buf as object
    modifies ids
    ensures r == -1 || r == -2 || 2 <= r <= maxIds
    ensures r == -1 <==> maxIds < 2 || !memory
    ensures r == -2 <==> maxIds >= 2 && memory && TextTokens(t, v.words, text).None?
    ensures r >= 0 ==>
      var all := TextTokens(t, v.words, text);
      && all.Some? && total == |all.value| + 2
      && r == (if |all.value| <= maxIds - 2 then |all.value| + 2 else maxIds)
      && ids[..r] == [101] + all.value[..r - 2] + [102]
  {
    hide TextTokens, FragmentTokens, Scan, StillToScan, Free, IdOf, Vocab.Valid, Vocab.Entered, OccursAt,
      Encoder.Written, Encoder.Separate, WellFormed, NulFree, ALL, SPECIALS;
    total := 0;
    if maxIds < 2 || !memory {
      return -1, 0;
    }
    var e := new Encoder(v, ids, maxIds - 2, |text|);
    var a, i, rc := 0, 0, 0;
    ScanStart(t, v.words, text);
    FreeOfNone(text[a..]);
    while i < |text| && rc == 0
      invariant a <= i <= |text|
      invariant rc == 0 || rc == -2
      invariant fresh(e) && fresh(e.word) && e.v == v && e.ids == ids && e.cap == maxIds - 2
      invariant e.word.Length == 3 + 4 * |text| + 1
      invariant v.Valid() && e.Separate() && e.Written()
      invariant rc == 0 ==> e.Reading([])
      invariant rc == 0 ==> StillToScan(t, v.words, text, e.tokens, text[a..]) && Free(text[a..], i - a, ALL)
      invariant rc != 0 ==> TextTokens(t, v.words, text).None?
      decreases |text| - i
    {
      var k := SpecialAt(text, i);
      ghost var rest := text[a..];
      AtInRest(text, a, i, k);
      if k < |SPECIALS| {
        ScanSpecial(t, v.words, text, e.tokens, rest, i - a, k);
        assert rest[..i - a] == text[a..i];
        rc := e.Fragment(t, text[a..i]);
        SpecialsAreNulFree(k);
        var id := v.Lookup(SPECIALS[k]);
        e.Push(id);
        SpecialsAreBracketed(k);
        var l := |SPECIALS[k]|;
        assert rest[i - a + l..] == text[i + l..];
        a := i + l;
        i := a;
        FreeOfNone(text[a..]);
      } else {
        FreeMore(rest, i - a);
        i := i + 1;
      }
    }
    if rc == 0 {
      ScanNoMore(t, v.words, text, e.tokens, text[a..]);
      rc := e.Fragment(t, text[a..]);
    }
    if rc != 0 {
      return rc, 0;
    }
    var n := AtMost(e.n, e.cap);
    e.Output();
    ids[0] := CLS;
    ids[1 + n] := SEP;
    assert ids[..n + 2] == [CLS] + ids[1..1 + n] + [SEP];
    return n + 2, e.n + 2;
  }
}
