// What the tokens of a text are (esp32-embedder/tok/tok.c:220-308), said of the text's code points and of the
// vocabulary's strings: which words there are, and that each word's ids spell it or it is one [UNK].
module TokMeaning {
  import opened Bytes
  import opened TokUnicode
  import opened TokVocab
  import opened TokSpecials
  import opened TokEncode

  // ---- a word ----------------------------------------------------------------------------------------------

  // The ids spell s: their strings make it up, each the longest in the vocabulary that s goes on with, and of
  // equal strings the last.
  ghost predicate Spells(vocab: Words, s: seq<byte>, ids: seq<int>)
    decreases |ids|
  {
    if ids == [] then s == []
    else
      && 0 <= ids[0] < |vocab|
      && var w := vocab[ids[0]];
         && 0 < |w| <= |s| && s[..|w|] == w
         && (forall i :: ids[0] < i < |vocab| ==> vocab[i] != w)
         && (forall i :: 0 <= i < |vocab| && |w| < |vocab[i]| <= |s| ==> s[..|vocab[i]|] != vocab[i])
         && Spells(vocab, s[|w|..], ids[1..])
  }

  lemma {:induction false} SpelledIsGreedy(vocab: Words, s: seq<byte>, ids: seq<int>)
    requires Spells(vocab, s, ids)
    ensures Greedy(vocab, s) == Some(ids)
    decreases |ids|
  {
    hide IdOf, Longest;
    if ids != [] {
      var w := vocab[ids[0]];
      NothingLonger(vocab, s, |w|);
      LongestIsKnown(vocab, s, ids[0]);
      SpelledIsGreedy(vocab, s[|w|..], ids[1..]);
      assert ids == [ids[0]] + ids[1..];
    }
  }

  lemma KnownIsThere(vocab: Words, w: seq<byte>)
    ensures IdOf(vocab, w) >= 0 ==> exists i :: 0 <= i < |vocab| && vocab[i] == w
  {
    hide IdOf;
  }

  lemma NothingLonger(vocab: Words, s: seq<byte>, l: nat)
    requires l <= |s| && forall i :: 0 <= i < |vocab| && l < |vocab[i]| <= |s| ==> s[..|vocab[i]|] != vocab[i]
    ensures forall m :: l < m <= |s| ==> IdOf(vocab, s[..m]) < 0
  {
    hide IdOf;
    forall m | l < m <= |s|
      ensures IdOf(vocab, s[..m]) < 0
    {
      KnownIsThere(vocab, s[..m]);
    }
  }

  lemma LongestIsKnown(vocab: Words, s: seq<byte>, id: nat)
    requires id < |vocab| && 0 < |vocab[id]| <= |s| && s[..|vocab[id]|] == vocab[id]
    requires forall i :: id < i < |vocab| ==> vocab[i] != vocab[id]
    requires forall m :: |vocab[id]| < m <= |s| ==> IdOf(vocab, s[..m]) < 0
    ensures Longest(vocab, s, |s|) == |vocab[id]| && IdOf(vocab, s[..|vocab[id]|]) == id
  {
    hide IdOf, Longest;
    var l := Longest(vocab, s, |s|);
    assert IdOf(vocab, vocab[id]) == id;
  }

  lemma {:induction false} GreedySpells(vocab: Words, s: seq<byte>)
    requires Greedy(vocab, s).Some?
    ensures Spells(vocab, s, Greedy(vocab, s).value)
    decreases |s|
  {
    hide IdOf, Longest;
    if s != [] {
      var l := Longest(vocab, s, |s|);
      GreedySpells(vocab, s[l..]);
      var ids := Greedy(vocab, s).value;
      assert ids[1..] == Greedy(vocab, s[l..]).value;
      forall i | 0 <= i < |vocab| && l < |vocab[i]| <= |s|
        ensures s[..|vocab[i]|] != vocab[i]
      {
        assert IdOf(vocab, s[..|vocab[i]|]) < 0;
      }
    }
  }

  // A word's tokens spell it, mark and all; if nothing does, they are the one [UNK]. There is always one.
  lemma WordMeans(vocab: Words, word: seq<byte>)
    ensures var ids, s := WordTokens(vocab, word), [0xe2, 0x96, 0x81] + word;
      |ids| >= 1 && (Spells(vocab, s, ids) || (ids == [100] && forall other :: !Spells(vocab, s, other)))
  {
    hide Greedy, Spells;
    var s := LOW_LINE + word;
    if Greedy(vocab, s).Some? {
      GreedySpells(vocab, s);
      SpellsSome(vocab, s, Greedy(vocab, s).value);
    }
    forall other | Spells(vocab, s, other)
      ensures Greedy(vocab, s) == Some(other)
    {
      SpelledIsGreedy(vocab, s, other);
    }
  }

  lemma SpellsSome(vocab: Words, s: seq<byte>, ids: seq<int>)
    requires Spells(vocab, s, ids) && s != []
    ensures ids != []
  {
  }

  // ---- which words there are -----------------------------------------------------------------------------------

  // The words of these code points, of the first of which word has been read.
  function CodeWords(t: Tables, word: seq<byte>, cps: seq<nat>): Option<Words>
    decreases |cps|
  {
    if cps == [] then Some(Closed(word))
    else
      var cp := NfdOf(t, cps[0]);
      var cls, low := ClassOf(t, cp), LowerOf(t, cp);
      if cls == Space then Before(Closed(word), CodeWords(t, [], cps[1..]))
      else if cls == Drop then CodeWords(t, word, cps[1..])
      else if low >= BEYOND then None
      else if cls == Split then Before(Closed(word) + [Utf8Put(low)], CodeWords(t, [], cps[1..]))
      else CodeWords(t, word + Utf8Put(low), cps[1..])
  }

  lemma {:induction false} WordsAreOfCodePoints(t: Tables, word: seq<byte>, s: seq<byte>)
    ensures WordsFrom(t, word, s) == CodeWords(t, word, CodePoints(s))
    decreases |s|
  {
    hide Utf8Next, NfdOf, ClassOf, LowerOf, Utf8Put, Before, Closed;
    if s != [] {
      var r := Utf8Next(s);
      var rest := s[r.n..];
      var cps := CodePoints(s);
      assert cps[0] == r.cp && cps[1..] == CodePoints(rest);
      var cp := NfdOf(t, r.cp);
      WordsAreOfCodePoints(t, [], rest);
      WordsAreOfCodePoints(t, word, rest);
      if LowerOf(t, cp) < BEYOND {
        WordsAreOfCodePoints(t, word + Utf8Put(LowerOf(t, cp)), rest);
      }
    }
  }

  // What becomes of the code point in a word.
  function Shown(t: Tables, cp: nat): nat { LowerOf(t, NfdOf(t, cp)) }

  function Kind(t: Tables, cp: nat): Class { ClassOf(t, NfdOf(t, cp)) }

  lemma {:induction false} OneRun(t: Tables, word: seq<byte>, cps: seq<nat>, lows: seq<nat>)
    requires |lows| == |cps| && forall i :: 0 <= i < |cps| ==> Kind(t, cps[i]) == Keep && lows[i] == Shown(t, cps[i]) < BEYOND
    ensures CodeWords(t, word, cps) == Some(Closed(word + Utf8(lows)))
    decreases |cps|
  {
    hide Utf8Put, Closed, NfdOf, ClassOf, LowerOf;
    if cps == [] {
      assert word + [] == word;
    } else {
      OneRun(t, word + Utf8Put(lows[0]), cps[1..], lows[1..]);
      assert word + Utf8Put(lows[0]) + Utf8(lows[1..]) == word + (Utf8Put(lows[0]) + Utf8(lows[1..]));
    }
  }

  function Both<T>(a: Option<seq<T>>, b: Option<seq<T>>): Option<seq<T>> {
    if a.None? || b.None? then None else Some(a.value + b.value)
  }

  lemma BothBefore<T>(first: seq<T>, a: Option<seq<T>>, b: Option<seq<T>>)
    ensures Before(first, Both(a, b)) == Both(Before(first, a), b)
  {
    if a.Some? && b.Some? {
      assert first + (a.value + b.value) == first + a.value + b.value;
    }
  }

  // A white code point ends a word; one that splits ends a word and is one itself; one that drops is as if it
  // were not there.
  lemma {:induction false} CutAt(t: Tables, word: seq<byte>, a: seq<nat>, cp: nat, b: seq<nat>)
    ensures Kind(t, cp) == Space ==> CodeWords(t, word, a + [cp] + b) == Both(CodeWords(t, word, a), CodeWords(t, [], b))
    ensures Kind(t, cp) == Split ==>
      CodeWords(t, word, a + [cp] + b) == Both(Both(CodeWords(t, word, a), CodeWords(t, [], [cp])), CodeWords(t, [], b))
    ensures Kind(t, cp) == Drop ==> CodeWords(t, word, a + [cp] + b) == CodeWords(t, word, a + b)
    decreases |a|
  {
    hide NfdOf, ClassOf, LowerOf, Utf8Put, CodeWords;
    var all := a + [cp] + b;
    if a == [] {
      assert all == [cp] + b && a + b == b;
      FirstCode(t, word, cp, b);
      NoCodes(t, word);
      FirstCode(t, [], cp, []);
      NoCodes(t, []);
      assert [cp] + [] == [cp];
      var p := if Shown(t, cp) < BEYOND then [Utf8Put(Shown(t, cp))] else [];
      assert Closed([]) + p + [] == p;
    } else {
      var rest := a[1..] + [cp] + b;
      assert all == [a[0]] + rest && a + b == [a[0]] + (a[1..] + b) && a == [a[0]] + a[1..];
      FirstCode(t, word, a[0], rest);
      FirstCode(t, word, a[0], a[1..] + b);
      FirstCode(t, word, a[0], a[1..]);
      CutAt(t, [], a[1..], cp, b);
      CutAt(t, word, a[1..], cp, b);
      var low := Shown(t, a[0]);
      if low < BEYOND {
        CutAt(t, word + Utf8Put(low), a[1..], cp, b);
        BothBefore(Closed(word) + [Utf8Put(low)], CodeWords(t, [], a[1..]), CodeWords(t, [], b));
        BothBefore(Closed(word) + [Utf8Put(low)], Both(CodeWords(t, [], a[1..]), CodeWords(t, [], [cp])), CodeWords(t, [], b));
        BothBefore(Closed(word) + [Utf8Put(low)], CodeWords(t, [], a[1..]), CodeWords(t, [], [cp]));
      }
      BothBefore(Closed(word), CodeWords(t, [], a[1..]), CodeWords(t, [], b));
      BothBefore(Closed(word), Both(CodeWords(t, [], a[1..]), CodeWords(t, [], [cp])), CodeWords(t, [], b));
      BothBefore(Closed(word), CodeWords(t, [], a[1..]), CodeWords(t, [], [cp]));
    }
  }

  lemma NoCodes(t: Tables, word: seq<byte>)
    ensures CodeWords(t, word, []) == Some(Closed(word))
  {
  }

  lemma FirstCode(t: Tables, word: seq<byte>, cp: nat, rest: seq<nat>)
    ensures var cls, low := Kind(t, cp), Shown(t, cp);
      CodeWords(t, word, [cp] + rest) ==
        if cls == Space then Before(Closed(word), CodeWords(t, [], rest))
        else if cls == Drop then CodeWords(t, word, rest)
        else if low >= BEYOND then None
        else if cls == Split then Before(Closed(word) + [Utf8Put(low)], CodeWords(t, [], rest))
        else CodeWords(t, word + Utf8Put(low), rest)
  {
    hide NfdOf, ClassOf, LowerOf, Utf8Put, Before, Closed;
    assert ([cp] + rest)[1..] == rest;
  }

  // Some code point is one llama.cpp throws on.
  predicate Throws(t: Tables, cps: seq<nat>) {
    exists i :: 0 <= i < |cps| && Thrown(t, NfdOf(t, cps[i]))
  }

  predicate Thrown(t: Tables, cp: nat) {
    LowerOf(t, cp) >= 0x11_0000 && (ClassOf(t, cp) == Keep || ClassOf(t, cp) == Split)
  }

  lemma {:induction false} NoWordsIfThrown(t: Tables, word: seq<byte>, cps: seq<nat>)
    ensures CodeWords(t, word, cps).None? <==> Throws(t, cps)
    decreases |cps|
  {
    hide NfdOf, ClassOf, LowerOf, Utf8Put, CodeWords;
    if cps == [] {
      NoCodes(t, word);
    } else {
      var cp, rest := cps[0], cps[1..];
      assert cps == [cp] + rest;
      FirstCode(t, word, cp, rest);
      NoWordsIfThrown(t, [], rest);
      NoWordsIfThrown(t, word, rest);
      if Shown(t, cp) < BEYOND {
        NoWordsIfThrown(t, word + Utf8Put(Shown(t, cp)), rest);
      }
      ThrowsFirst(t, cp, rest);
    }
  }

  lemma ThrowsFirst(t: Tables, cp: nat, rest: seq<nat>)
    ensures Throws(t, [cp] + rest) <==> Thrown(t, NfdOf(t, cp)) || Throws(t, rest)
  {
    hide Thrown, NfdOf;
    var all := [cp] + rest;
    assert all[0] == cp;
    if Throws(t, rest) {
      var i :| 0 <= i < |rest| && Thrown(t, NfdOf(t, rest[i]));
      assert all[i + 1] == rest[i];
    }
  }

  // ---- the tokens of a text -----------------------------------------------------------------------------------------

  predicate NoSpecial(text: seq<byte>) {
    forall i, k :: 0 <= i < |text| && 0 <= k < 5 ==> !OccursAt(text, i, k)
  }

  lemma PlainTokens(t: Tables, vocab: Words, text: seq<byte>)
    requires NoSpecial(text)
    ensures var words := CodeWords(t, [], CodePoints(text));
      TextTokens(t, vocab, text) == if words.None? then None else Some(TokensOfWords(vocab, words.value))
  {
    hide CodeWords, WordsFrom, CodePoints, TokensOfWords, Scan, OccursAt;
    ScanOfNone(text, ALL);
    WordsAreOfCodePoints(t, [], text);
    var f := FragmentTokens(t, vocab, text);
    NoPieces(t, vocab);
    assert [Text(text)][1..] == [];
    if f.Some? {
      assert f.value + [] == f.value;
    }
  }

  lemma NoPieces(t: Tables, vocab: Words)
    ensures TokensOf(t, vocab, []) == Some([])
  {
  }

  // A text that is one word: its ids spell the word, or there is one, [UNK].
  lemma OneWord(t: Tables, vocab: Words, text: seq<byte>, lows: seq<nat>)
    requires NoSpecial(text) && text != [] && |lows| == |CodePoints(text)|
    requires forall i :: 0 <= i < |lows| ==>
      ClassOf(t, NfdOf(t, CodePoints(text)[i])) == Keep && lows[i] == LowerOf(t, NfdOf(t, CodePoints(text)[i])) < BEYOND
    ensures TextTokens(t, vocab, text).Some?
    ensures var ids, s := TextTokens(t, vocab, text).value, [0xe2, 0x96, 0x81] + Utf8(lows);
      |ids| >= 1 && (Spells(vocab, s, ids) || (ids == [100] && forall other :: !Spells(vocab, s, other)))
  {
    hide WordTokens, Spells, Scan, TextTokens, NoSpecial;
    var cps := CodePoints(text);
    PlainTokens(t, vocab, text);
    OneRun(t, [], cps, lows);
    assert [] + Utf8(lows) == Utf8(lows) && lows != [];
    WordMeans(vocab, Utf8(lows));
    WordTokensAlone(vocab, Utf8(lows));
  }

  lemma WordTokensAlone(vocab: Words, word: seq<byte>)
    ensures TokensOfWords(vocab, [word]) == WordTokens(vocab, word)
  {
    assert [word][1..] == [] && WordTokens(vocab, word) + [] == WordTokens(vocab, word);
  }

  lemma {:induction false} TokensOfBoth(vocab: Words, a: Words, b: Words)
    ensures TokensOfWords(vocab, a + b) == TokensOfWords(vocab, a) + TokensOfWords(vocab, b)
    decreases |a|
  {
    hide WordTokens;
    if a == [] {
      assert a + b == b;
    } else {
      assert (a + b)[1..] == a[1..] + b;
      TokensOfBoth(vocab, a[1..], b);
    }
  }

  lemma PlainBoth(vocab: Words, a: Option<Words>, b: Option<Words>)
    ensures var both := Both(a, b);
      (if both.None? then None else Some(TokensOfWords(vocab, both.value)))
      == Both(if a.None? then None else Some(TokensOfWords(vocab, a.value)), if b.None? then None else Some(TokensOfWords(vocab, b.value)))
  {
    hide WordTokens;
    if a.Some? && b.Some? {
      TokensOfBoth(vocab, a.value, b.value);
    }
  }

  // A text cut at a white code point has the tokens of what is before it and of what is behind it; cut at one that
  // splits, those of that one by itself in between; and one that drops might as well not be there.
  lemma CutTokens(t: Tables, vocab: Words, text: seq<byte>, a: seq<byte>, c: seq<byte>, b: seq<byte>)
    requires NoSpecial(text) && NoSpecial(a) && NoSpecial(b) && NoSpecial(c)
    requires |CodePoints(c)| == 1 && CodePoints(text) == CodePoints(a) + CodePoints(c) + CodePoints(b)
    ensures var cls := ClassOf(t, NfdOf(t, CodePoints(c)[0]));
      && (cls == Space ==> TextTokens(t, vocab, text) == Both(TextTokens(t, vocab, a), TextTokens(t, vocab, b)))
      && (cls == Split ==>
            TextTokens(t, vocab, text) == Both(Both(TextTokens(t, vocab, a), TextTokens(t, vocab, c)), TextTokens(t, vocab, b)))
  {
    hide CodeWords, TokensOfWords, TextTokens, NoSpecial, CodePoints, Both, ClassOf, NfdOf;
    var cp := CodePoints(c)[0];
    assert CodePoints(c) == [cp];
    CutAt(t, [], CodePoints(a), cp, CodePoints(b));
    PlainTokens(t, vocab, text);
    PlainTokens(t, vocab, a);
    PlainTokens(t, vocab, b);
    PlainTokens(t, vocab, c);
    var wa, wb, wc := CodeWords(t, [], CodePoints(a)), CodeWords(t, [], CodePoints(b)), CodeWords(t, [], [cp]);
    PlainBoth(vocab, wa, wb);
    PlainBoth(vocab, wa, wc);
    PlainBoth(vocab, Both(wa, wc), wb);
  }

  lemma DroppedTokens(t: Tables, vocab: Words, text: seq<byte>, rest: seq<byte>, a: seq<nat>, cp: nat, b: seq<nat>)
    requires NoSpecial(text) && NoSpecial(rest) && CodePoints(text) == a + [cp] + b && CodePoints(rest) == a + b
    requires ClassOf(t, NfdOf(t, cp)) == Drop
    ensures TextTokens(t, vocab, text) == TextTokens(t, vocab, rest)
  {
    hide CodeWords, TokensOfWords, TextTokens, NoSpecial, CodePoints, ClassOf, NfdOf;
    CutAt(t, [], a, cp, b);
    PlainTokens(t, vocab, text);
    PlainTokens(t, vocab, rest);
  }

  // A code point that splits is a word by itself.
  lemma SplitAlone(t: Tables, vocab: Words, c: seq<byte>)
    requires NoSpecial(c) && |CodePoints(c)| == 1
    requires var cp := CodePoints(c)[0]; ClassOf(t, NfdOf(t, cp)) == Split && LowerOf(t, NfdOf(t, cp)) < BEYOND
    ensures TextTokens(t, vocab, c).Some?
    ensures var ids, s := TextTokens(t, vocab, c).value, [0xe2, 0x96, 0x81] + Utf8([LowerOf(t, NfdOf(t, CodePoints(c)[0]))]);
      |ids| >= 1 && (Spells(vocab, s, ids) || (ids == [100] && forall other :: !Spells(vocab, s, other)))
  {
    hide WordTokens, Spells, TextTokens, NoSpecial, CodePoints, NfdOf, ClassOf, LowerOf, Utf8Put, CodeWords;
    var cp := CodePoints(c)[0];
    var o := Utf8Put(Shown(t, cp));
    assert CodePoints(c) == [cp] + [];
    PlainTokens(t, vocab, c);
    FirstCode(t, [], cp, []);
    NoCodes(t, []);
    assert Utf8([Shown(t, cp)]) == o by { assert [Shown(t, cp)][1..] == [] && o + [] == o; }
    assert Closed([]) + [o] + [] == [o];
    WordMeans(vocab, o);
    WordTokensAlone(vocab, o);
  }

  // There are no tokens at all exactly where llama.cpp throws.
  lemma ThrownTokens(t: Tables, vocab: Words, text: seq<byte>)
    requires NoSpecial(text)
    ensures TextTokens(t, vocab, text).None? <==> exists i :: 0 <= i < |CodePoints(text)| && Thrown(t, NfdOf(t, CodePoints(text)[i]))
  {
    hide CodeWords, TokensOfWords, TextTokens, NoSpecial, CodePoints, NfdOf, ClassOf, LowerOf;
    PlainTokens(t, vocab, text);
    NoWordsIfThrown(t, [], CodePoints(text));
  }

  // A special in a text that has none before it: the tokens before it, its own id, and those of what follows.
  lemma SpecialTokens(t: Tables, vocab: Words, a: seq<byte>, k: nat, b: seq<byte>)
    requires k < 5 && NoSpecial(a) && (forall i, m :: 0 <= i < |a| && 0 <= m < 5 ==> !OccursAt(a + SPECIALS[k] + b, i, m))
    ensures TextTokens(t, vocab, a + SPECIALS[k] + b) ==
      Both(Both(TextTokens(t, vocab, a), Some([IdOf(vocab, SPECIALS[k])])), TextTokens(t, vocab, b))
  {
    hide Scan, FragmentTokens, IdOf, OccursAt, SPECIALS;
    SpecialsFive();
    var l := SPECIALS[k];
    var text := a + l + b;
    OccursHere(a, l, b, k);
    ScanAtFirst(text, ALL, |a|, k);
    assert text[..|a|] == a && text[|a| + |l|..] == b;
    PiecesAhead(t, vocab, a, k, Scan(b, ALL));
    ScanOfNone(a, ALL);
    NoPieces(t, vocab);
    assert [Text(a)][1..] == [];
    var f := FragmentTokens(t, vocab, a);
    if f.Some? {
      assert f.value + [] == f.value;
      BeforeTwice(f.value, [IdOf(vocab, l)], TextTokens(t, vocab, b));
    }
  }

  lemma SpecialsFive()
    ensures |SPECIALS| == 5 && ALL == {0, 1, 2, 3, 4}
  {
  }

  lemma OccursHere(a: seq<byte>, l: seq<byte>, b: seq<byte>, k: nat)
    requires k < 5 && l == SPECIALS[k]
    ensures OccursAt(a + l + b, |a|, k)
  {
    assert (a + l + b)[|a|..|a| + |l|] == l;
  }
}
