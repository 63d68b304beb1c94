// What can be made of an age file without its key (the Payload section of the C2SP age v1 specification;
// esp32-embedder/worker/age.c:246-284): nothing that is read but the file itself. The assumption is that
// whoever changed it forged no chunk: of all that reading opens, only what was sealed for the file opens.
module AgeIntegrity {
  import opened Bytes
  import opened AgeStream

  // The counter has eight bytes.
  const MOST: nat := 0x1_0000_0000_0000_0000

  datatype Sealing = Sealing(salt: seq<byte>, nonce: seq<byte>, text: seq<byte>)

  // Everything sealed for one file.
  function Sealings(a: Aead, salt: seq<byte>, plain: seq<byte>, counter: nat): set<Sealing>
    decreases |plain|
  {
    if |plain| <= CHUNK then {Sealing(salt, Nonce(counter, true), a.seal(salt, Nonce(counter, true), plain))}
    else
      {Sealing(salt, Nonce(counter, false), a.seal(salt, Nonce(counter, false), plain[..CHUNK]))}
      + Sealings(a, salt, plain[CHUNK..], counter + 1)
  }

  // Of the chunks reading the body tries to open, those that open were sealed.
  predicate Unforged(a: Aead, salt: seq<byte>, body: seq<byte>, counter: nat, sealed: set<Sealing>)
    decreases |body|
  {
    var n := ChunkLength(|body|);
    var nonce := Nonce(counter, n == |body|);
    && (a.open(salt, nonce, body[..n]).Some? ==> Sealing(salt, nonce, body[..n]) in sealed)
    && (n < |body| ==> Unforged(a, salt, body[n..], counter + 1, sealed))
  }

  // No forgery at all, whatever is tried.
  ghost predicate Unforgeable(a: Aead, sealed: set<Sealing>) {
    forall s, n, c :: a.open(s, n, c).Some? ==> Sealing(s, n, c) in sealed
  }

  lemma {:induction false} NothingForged(a: Aead, salt: seq<byte>, body: seq<byte>, counter: nat, sealed: set<Sealing>)
    requires Unforgeable(a, sealed)
    ensures Unforged(a, salt, body, counter, sealed)
    decreases |body|
  {
    hide Nonce;
    var n := ChunkLength(|body|);
    if n < |body| {
      NothingForged(a, salt, body[n..], counter + 1, sealed);
    }
  }

  // ---- nonces ---------------------------------------------------------------------------------------------

  function Power(bytes: nat): nat {
    if bytes == 0 then 1 else 256 * Power(bytes - 1)
  }

  lemma {:induction false} CountersDiffer(x: nat, y: nat, bytes: nat)
    requires x < Power(bytes) && y < Power(bytes) && BigEndian(x, bytes) == BigEndian(y, bytes)
    ensures x == y
    decreases bytes
  {
    if bytes > 0 {
      var u, v := BigEndian(x / 256, bytes - 1), BigEndian(y / 256, bytes - 1);
      assert (u + [x % 256])[..bytes - 1] == u && (v + [y % 256])[..bytes - 1] == v;
      assert (u + [x % 256])[bytes - 1] == (v + [y % 256])[bytes - 1];
      CountersDiffer(x / 256, y / 256, bytes - 1);
    }
  }

  // The twelve bytes: three of zero, the counter with its highest byte first, and the flag.
  lemma NonceIs(counter: nat, last: bool)
    ensures Nonce(counter, last) == [0, 0, 0,
      counter / 0x100_0000_0000_0000 % 256, counter / 0x1_0000_0000_0000 % 256, counter / 0x100_0000_0000 % 256,
      counter / 0x1_0000_0000 % 256, counter / 0x100_0000 % 256, counter / 0x1_0000 % 256, counter / 0x100 % 256, counter % 256,
      if last then 1 else 0]
  {
    hide BigEndian;
    OneByte(counter, 7);
    OneByte(counter / 0x100, 6);
    OneByte(counter / 0x1_0000, 5);
    OneByte(counter / 0x100_0000, 4);
    OneByte(counter / 0x1_0000_0000, 3);
    OneByte(counter / 0x100_0000_0000, 2);
    OneByte(counter / 0x1_0000_0000_0000, 1);
    OneByte(counter / 0x100_0000_0000_0000, 0);
    NoBytes(counter / 0x1_0000_0000_0000_0000);
  }

  lemma OneByte(counter: nat, bytes: nat)
    ensures BigEndian(counter, bytes + 1) == BigEndian(counter / 256, bytes) + [counter % 256]
  {
  }

  lemma NoBytes(counter: nat)
    ensures BigEndian(counter, 0) == []
  {
  }

  // No two chunks of a file have one nonce.
  lemma NoncesDiffer(j: nat, flag: bool, k: nat, last: bool)
    requires j < MOST && k < MOST && Nonce(j, flag) == Nonce(k, last)
    ensures j == k && flag == last
  {
    hide BigEndian;
    var x, y := BigEndian(j, 8), BigEndian(k, 8);
    assert Nonce(j, flag)[3..11] == x && Nonce(k, last)[3..11] == y;
    assert Nonce(j, flag)[11] == Nonce(k, last)[11];
    assert Power(8) == MOST by {
      assert Power(2) == 0x1_0000 && Power(4) == 0x1_0000_0000 && Power(6) == 0x1_0000_0000_0000;
    }
    CountersDiffer(j, k, 8);
  }

  // ---- only the file is read ------------------------------------------------------------------------------

  function Count(plain: seq<byte>): (n: nat)
    ensures n >= 1
    decreases |plain|
  {
    if |plain| <= CHUNK then 1 else 1 + Count(plain[CHUNK..])
  }

  // Sealed as chunk number k, or a later one.
  ghost predicate From(x: Sealing, k: nat) {
    exists j: nat, flag: bool :: k <= j < MOST && x.nonce == Nonce(j, flag)
  }

  ghost predicate Before(x: Sealing, k: nat) {
    exists j: nat, flag: bool :: j < k && x.nonce == Nonce(j, flag)
  }

  lemma {:induction false} SealedFrom(a: Aead, salt: seq<byte>, plain: seq<byte>, counter: nat)
    requires counter + Count(plain) <= MOST
    ensures forall x :: x in Sealings(a, salt, plain, counter) ==> From(x, counter)
    decreases |plain|
  {
    hide Nonce;
    if |plain| > CHUNK {
      SealedFrom(a, salt, plain[CHUNK..], counter + 1);
      forall x | x in Sealings(a, salt, plain[CHUNK..], counter + 1)
        ensures From(x, counter)
      {
        var j: nat, flag: bool :| counter + 1 <= j < MOST && x.nonce == Nonce(j, flag);
      }
    }
  }

  // Under the nonce of the next chunk nothing was sealed but that chunk.
  lemma NextSealed(a: Aead, salt: seq<byte>, plain: seq<byte>, counter: nat, sealed: set<Sealing>, x: Sealing, last: bool)
    requires counter + Count(plain) <= MOST && x in sealed && x.nonce == Nonce(counter, last)
    requires forall y :: y in sealed ==> y in Sealings(a, salt, plain, counter) || Before(y, counter)
    ensures x.salt == salt && last == (|plain| <= CHUNK)
    ensures x.text == a.seal(salt, Nonce(counter, last), if last then plain else plain[..CHUNK])
  {
    hide Nonce;
    if Before(x, counter) {
      var j: nat, flag: bool :| j < counter && x.nonce == Nonce(j, flag);
      NoncesDiffer(j, flag, counter, last);
    } else if |plain| <= CHUNK {
      NoncesDiffer(counter, true, counter, last);
    } else if x in Sealings(a, salt, plain[CHUNK..], counter + 1) {
      SealedFrom(a, salt, plain[CHUNK..], counter + 1);
      var j: nat, flag: bool :| counter + 1 <= j < MOST && x.nonce == Nonce(j, flag);
      NoncesDiffer(j, flag, counter, last);
    } else {
      NoncesDiffer(counter, false, counter, last);
    }
  }

  lemma {:induction false} OnlyTheRest(a: Aead, salt: seq<byte>, plain: seq<byte>, counter: nat, sealed: set<Sealing>,
                                       s: seq<byte>, body: seq<byte>)
    requires counter + Count(plain) <= MOST && Unforged(a, s, body, counter, sealed)
    requires forall y :: y in sealed ==> y in Sealings(a, salt, plain, counter) || Before(y, counter)
    requires Read(a, s, body, counter).Some?
    ensures s == salt && body == Chunks(a, salt, plain, counter)
    decreases |body|
  {
    hide Nonce;
    var n := ChunkLength(|body|);
    var last := n == |body|;
    var x := Sealing(s, Nonce(counter, last), body[..n]);
    NextSealed(a, salt, plain, counter, sealed, x, last);
    assert body == body[..n] + body[n..];
    if !last {
      forall y | y in sealed
        ensures y in Sealings(a, salt, plain[CHUNK..], counter + 1) || Before(y, counter + 1)
      {
        if Before(y, counter) {
          var j: nat, flag: bool :| j < counter && y.nonce == Nonce(j, flag);
        }
      }
      OnlyTheRest(a, salt, plain[CHUNK..], counter + 1, sealed, s, body[n..]);
    }
  }

  // Whatever body is put behind whatever salt: if no chunk of it is forged, it is read only if it is the file.
  lemma OnlyTheFile(a: Aead, salt: seq<byte>, plain: seq<byte>, s: seq<byte>, body: seq<byte>)
    requires Count(plain) <= MOST && Unforged(a, s, body, 0, Sealings(a, salt, plain, 0))
    ensures Read(a, s, body, 0).Some? ==> s == salt && body == Chunks(a, salt, plain, 0)
  {
    if Read(a, s, body, 0).Some? {
      OnlyTheRest(a, salt, plain, 0, Sealings(a, salt, plain, 0), s, body);
    }
  }

  // With an AEAD that opens what it sealed, exactly then, and as the plaintext sealed.
  lemma ExactlyTheFile(a: Aead, salt: seq<byte>, plain: seq<byte>, s: seq<byte>, body: seq<byte>, p: seq<byte>)
    requires Ideal(a) && Count(plain) <= MOST && Unforged(a, s, body, 0, Sealings(a, salt, plain, 0))
    ensures Read(a, s, body, 0) == Some(p) <==> s == salt && body == Chunks(a, salt, plain, 0) && p == plain
  {
    hide Read, Chunks, Unforged, Sealings;
    OnlyTheFile(a, salt, plain, s, body);
    ReadsExactly(a, salt, body, 0, plain);
  }

  // ---- what becomes of a file that was changed --------------------------------------------------------------

  // Cut off anywhere.
  lemma TruncationFails(a: Aead, salt: seq<byte>, plain: seq<byte>, k: nat)
    requires Count(plain) <= MOST && k < |Chunks(a, salt, plain, 0)|
    requires Unforged(a, salt, Chunks(a, salt, plain, 0)[..k], 0, Sealings(a, salt, plain, 0))
    ensures Read(a, salt, Chunks(a, salt, plain, 0)[..k], 0) == None
  {
    hide Read, Chunks, Unforged, Sealings;
    OnlyTheFile(a, salt, plain, salt, Chunks(a, salt, plain, 0)[..k]);
  }

  // Gone on with.
  lemma ExtensionFails(a: Aead, salt: seq<byte>, plain: seq<byte>, more: seq<byte>)
    requires Count(plain) <= MOST && more != []
    requires Unforged(a, salt, Chunks(a, salt, plain, 0) + more, 0, Sealings(a, salt, plain, 0))
    ensures Read(a, salt, Chunks(a, salt, plain, 0) + more, 0) == None
  {
    hide Read, Chunks, Unforged, Sealings;
    OnlyTheFile(a, salt, plain, salt, Chunks(a, salt, plain, 0) + more);
  }

  // The sealed chunks, in order.
  function Pieces(a: Aead, salt: seq<byte>, plain: seq<byte>, counter: nat): (ps: seq<seq<byte>>)
    ensures ps != []
    decreases |plain|
  {
    if |plain| <= CHUNK then [a.seal(salt, Nonce(counter, true), plain)]
    else [a.seal(salt, Nonce(counter, false), plain[..CHUNK])] + Pieces(a, salt, plain[CHUNK..], counter + 1)
  }

  function Join(ps: seq<seq<byte>>): seq<byte> {
    if ps == [] then [] else ps[0] + Join(ps[1..])
  }

  lemma {:induction false} PiecesJoin(a: Aead, salt: seq<byte>, plain: seq<byte>, counter: nat)
    ensures Join(Pieces(a, salt, plain, counter)) == Chunks(a, salt, plain, counter)
    decreases |plain|
  {
    hide Nonce;
    var ps := Pieces(a, salt, plain, counter);
    if |plain| > CHUNK {
      PiecesJoin(a, salt, plain[CHUNK..], counter + 1);
      assert ps[1..] == Pieces(a, salt, plain[CHUNK..], counter + 1);
    } else {
      assert ps[1..] == [] && ps[0] + [] == ps[0];
    }
  }

  // The file: the salt, and then for every 64 KiB of plaintext, and what is left of it, one sealed chunk, under the
  // number it has and with only the last of them flagged; of nothing, one chunk.
  lemma FileIs(a: Aead, salt: seq<byte>, plain: seq<byte>, k: nat)
    requires var n := if plain == [] then 1 else (|plain| + 65535) / 65536; k < n
    ensures var n := if plain == [] then 1 else (|plain| + 65535) / 65536;
      var ps := Pieces(a, salt, plain, 0);
      && |ps| == n && Encrypt(a, salt, plain) == salt + Join(ps)
      && 65536 * k <= |plain|
      && ps[k] == a.seal(salt, Nonce(k, k == n - 1), plain[65536 * k..if k == n - 1 then |plain| else 65536 * (k + 1)])
  {
    hide Pieces, Chunks, Join, Nonce;
    PiecesJoin(a, salt, plain, 0);
    PieceAt(a, salt, plain, 0, k);
  }

  lemma {:induction false} PieceAt(a: Aead, salt: seq<byte>, plain: seq<byte>, counter: nat, k: nat)
    requires var n := if plain == [] then 1 else (|plain| + 65535) / 65536; k < n
    ensures var n := if plain == [] then 1 else (|plain| + 65535) / 65536;
      var ps := Pieces(a, salt, plain, counter);
      && |ps| == n && 65536 * k <= |plain| && (k < n - 1 ==> 65536 * (k + 1) <= |plain|)
      && ps[k] == a.seal(salt, Nonce(counter + k, k == n - 1), plain[65536 * k..if k == n - 1 then |plain| else 65536 * (k + 1)])
    decreases |plain|
  {
    hide Nonce, Pieces;
    FirstPiece(a, salt, plain, counter);
    if |plain| > 65536 {
      var rest := plain[65536..];
      assert (|rest| + 65535) / 65536 == (|plain| + 65535) / 65536 - 1;
      PieceAt(a, salt, rest, counter + 1, if k == 0 then 0 else k - 1);
      if k > 0 {
        var n := (|plain| + 65535) / 65536;
        var to := if k == n - 1 then |plain| else 65536 * (k + 1);
        assert rest[65536 * (k - 1)..to - 65536] == plain[65536 * k..to];
      }
    } else {
      assert plain[0..|plain|] == plain;
    }
  }

  lemma FirstPiece(a: Aead, salt: seq<byte>, plain: seq<byte>, counter: nat)
    ensures Pieces(a, salt, plain, counter) ==
      if |plain| <= 65536 then [a.seal(salt, Nonce(counter, true), plain)]
      else [a.seal(salt, Nonce(counter, false), plain[0..65536])] + Pieces(a, salt, plain[65536..], counter + 1)
  {
    hide Nonce;
    assert |plain| > 65536 ==> plain[0..65536] == plain[..CHUNK];
  }

  // Every piece has its tag, and all but the last are full.
  predicate FullButLast(ps: seq<seq<byte>>) {
    forall i :: 0 <= i < |ps| ==> |ps[i]| >= TAG && (i < |ps| - 1 ==> |ps[i]| == CHUNK + TAG)
  }

  lemma {:induction false} PieceSizes(a: Aead, salt: seq<byte>, plain: seq<byte>, counter: nat)
    requires Sized(a)
    ensures FullButLast(Pieces(a, salt, plain, counter))
    decreases |plain|
  {
    hide Nonce;
    if |plain| > CHUNK {
      PieceSizes(a, salt, plain[CHUNK..], counter + 1);
      OneMoreFull(a.seal(salt, Nonce(counter, false), plain[..CHUNK]), Pieces(a, salt, plain[CHUNK..], counter + 1));
    }
  }

  lemma OneMoreFull(first: seq<byte>, rest: seq<seq<byte>>)
    requires |first| == CHUNK + TAG && FullButLast(rest)
    ensures FullButLast([first] + rest)
  {
  }

  lemma {:induction false} JoinBoth(x: seq<seq<byte>>, y: seq<seq<byte>>)
    ensures Join(x + y) == Join(x) + Join(y)
    decreases |x|
  {
    if x == [] {
      assert x + y == y && [] + Join(y) == Join(y);
    } else {
      assert (x + y)[1..] == x[1..] + y;
      JoinBoth(x[1..], y);
      assert x[0] + (Join(x[1..]) + Join(y)) == x[0] + Join(x[1..]) + Join(y);
    }
  }

  lemma JoinAround(x: seq<seq<byte>>, c: seq<byte>, y: seq<seq<byte>>)
    ensures Join(x + [c] + y) == Join(x) + c + Join(y)
  {
    JoinBoth(x + [c], y);
    JoinBoth(x, [c]);
    assert [c][1..] == [] && c + [] == c;
  }

  // Made of its chunks in any other way, some left out, repeated or exchanged: unless it comes out the same,
  // it is refused.
  lemma RearrangementFails(a: Aead, salt: seq<byte>, plain: seq<byte>, order: seq<nat>)
    requires Count(plain) <= MOST
    requires var ps := Pieces(a, salt, plain, 0); forall k :: 0 <= k < |order| ==> order[k] < |ps|
    requires Unforged(a, salt, Join(Picked(Pieces(a, salt, plain, 0), order)), 0, Sealings(a, salt, plain, 0))
    ensures var body := Join(Picked(Pieces(a, salt, plain, 0), order));
      body != Chunks(a, salt, plain, 0) ==> Read(a, salt, body, 0) == None
  {
    hide Read, Chunks, Unforged, Sealings;
    OnlyTheFile(a, salt, plain, salt, Join(Picked(Pieces(a, salt, plain, 0), order)));
  }

  function Picked(ps: seq<seq<byte>>, order: seq<nat>): seq<seq<byte>>
    requires forall k :: 0 <= k < |order| ==> order[k] < |ps|
  {
    if order == [] then [] else [ps[order[0]]] + Picked(ps, order[1..])
  }

  function Without(ps: seq<seq<byte>>, i: nat): seq<seq<byte>>
    requires i < |ps|
  {
    ps[..i] + ps[i + 1..]
  }

  // A chunk left out.
  lemma DroppedChunkFails(a: Aead, salt: seq<byte>, plain: seq<byte>, i: nat)
    requires Sized(a) && Count(plain) <= MOST && i < |Pieces(a, salt, plain, 0)|
    requires Unforged(a, salt, Join(Without(Pieces(a, salt, plain, 0), i)), 0, Sealings(a, salt, plain, 0))
    ensures Read(a, salt, Join(Without(Pieces(a, salt, plain, 0), i)), 0) == None
  {
    hide Read, Chunks, Unforged, Sealings, Pieces, Join;
    var ps := Pieces(a, salt, plain, 0);
    PiecesJoin(a, salt, plain, 0);
    PieceSizes(a, salt, plain, 0);
    assert ps == ps[..i] + [ps[i]] + ps[i + 1..];
    JoinAround(ps[..i], ps[i], ps[i + 1..]);
    JoinBoth(ps[..i], ps[i + 1..]);
    OnlyTheFile(a, salt, plain, salt, Join(Without(ps, i)));
  }

  // A chunk put in once more, anywhere.
  lemma RepeatedChunkFails(a: Aead, salt: seq<byte>, plain: seq<byte>, i: nat, at: nat)
    requires Sized(a) && Count(plain) <= MOST && i < |Pieces(a, salt, plain, 0)| && at <= |Pieces(a, salt, plain, 0)|
    requires var ps := Pieces(a, salt, plain, 0); Unforged(a, salt, Join(ps[..at] + [ps[i]] + ps[at..]), 0, Sealings(a, salt, plain, 0))
    ensures var ps := Pieces(a, salt, plain, 0); Read(a, salt, Join(ps[..at] + [ps[i]] + ps[at..]), 0) == None
  {
    hide Read, Chunks, Unforged, Sealings, Pieces, Join;
    var ps := Pieces(a, salt, plain, 0);
    PiecesJoin(a, salt, plain, 0);
    PieceSizes(a, salt, plain, 0);
    assert ps == ps[..at] + ps[at..];
    JoinAround(ps[..at], ps[i], ps[at..]);
    JoinBoth(ps[..at], ps[at..]);
    OnlyTheFile(a, salt, plain, salt, Join(ps[..at] + [ps[i]] + ps[at..]));
  }

  // Two chunks of one length exchanged, as all but the last are, if they are not the same.
  lemma ExchangedChunksFail(a: Aead, salt: seq<byte>, plain: seq<byte>, i: nat, j: nat)
    requires Count(plain) <= MOST && i < j < |Pieces(a, salt, plain, 0)|
    requires var ps := Pieces(a, salt, plain, 0); ps[i] != ps[j] && |ps[i]| == |ps[j]|
    requires var ps := Pieces(a, salt, plain, 0); Unforged(a, salt, Join(ps[i := ps[j]][j := ps[i]]), 0, Sealings(a, salt, plain, 0))
    ensures var ps := Pieces(a, salt, plain, 0); Read(a, salt, Join(ps[i := ps[j]][j := ps[i]]), 0) == None
  {
    hide Read, Chunks, Unforged, Sealings, Pieces, Join;
    var ps := Pieces(a, salt, plain, 0);
    var qs := ps[i := ps[j]][j := ps[i]];
    PiecesJoin(a, salt, plain, 0);
    assert ps == ps[..i] + [ps[i]] + ps[i + 1..];
    assert qs == ps[..i] + [ps[j]] + qs[i + 1..];
    JoinAround(ps[..i], ps[i], ps[i + 1..]);
    JoinAround(ps[..i], ps[j], qs[i + 1..]);
    var x := Join(ps[..i]);
    assert Join(ps)[|x|..|x| + |ps[i]|] == ps[i] && Join(qs)[|x|..|x| + |ps[i]|] == ps[j];
    OnlyTheFile(a, salt, plain, salt, Join(qs));
  }

  // ---- that all of this can be ------------------------------------------------------------------------------

  const NO_TAG: seq<byte> := [0, 0, 0, 0, 0, 0, 0, 0, 0, 0, 0, 0, 0, 0, 0, 0]

  function Tagged(p: seq<byte>): seq<byte> { p + NO_TAG }

  function Opened(c: seq<byte>): Option<seq<byte>> {
    if |c| >= TAG && c[|c| - TAG..] == NO_TAG then Some(c[..|c| - TAG]) else None
  }

  // One that opens whatever has the tag, and one that opens nothing but what is on a list.
  function Trusting(): Aead {
    Aead((s, n, p) => Tagged(p), (s, n, c) => Opened(c))
  }

  function Listing(sealed: set<Sealing>): Aead {
    Aead((s, n, p) => Tagged(p), (s, n, c) => if Sealing(s, n, c) in sealed then Opened(c) else None)
  }

  lemma OpensTagged(p: seq<byte>)
    ensures |Tagged(p)| == |p| + TAG && Opened(Tagged(p)) == Some(p)
  {
    assert Tagged(p)[|p|..] == NO_TAG && Tagged(p)[..|p|] == p;
  }

  // There is an AEAD as Ideal asks.
  lemma IdealCanBe()
    ensures Ideal(Trusting())
  {
    hide Opened;
    var a := Trusting();
    forall s: seq<byte>, n: seq<byte>, c: seq<byte>, p: seq<byte>
      ensures a.open(s, n, c) == Some(p) <==> c == a.seal(s, n, p)
    {
      OpensTagged(p);
      TaggedOpens(c);
    }
  }

  lemma TaggedOpens(c: seq<byte>)
    ensures Opened(c).Some? ==> c == Tagged(Opened(c).value)
  {
    if Opened(c).Some? {
      assert c == c[..|c| - TAG] + c[|c| - TAG..];
    }
  }

  lemma {:induction false} SameSealings(a: Aead, b: Aead, salt: seq<byte>, plain: seq<byte>, counter: nat)
    requires forall s, n, p :: a.seal(s, n, p) == b.seal(s, n, p)
    ensures Sealings(a, salt, plain, counter) == Sealings(b, salt, plain, counter)
    decreases |plain|
  {
    hide Nonce;
    if |plain| > CHUNK {
      SameSealings(a, b, salt, plain[CHUNK..], counter + 1);
    }
  }

  // For every file there is an AEAD that cannot be made to open a forgery, whatever is tried, and that reads
  // the file itself: the theorems above speak of something.
  lemma UnforgeableCanBe(salt: seq<byte>, plain: seq<byte>)
    ensures var a := Listing(Sealings(Trusting(), salt, plain, 0));
      && Sized(a) && Unforgeable(a, Sealings(a, salt, plain, 0))
      && Read(a, salt, Chunks(a, salt, plain, 0), 0) == Some(plain)
  {
    hide Opened, Read, Chunks, Sealings;
    var sealed := Sealings(Trusting(), salt, plain, 0);
    var a := Listing(sealed);
    SameSealings(a, Trusting(), salt, plain, 0);
    forall p
      ensures |Tagged(p)| == |p| + TAG
    {
      OpensTagged(p);
    }
    ListedReads(sealed, salt, plain, 0);
  }

  lemma {:induction false} ListedReads(sealed: set<Sealing>, salt: seq<byte>, plain: seq<byte>, counter: nat)
    requires Sealings(Listing(sealed), salt, plain, counter) <= sealed && (counter > 0 ==> plain != [])
    ensures Read(Listing(sealed), salt, Chunks(Listing(sealed), salt, plain, counter), counter) == Some(plain)
    decreases |plain|
  {
    hide Nonce, Opened, Tagged, Read;
    var a := Listing(sealed);
    if |plain| <= CHUNK {
      OpensTagged(plain);
      ReadLast(a, salt, Tagged(plain), counter);
    } else {
      var first, rest := plain[..CHUNK], plain[CHUNK..];
      OpensTagged(first);
      ListedReads(sealed, salt, rest, counter + 1);
      var r := Chunks(a, salt, rest, counter + 1);
      NotEmpty(sealed, salt, rest, counter + 1);
      ReadOn(a, salt, Tagged(first), r, counter);
      assert plain == first + rest;
    }
  }

  lemma ReadLast(a: Aead, salt: seq<byte>, c: seq<byte>, counter: nat)
    requires TAG <= |c| <= CHUNK + TAG && (counter > 0 ==> |c| > TAG)
    ensures Read(a, salt, c, counter) == a.open(salt, Nonce(counter, true), c)
  {
    hide Nonce;
    assert c[..|c|] == c;
  }

  lemma NotEmpty(sealed: set<Sealing>, salt: seq<byte>, plain: seq<byte>, counter: nat)
    ensures Chunks(Listing(sealed), salt, plain, counter) != []
  {
    hide Nonce;
    OpensTagged(plain);
    if |plain| > CHUNK { OpensTagged(plain[..CHUNK]); }
  }
}
