// The payload of an age file (esp32-embedder/worker/age.c:246-284): the STREAM construction of the Payload
// section of the C2SP age v1 specification, over an ideal AEAD. Decryption accepts exactly what encryption
// emits.
module AgeStream {
  import opened Bytes

  const CHUNK: nat := 65536
  const TAG: nat := 16
  const SALT: nat := 16

  datatype Error = NoError | BadHeader | BadPayload | NoMemory

  // Sealing and opening under the payload key that the file key and the salt give; the nonce is twelve
  // bytes.
  datatype Aead = Aead(seal: (seq<byte>, seq<byte>, seq<byte>) -> seq<byte>,
                       open: (seq<byte>, seq<byte>, seq<byte>) -> Option<seq<byte>>)

  // A sealed text is its plaintext's length and a tag's.
  ghost predicate Sized(a: Aead) {
    forall s, n, p :: |a.seal(s, n, p)| == |p| + TAG
  }

  // Opening undoes sealing and accepts nothing else.
  ghost predicate Ideal(a: Aead) {
    Sized(a) && forall s, n, c, p :: a.open(s, n, c) == Some(p) <==> c == a.seal(s, n, p)
  }

  // ---- the specification -------------------------------------------------------------------------------

  // Eleven bytes of counter, big-endian, of which the code sets the low eight, and one that says whether the
  // chunk is the last.
  function BigEndian(counter: nat, bytes: nat): (b: seq<byte>)
    ensures |b| == bytes
  {
    if bytes == 0 then [] else BigEndian(counter / 256, bytes - 1) + [counter % 256]
  }

  function Nonce(counter: nat, last: bool): (n: seq<byte>)
    ensures |n| == 12
  {
    [0, 0, 0] + BigEndian(counter, 8) + [if last then 1 else 0]
  }

  // Chunks of 64 KiB, the last of what is left, and only the last flagged.
  function Chunks(a: Aead, salt: seq<byte>, plain: seq<byte>, counter: nat): seq<byte>
    decreases |plain|
  {
    if |plain| <= CHUNK then a.seal(salt, Nonce(counter, true), plain)
    else a.seal(salt, Nonce(counter, false), plain[..CHUNK]) + Chunks(a, salt, plain[CHUNK..], counter + 1)
  }

  function Encrypt(a: Aead, salt: seq<byte>, plain: seq<byte>): seq<byte> {
    salt + Chunks(a, salt, plain, 0)
  }

  // ---- what the decryptor reads ----------------------------------------------------------------------------

  function ChunkLength(left: nat): nat {
    if left > CHUNK + TAG then CHUNK + TAG else left
  }

  function Read(a: Aead, salt: seq<byte>, body: seq<byte>, counter: nat): Option<seq<byte>>
    decreases |body|
  {
    var n := ChunkLength(|body|);
    if n < TAG || (n == TAG && counter > 0) then None
    else
      var chunk := a.open(salt, Nonce(counter, n == |body|), body[..n]);
      if chunk.None? then None
      else if n == |body| then chunk
      else
        var rest := Read(a, salt, body[n..], counter + 1);
        if rest.None? then None else Some(chunk.value + rest.value)
  }

  // Reading gives exactly the plaintext whose chunks these are; past the first chunk it is never empty.
  lemma {:induction false} ReadsExactly(a: Aead, salt: seq<byte>, body: seq<byte>, counter: nat, plain: seq<byte>)
    requires Ideal(a)
    ensures Read(a, salt, body, counter) == Some(plain) <==> body == Chunks(a, salt, plain, counter) && (counter > 0 ==> plain != [])
    decreases |body|, 1
  {
    hide Nonce;
    ChunksLonger(a, salt, plain, counter);
    if |body| > CHUNK + TAG {
      if Read(a, salt, body, counter) == Some(plain) {
        var c := body[..CHUNK + TAG];
        var chunk := a.open(salt, Nonce(counter, false), c);
        assert c == a.seal(salt, Nonce(counter, false), chunk.value);
        RestNotEmpty(a, salt, body[CHUNK + TAG..], counter + 1);
        assert plain[..CHUNK] == chunk.value;
        ReadsExactly(a, salt, body[CHUNK + TAG..], counter + 1, plain[CHUNK..]);
        assert body == c + body[CHUNK + TAG..];
      }
      if body == Chunks(a, salt, plain, counter) {
        ReadsChunks(a, salt, body, counter, plain);
      }
    }
  }

  lemma ReadsChunks(a: Aead, salt: seq<byte>, body: seq<byte>, counter: nat, plain: seq<byte>)
    requires Ideal(a) && |body| > CHUNK + TAG && body == Chunks(a, salt, plain, counter)
    ensures Read(a, salt, body, counter) == Some(plain)
    decreases |body|, 0
  {
    hide Nonce, Read;
    assert |plain| > CHUNK;
    var first, rest := plain[..CHUNK], plain[CHUNK..];
    var c, r := a.seal(salt, Nonce(counter, false), first), Chunks(a, salt, rest, counter + 1);
    ChunksLonger(a, salt, rest, counter + 1);
    ReadsExactly(a, salt, r, counter + 1, rest);
    assert body == c + r;
    assert a.open(salt, Nonce(counter, false), c) == Some(first);
    ReadOn(a, salt, c, r, counter);
    assert plain == first + rest;
  }

  lemma ReadOn(a: Aead, salt: seq<byte>, c: seq<byte>, r: seq<byte>, counter: nat)
    requires |c| == CHUNK + TAG && r != []
    ensures Read(a, salt, c + r, counter) ==
      var chunk, rest := a.open(salt, Nonce(counter, false), c), Read(a, salt, r, counter + 1);
      if chunk.None? || rest.None? then None else Some(chunk.value + rest.value)
  {
    hide Nonce;
    Parts(c, r);
  }

  lemma Parts(c: seq<byte>, r: seq<byte>)
    ensures (c + r)[..|c|] == c && (c + r)[|c|..] == r
  {
  }

  lemma RestNotEmpty(a: Aead, salt: seq<byte>, body: seq<byte>, counter: nat)
    requires Ideal(a) && counter > 0 && Read(a, salt, body, counter).Some?
    ensures Read(a, salt, body, counter).value != []
  {
    hide Nonce;
    var n := ChunkLength(|body|);
    var chunk := a.open(salt, Nonce(counter, n == |body|), body[..n]);
    assert body[..n] == a.seal(salt, Nonce(counter, n == |body|), chunk.value);
  }

  lemma {:induction false} ChunksLonger(a: Aead, salt: seq<byte>, plain: seq<byte>, counter: nat)
    requires Ideal(a)
    ensures |Chunks(a, salt, plain, counter)| >= |plain| + TAG
    ensures |plain| > CHUNK ==> |Chunks(a, salt, plain, counter)| > CHUNK + TAG
    decreases |plain|
  {
    hide Nonce;
    if |plain| > CHUNK {
      ChunksLonger(a, salt, plain[CHUNK..], counter + 1);
    }
  }

  // A file is accepted, as some plaintext, if and only if it is the encryption of that plaintext under the
  // salt it begins with.
  lemma AcceptsExactlyEncryptions(a: Aead, file: seq<byte>, plain: seq<byte>)
    requires Ideal(a) && |file| >= SALT
    ensures Read(a, file[..SALT], file[SALT..], 0) == Some(plain) <==> file == Encrypt(a, file[..SALT], plain)
  {
    hide Read, Chunks;
    ReadsExactly(a, file[..SALT], file[SALT..], 0, plain);
    assert file == file[..SALT] + file[SALT..];
    Parts(file[..SALT], Chunks(a, file[..SALT], plain, 0));
  }

  // payload, with what the allocator gives it for a buffer. Of an error nothing that was opened is left there.
  method Payload(a: Aead, file: seq<byte>, memory: bool, pt: array<byte>) returns (err: Error, plain: seq<byte>)
    requires Ideal(a) && pt.Length == if |file| >= SALT then |file| - SALT + 1 else 0
    modifies pt
    ensures err == BadHeader <==> |file| < SALT
    ensures err == NoError ==> file == Encrypt(a, file[..SALT], plain)
    ensures err == BadPayload ==> forall p :: file != Encrypt(a, file[..SALT], p)
    ensures err == NoMemory ==> !memory
    ensures err != NoError ==> plain == []
    ensures err != NoError ==> forall i :: 0 <= i < pt.Length ==> pt[i] == 0 || pt[i] == old(pt[i])
    ensures err == NoError ==> |plain| < pt.Length && pt[..|plain|] == plain && pt[|plain|] == 0
  {
    hide Nonce, Chunks, Read;
    if |file| < SALT { return BadHeader, []; }
    var salt, body := file[..SALT], file[SALT..];
    var len := |body|;
    forall p
      ensures Read(a, salt, body, 0) == Some(p) <==> file == Encrypt(a, salt, p)
    {
      AcceptsExactlyEncryptions(a, file, p);
    }
    if len < TAG {
      TooShort(a, salt, body, 0);
      return BadPayload, [];
    }
    if !memory { return NoMemory, []; }
    var ok, o := Decrypt(a, salt, body, pt);
    if !ok {
      Wipe(pt, o);
      return BadPayload, [];
    }
    pt[o] := 0;
    return NoError, pt[..o];
  }

  lemma TooShort(a: Aead, salt: seq<byte>, body: seq<byte>, counter: nat)
    requires |body| < TAG
    ensures Read(a, salt, body, counter) == None
  {
  }

  // mbedtls_platform_zeroize
  method Wipe(pt: array<byte>, n: nat)
    requires n <= pt.Length
    modifies pt
    ensures forall i :: 0 <= i < pt.Length ==> pt[i] == if i < n then 0 else old(pt[i])
  {
    var i := 0;
    while i < n
      invariant 0 <= i <= n && forall k :: 0 <= k < pt.Length ==> pt[k] == if k < i then 0 else old(pt[k])
    {
      pt[i] := 0;
      i := i + 1;
    }
  }

  // The loop over the chunks, each opened into the buffer after the last.
  method Decrypt(a: Aead, salt: seq<byte>, body: seq<byte>, pt: array<byte>) returns (ok: bool, o: nat)
    requires Ideal(a) && TAG <= |body| < pt.Length
    modifies pt
    ensures o <= |body|
    ensures ok ==> Read(a, salt, body, 0) == Some(pt[..o])
    ensures !ok ==> Read(a, salt, body, 0) == None
    ensures forall i :: o <= i < pt.Length ==> pt[i] == old(pt[i])
  {
    hide Nonce, Read;
    ok, o := true, 0;
    var pos, counter := 0, 0;
    assert body[0..] == body;
    NothingYet(Read(a, salt, body, 0));
    while pos < |body|
      invariant 0 <= pos <= |body| && o <= pos && forall i :: o <= i < pt.Length ==> pt[i] == old(pt[i])
      invariant pos < |body| ==> Read(a, salt, body, 0) == After(pt[..o], Read(a, salt, body[pos..], counter))
      invariant pos == |body| ==> Read(a, salt, body, 0) == Some(pt[..o])
    {
      var n := if |body| - pos > CHUNK + TAG then CHUNK + TAG else |body| - pos;
      var last := pos + n == |body|;
      ReadNext(a, salt, body, pos, n, counter);
      if n < TAG || (n == TAG && counter > 0) { return false, o; }
      var chunk := a.open(salt, Nonce(counter, last), body[pos..pos + n]);
      if chunk.None? { return false, o; }
      assert |chunk.value| == n - TAG by {
        assert body[pos..pos + n] == a.seal(salt, Nonce(counter, last), chunk.value);
      }
      ghost var was := pt[..o];
      Put(pt, o, chunk.value);
      AfterAfter(was, chunk.value, if last then Some([]) else Read(a, salt, body[pos + n..], counter + 1));
      o := o + |chunk.value|;
      pos := pos + n;
      counter := counter + 1;
    }
  }

  function After(done: seq<byte>, rest: Option<seq<byte>>): Option<seq<byte>> {
    if rest.None? then None else Some(done + rest.value)
  }

  lemma NothingYet(r: Option<seq<byte>>)
    ensures After([], r) == r
  {
    if r.Some? { assert [] + r.value == r.value; }
  }

  lemma AfterAfter(a: seq<byte>, b: seq<byte>, r: Option<seq<byte>>)
    ensures After(a, After(b, r)) == After(a + b, r)
    ensures r == Some([]) ==> After(a + b, r) == Some(a + b)
  {
    if r.Some? { assert a + (b + r.value) == a + b + r.value; }
    assert a + b + [] == a + b;
  }

  lemma ReadNext(a: Aead, salt: seq<byte>, body: seq<byte>, pos: nat, n: nat, counter: nat)
    requires pos < |body| && n == (if |body| - pos > CHUNK + TAG then CHUNK + TAG else |body| - pos)
    ensures Read(a, salt, body[pos..], counter) ==
      if n < TAG || (n == TAG && counter > 0) then None
      else
        var chunk := a.open(salt, Nonce(counter, pos + n == |body|), body[pos..pos + n]);
        if chunk.None? then None
        else After(chunk.value, if pos + n == |body| then Some([]) else Read(a, salt, body[pos + n..], counter + 1))
  {
    hide Nonce;
    var left := body[pos..];
    assert left[..n] == body[pos..pos + n] && left[n..] == body[pos + n..];
    if n >= TAG {
      var chunk := a.open(salt, Nonce(counter, pos + n == |body|), body[pos..pos + n]);
      if chunk.Some? { assert chunk.value + [] == chunk.value; }
    }
  }

  method Put(pt: array<byte>, o: nat, data: seq<byte>)
    requires o + |data| <= pt.Length
    modifies pt
    ensures pt[..o + |data|] == old(pt[..o]) + data
    ensures forall i :: o + |data| <= i < pt.Length ==> pt[i] == old(pt[i])
  {
    forall i | 0 <= i < |data| {
      pt[o + i] := data[i];
    }
    assert pt[..o + |data|] == old(pt[..o]) + data;
  }
}
