// Raw reads of the weights file through its cluster map (esp32-embedder/firmware/full/main/full.c:64-139):
// fragment by fragment, bounce buffer by bounce buffer, exactly the file's bytes.
module CardFile {
  import opened Bytes

  const SECTOR: nat := 512
  const BOUNCE: nat := 16384
  const TRIES: nat := 5

  // frag_off and frag_lba: where in the file each fragment starts, with the end of the last, and where on
  // the card.
  datatype Map = Map(offs: seq<nat>, lbas: seq<nat>)

  predicate Sound(m: Map) {
    && |m.offs| == |m.lbas| + 1 && m.offs[0] == 0
    && (forall f :: 0 <= f < |m.lbas| ==> m.offs[f] < m.offs[f + 1])
    && (forall f :: 0 <= f < |m.offs| ==> m.offs[f] % SECTOR == 0)
  }

  function Size(m: Map): nat
    requires Sound(m)
  {
    m.offs[|m.lbas|]
  }

  // The fragment a file offset is in.
  function FragOf(m: Map, off: nat): (f: nat)
    requires Sound(m) && off < Size(m)
    ensures f < |m.lbas| && m.offs[f] <= off < m.offs[f + 1]
  {
    FragFrom(m, off, 0)
  }

  function FragFrom(m: Map, off: nat, f: nat): (r: nat)
    requires Sound(m) && off < Size(m) && f < |m.lbas| && m.offs[f] <= off
    ensures f <= r < |m.lbas| && m.offs[r] <= off < m.offs[r + 1]
    decreases |m.lbas| - f
  {
    if off < m.offs[f + 1] then f else FragFrom(m, off, f + 1)
  }

  // The card, byte by byte; sector lba is its bytes from lba * 512.
  type Card = nat -> byte

  function FileByte(m: Map, card: Card, off: nat): byte
    requires Sound(m) && off < Size(m)
  {
    var f := FragOf(m, off);
    card(m.lbas[f] * SECTOR + off - m.offs[f])
  }

  function FileBytes(m: Map, card: Card, off: nat, len: nat): (bytes: seq<byte>)
    requires Sound(m) && off + len <= Size(m)
    ensures |bytes| == len && forall i :: 0 <= i < len ==> bytes[i] == FileByte(m, card, off + i)
  {
    if len == 0 then [] else FileBytes(m, card, off, len - 1) + [FileByte(m, card, off + len - 1)]
  }

  lemma BounceOn(off: nat)
    ensures off % SECTOR == 0 ==> (off + BOUNCE) % SECTOR == 0
  {
  }

  // How much of a read fits one bounce buffer and one fragment.
  function ChunkLen(m: Map, off: nat, len: nat): (n: nat)
    requires Sound(m) && off + len <= Size(m) && len > 0
    ensures 0 < n <= len && n <= BOUNCE
    ensures off % SECTOR == 0 && n < len ==> (off + n) % SECTOR == 0
  {
    var f := FragOf(m, off);
    assert m.offs[f + 1] % SECTOR == 0;
    var n := if len < BOUNCE then len else BOUNCE;
    BounceOn(off);
    if n > m.offs[f + 1] - off then m.offs[f + 1] - off else n
  }

  lemma {:induction false} Ordered(m: Map, f: nat, g: nat)
    requires Sound(m) && f <= g < |m.offs|
    ensures m.offs[f] <= m.offs[g]
    decreases g
  {
    if f < g {
      Ordered(m, f, g - 1);
    }
  }

  lemma OneFragment(m: Map, off: nat, f: nat)
    requires Sound(m) && off < Size(m) && f < |m.lbas| && m.offs[f] <= off < m.offs[f + 1]
    ensures FragOf(m, off) == f
  {
    var g := FragOf(m, off);
    if g < f {
      Ordered(m, g + 1, f);
    } else if f < g {
      Ordered(m, f + 1, g);
    }
  }

  // Within one chunk the file's bytes lie together on the card.
  lemma ChunkOnCard(m: Map, card: Card, off: nat, len: nat, i: nat)
    requires Sound(m) && off + len <= Size(m) && len > 0 && i < ChunkLen(m, off, len) && off % SECTOR == 0
    ensures var f := FragOf(m, off);
      FileByte(m, card, off + i) == card((m.lbas[f] + (off - m.offs[f]) / SECTOR) * SECTOR + i)
  {
    hide FragOf;
    var f := FragOf(m, off);
    OneFragment(m, off + i, f);
    WholeSectors(m.lbas[f], off, m.offs[f]);
  }

  lemma WholeSectors(lba: nat, off: nat, start: nat)
    requires start <= off && off % SECTOR == 0 && start % SECTOR == 0
    ensures (lba + (off - start) / SECTOR) * SECTOR == lba * SECTOR + (off - start)
  {
    var a, b := off / SECTOR, start / SECTOR;
    assert off - start == (a - b) * SECTOR;
  }

  lemma BytesSplit(m: Map, card: Card, off: nat, a: nat, b: nat)
    requires Sound(m) && off + a + b <= Size(m)
    ensures FileBytes(m, card, off, a + b) == FileBytes(m, card, off, a) + FileBytes(m, card, off + a, b)
  {
    hide FileBytes, FileByte;
  }

  // ---- CRCs, byte by byte --------------------------------------------------------------------------------

  function Crc(step: (int, byte) -> int, start: int, bytes: seq<byte>): int {
    if bytes == [] then start else step(Crc(step, start, bytes[..|bytes| - 1]), bytes[|bytes| - 1])
  }

  // A CRC can be taken up where it was left off.
  lemma {:induction false} CrcOn(step: (int, byte) -> int, start: int, a: seq<byte>, b: seq<byte>)
    ensures Crc(step, start, a + b) == Crc(step, Crc(step, start, a), b)
    decreases |b|
  {
    if b == [] {
      assert a + b == a;
    } else {
      assert (a + b)[..|a + b| - 1] == a + b[..|b| - 1];
      CrcOn(step, start, a, b[..|b| - 1]);
    }
  }

  // ---- the reads -------------------------------------------------------------------------------------------

  // sd_sectors: tried until it works, and given up only after the last of the five tries it has. The card fails so
  // many times first.
  method SdSectors(card: Card, buf: array<byte>, lba: nat, sectors: nat, failures: nat) returns (ok: bool, tries: nat)
    requires sectors * SECTOR <= buf.Length
    modifies buf
    ensures ok ==> forall i :: 0 <= i < sectors * SECTOR ==> buf[i] == card(lba * SECTOR + i)
    ensures ok <==> failures < 5
    ensures tries == if ok then failures + 1 else 5
  {
    ok, tries := false, 0;
    while !ok && tries < TRIES
      invariant tries <= TRIES && if ok then tries == failures + 1 else tries <= failures
      invariant ok ==> forall i :: 0 <= i < sectors * SECTOR ==> buf[i] == card(lba * SECTOR + i)
    {
      forall i | 0 <= i < sectors * SECTOR {
        buf[i] := card(lba * SECTOR + i);
      }
      ok := tries == failures;
      tries := tries + 1;
    }
  }

  // while (off >= frag_off[f + 1]) f++
  method Walk(m: Map, from: nat, off: nat) returns (f: nat)
    requires Sound(m) && off < Size(m) && from < |m.lbas| && m.offs[from] <= off
    ensures f == FragOf(m, off)
  {
    f := from;
    while off >= m.offs[f + 1]
      invariant f < |m.lbas| && m.offs[f] <= off
      decreases |m.lbas| - f
    {
      if f + 1 == |m.lbas| { assert false; }
      f := f + 1;
    }
    OneFragment(m, off, f);
  }

  // The chunk of the file at off, into the bounce buffer.
  method Fetch(m: Map, card: Card, bounce: array<byte>, f: nat, off: nat, len: nat, failures: nat) returns (fine: bool, n: nat)
    requires Sound(m) && off + len <= Size(m) && len > 0 && f == FragOf(m, off) && off % SECTOR == 0 && bounce.Length == BOUNCE
    modifies bounce
    ensures n == ChunkLen(m, off, len) && 0 < n <= len && n <= BOUNCE
    ensures fine <==> failures < 5
    ensures fine ==> bounce[..n] == FileBytes(m, card, off, n)
  {
    hide FileByte, FragOf;
    n := Chunk(m, f, off, len);
    var tries: nat;
    fine, tries := SdSectors(card, bounce, m.lbas[f] + (off - m.offs[f]) / SECTOR, (n + SECTOR - 1) / SECTOR,
                             failures);
    if fine {
      forall i | 0 <= i < n
        ensures bounce[i] == FileByte(m, card, off + i)
      {
        ChunkOnCard(m, card, off, len, i);
      }
    }
  }

  // The chunk after the first done bytes, and the CRC through it.
  method NextChunk(m: Map, card: Card, bounce: array<byte>, dst: array<byte>, start: nat, length: nat, ghost crc: int,
                   step: (int, byte) -> int, failures: nat -> nat, done: nat, from: nat, before: int)
    returns (fine: bool, n: nat, f: nat, sum: int)
    requires Sound(m) && start + length <= Size(m) && length <= dst.Length && bounce.Length == BOUNCE && bounce != dst
    requires done < length && (start + done) % SECTOR == 0 && from < |m.lbas| && m.offs[from] <= start + done
    requires dst[..done] == FileBytes(m, card, start, done) && before == Crc(step, crc, FileBytes(m, card, start, done))
    modifies bounce, dst
    ensures fine <==> failures(start + done) < 5
    ensures fine ==>
      && 0 < n <= length - done && (done + n < length ==> (start + done + n) % SECTOR == 0)
      && dst[..done + n] == FileBytes(m, card, start, done + n) && dst[length..] == old(dst[length..])
      && sum == Crc(step, crc, FileBytes(m, card, start, done + n)) && f < |m.lbas| && m.offs[f] <= start + done + n
  {
    hide FileByte, FragOf, ChunkLen, Crc;
    var off, len := start + done, length - done;
    f := Walk(m, from, off);
    fine, n := Fetch(m, card, bounce, f, off, len, failures(off));
    sum := before;
    if !fine { return; }
    BytesSplit(m, card, start, done, n);
    CrcOn(step, crc, FileBytes(m, card, start, done), bounce[..n]);
    sum := Crc(step, sum, bounce[..n]);
    Copy(bounce, dst, done, n);
    assert dst[length..] == dst[done + n..][len - n..];
  }

  // sd_read: exactly the file's bytes, and their CRC on top of the one given; or the board stops, if it is asked for
  // what does not start on a sector, or the card fails too often at some place.
  method SdRead(m: Map, card: Card, bounce: array<byte>, dst: array<byte>, start: nat, length: nat, crc: int,
                step: (int, byte) -> int, failures: nat -> nat)
    returns (ok: bool, sum: int)
    requires Sound(m) && start + length <= Size(m) && length <= dst.Length && bounce.Length == BOUNCE && bounce != dst
    modifies bounce, dst
    ensures start % 512 != 0 ==> !ok
    ensures start % 512 == 0 && (forall off :: start <= off < start + length ==> failures(off) < 5) ==> ok
    ensures ok ==> dst[..length] == FileBytes(m, card, start, length) && dst[length..] == old(dst[length..])
    ensures ok ==> sum == Crc(step, crc, FileBytes(m, card, start, length))
  {
    hide FileByte, FragOf, ChunkLen, Crc;
    sum := crc;
    if start % SECTOR != 0 { return false, sum; }
    var done, f := 0, 0;
    FirstFragment(m, start, length);
    NoCrc(step, crc);
    while done < length
      invariant 0 <= done <= length && (done < length ==> (start + done) % SECTOR == 0)
      invariant dst[..done] == FileBytes(m, card, start, done) && dst[length..] == old(dst[length..])
      invariant sum == Crc(step, crc, FileBytes(m, card, start, done))
      invariant done < length ==> 0 <= f < |m.lbas| && m.offs[f] <= start + done
    {
      var fine, n;
      fine, n, f, sum := NextChunk(m, card, bounce, dst, start, length, crc, step, failures, done, f, sum);
      if !fine { return false, sum; }
      done := done + n;
    }
    ok := true;
  }

  lemma NoCrc(step: (int, byte) -> int, crc: int)
    ensures Crc(step, crc, []) == crc
  {
  }

  lemma FirstFragment(m: Map, start: nat, length: nat)
    requires Sound(m) && start + length <= Size(m)
    ensures length > 0 ==> 0 < |m.lbas| && m.offs[0] <= start
  {
  }

  method Chunk(m: Map, f: nat, off: nat, len: nat) returns (n: nat)
    requires Sound(m) && off + len <= Size(m) && len > 0 && f == FragOf(m, off) && off % SECTOR == 0
    ensures n == ChunkLen(m, off, len) && (n + SECTOR - 1) / SECTOR * SECTOR <= BOUNCE
    ensures n <= (n + SECTOR - 1) / SECTOR * SECTOR
  {
    n := if len < BOUNCE then len else BOUNCE;
    if n > m.offs[f + 1] - off { n := m.offs[f + 1] - off; }
  }

  method Copy(from: array<byte>, to: array<byte>, at: nat, n: nat)
    requires from != to && n <= from.Length && at + n <= to.Length
    modifies to
    ensures to[..at + n] == old(to[..at]) + from[..n] && to[at + n..] == old(to[at + n..])
  {
    forall i | 0 <= i < n {
      to[at + i] := from[i];
    }
    assert to[..at + n] == old(to[..at]) + from[..n];
  }
}
