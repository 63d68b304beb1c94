// Base64 (esp32-embedder/worker/kw.c:161-228). Decoding accepts exactly what encoding emits
// (sections 3.5 and 4 of RFC 4648): a text's sextets and its bytes are two numerals for one number.
module Base64 {
  import opened Bytes

  type digit = d: int | 0 <= d < 64

  datatype Mode = Padded | RawStrict

  // B64[]
  function Digit(v: digit): (c: char)
    ensures Value(c) == v
  {
    if v < 26 then 'A' + v as char
    else if v < 52 then 'a' + (v - 26) as char
    else if v < 62 then '0' + (v - 52) as char
    else if v == 62 then '+' else '/'
  }

  // b64_val
  function Value(c: char): (v: int)
    ensures -1 <= v < 64
  {
    if 'A' <= c <= 'Z' then c as int - 'A' as int
    else if 'a' <= c <= 'z' then c as int - 'a' as int + 26
    else if '0' <= c <= '9' then c as int - '0' as int + 52
    else if c == '+' then 62
    else if c == '/' then 63
    else -1
  }

  lemma ValueInjective(c: char)
    requires Value(c) >= 0
    ensures Digit(Value(c)) == c
  {
  }

  // The alphabet of section 4 of RFC 4648, by character codes: A to Z, a to z, 0 to 9, plus and slash.
  lemma Alphabet(v: digit)
    ensures Digit(v) as int ==
      if v < 26 then 65 + v else if v < 52 then 97 + v - 26 else if v < 62 then 48 + v - 52 else if v == 62 then 43 else 47
  {
  }

  // The characters of one, two or three bytes.
  function One(a: byte): string { [Digit(a / 4), Digit(a % 4 * 16)] }

  function Two(a: byte, b: byte): string { [Digit(a / 4), Digit(a % 4 * 16 + b / 16), Digit(b % 16 * 4)] }

  function Three(a: byte, b: byte, c: byte): string {
    [Digit(a / 4), Digit(a % 4 * 16 + b / 16), Digit(b % 16 * 4 + c / 64), Digit(c % 64)]
  }

  function Raw(bytes: seq<byte>): string {
    if |bytes| == 0 then ""
    else if |bytes| == 1 then One(bytes[0])
    else if |bytes| == 2 then Two(bytes[0], bytes[1])
    else Three(bytes[0], bytes[1], bytes[2]) + Raw(bytes[3..])
  }

  function Pads(n: nat): string {
    if n % 3 == 1 then "==" else if n % 3 == 2 then "=" else ""
  }

  function Encode(bytes: seq<byte>): string {
    Raw(bytes) + Pads(|bytes|)
  }

  // Four characters are the digits of the number that three bytes are; of two bytes or one, what is missing counts as
  // nought, and as many "=" make up the four.
  lemma EncodeMeans(a: byte, b: byte, c: byte, rest: seq<byte>)
    ensures var t := Encode([a, b, c] + rest);
      && |t| >= 4 && t[4..] == Encode(rest)
      && ((Value(t[0]) * 64 + Value(t[1])) * 64 + Value(t[2])) * 64 + Value(t[3]) == (a as int * 256 + b as int) * 256 + c as int
    ensures var t := Encode([a, b]);
      && |t| == 4 && t[3] == '='
      && ((Value(t[0]) * 64 + Value(t[1])) * 64 + Value(t[2])) * 64 == (a as int * 256 + b as int) * 256
    ensures var t := Encode([a]);
      && |t| == 4 && t[2] == '=' && t[3] == '='
      && (Value(t[0]) * 64 + Value(t[1])) * 4096 == a as int * 65536
    ensures Encode([]) == ""
  {
    hide Digit, Value;
    var bytes := [a, b, c] + rest;
    assert bytes[3..] == rest;
    assert |bytes| % 3 == |rest| % 3;
    ThreeThenRest(bytes);
    DigitsOf(a, b, c);
    DigitsOf(a, b, 0);
    DigitsOf(a, 0, 0);
  }

  lemma ThreeThenRest(bytes: seq<byte>)
    requires |bytes| >= 3
    ensures Raw(bytes) == Three(bytes[0], bytes[1], bytes[2]) + Raw(bytes[3..]) && |Three(bytes[0], bytes[1], bytes[2])| == 4
    ensures Encode(bytes)[4..] == Raw(bytes[3..]) + Pads(|bytes|)
  {
    hide Digit;
  }

  lemma DigitsOf(a: byte, b: byte, c: byte)
    ensures (((a / 4) * 64 + (a % 4 * 16 + b / 16)) * 64 + (b % 16 * 4 + c / 64)) * 64 + c % 64 == (a as int * 256 + b as int) * 256 + c as int
  {
  }

  // ---- what decoding reads, four characters to three bytes ------------------------------------------------

  datatype Reading = Bad | Good(bytes: seq<byte>)

  predicate AllDigits(text: string) {
    forall i :: 0 <= i < |text| ==> Value(text[i]) >= 0
  }

  // The bytes of a text without padding.
  function Read(text: string): Reading
    decreases |text|
  {
    if text == "" then Good([])
    else if !AllDigits(text) || |text| == 1 then Bad
    else
      var x, y := Value(text[0]), Value(text[1]);
      if |text| == 2 then (if y % 16 == 0 then Good([x * 4 + y / 16]) else Bad)
      else
        var z := Value(text[2]);
        if |text| == 3 then (if z % 4 == 0 then Good([x * 4 + y / 16, y % 16 * 16 + z / 4]) else Bad)
        else
          var rest := Read(text[4..]);
          if rest.Bad? then Bad
          else Good([x * 4 + y / 16, y % 16 * 16 + z / 4, z % 4 * 64 + Value(text[3])] + rest.bytes)
  }

  lemma OneBack(a: byte)
    ensures Read(One(a)) == Good([a])
  {
    hide Digit, Value;
  }

  lemma TwoBack(a: byte, b: byte)
    ensures Read(Two(a, b)) == Good([a, b])
  {
    hide Digit, Value;
  }

  lemma ThreeBack(a: byte, b: byte, c: byte, rest: string)
    requires Read(rest).Good?
    ensures Read(Three(a, b, c) + rest) == Good([a, b, c] + Read(rest).bytes)
  {
    hide Digit, Value, AllDigits, Three, Read;
    ReadDigits(rest);
    ThreeDigits(a, b, c);
    DigitsJoin(Three(a, b, c), rest);
    var t := Three(a, b, c) + rest;
    assert t[4..] == rest;
    ReadFour(t);
  }

  lemma ThreeDigits(a: byte, b: byte, c: byte)
    ensures var t := Three(a, b, c);
      && |t| == 4 && AllDigits(t)
      && Value(t[0]) * 4 + Value(t[1]) / 16 == a && Value(t[1]) % 16 * 16 + Value(t[2]) / 4 == b && Value(t[2]) % 4 * 64 + Value(t[3]) == c
  {
    hide Digit, Value;
  }

  lemma DigitsJoin(a: string, b: string)
    requires AllDigits(a) && AllDigits(b)
    ensures AllDigits(a + b)
  {
    hide Value;
  }

  lemma ReadFour(t: string)
    requires |t| >= 4 && AllDigits(t)
    ensures var x, y, z, rest := Value(t[0]), Value(t[1]), Value(t[2]), Read(t[4..]);
      Read(t) == if rest.Bad? then Bad else Good([x * 4 + y / 16, y % 16 * 16 + z / 4, z % 4 * 64 + Value(t[3])] + rest.bytes)
  {
    hide Value, AllDigits;
  }

  lemma ShortDigits(text: string)
    requires Read(text).Good?
    ensures AllDigits(text) && |text| != 1
    ensures |text| >= 4 ==> Read(text[4..]).Good?
  {
    hide Value, AllDigits;
    if text == "" {
      NoDigits();
    }
  }

  lemma NoDigits()
    ensures AllDigits("")
  {
  }

  lemma ReadNothing()
    ensures Read("") == Good([])
  {
  }

  lemma {:induction false} ReadDigits(text: string)
    requires Read(text).Good?
    ensures AllDigits(text) && |text| % 4 != 1
    decreases |text|
  {
    hide Value, AllDigits, Read;
    ShortDigits(text);
    if |text| >= 4 {
      ReadDigits(text[4..]);
    }
  }

  lemma {:induction false} RawBack(bytes: seq<byte>)
    ensures Read(Raw(bytes)) == Good(bytes)
    decreases |bytes|
  {
    hide Read, One, Two, Three;
    if |bytes| == 0 {
      ReadNothing();
    } else if |bytes| == 1 {
      OneBack(bytes[0]);
    } else if |bytes| == 2 {
      TwoBack(bytes[0], bytes[1]);
    } else {
      RawBack(bytes[3..]);
      ThreeBack(bytes[0], bytes[1], bytes[2], Raw(bytes[3..]));
      assert bytes == [bytes[0], bytes[1], bytes[2]] + bytes[3..];
    }
  }

  lemma OneForth(text: string)
    requires |text| == 2 && Read(text).Good?
    ensures |Read(text).bytes| == 1 && text == One(Read(text).bytes[0])
  {
    hide Digit, Value;
    var x, y := Value(text[0]), Value(text[1]);
    ValueInjective(text[0]);
    ValueInjective(text[1]);
    var a := x * 4 + y / 16;
    assert a / 4 == x && a % 4 * 16 == y;
  }

  lemma TwoForth(text: string)
    requires |text| == 3 && Read(text).Good?
    ensures |Read(text).bytes| == 2 && text == Two(Read(text).bytes[0], Read(text).bytes[1])
  {
    hide Digit, Value;
    var x, y, z := Value(text[0]), Value(text[1]), Value(text[2]);
    ValueInjective(text[0]);
    ValueInjective(text[1]);
    ValueInjective(text[2]);
    var a, b := x * 4 + y / 16, y % 16 * 16 + z / 4;
    assert a / 4 == x && a % 4 * 16 + b / 16 == y && b % 16 * 4 == z;
  }

  lemma ThreeForth(text: string)
    requires |text| >= 4 && Read(text).Good?
    ensures var b := Read(text).bytes;
      && |b| >= 3 && text[..4] == Three(b[0], b[1], b[2]) && Read(text[4..]) == Good(b[3..])
  {
    hide Digit, Value;
    ShortDigits(text);
    ReadFour(text);
    hide Read;
    ValueInjective(text[0]);
    ValueInjective(text[1]);
    ValueInjective(text[2]);
    ValueInjective(text[3]);
    ThreeApart(Value(text[0]), Value(text[1]), Value(text[2]), Value(text[3]));
    assert Read(text).bytes[3..] == Read(text[4..]).bytes;
  }

  lemma ThreeApart(x: nat, y: nat, z: nat, w: nat)
    requires x < 64 && y < 64 && z < 64 && w < 64
    ensures var a, b, c := x * 4 + y / 16, y % 16 * 16 + z / 4, z % 4 * 64 + w;
      a / 4 == x && a % 4 * 16 + b / 16 == y && b % 16 * 4 + c / 64 == z && c % 64 == w
  {
  }

  lemma {:induction false} RawForth(text: string)
    requires Read(text).Good?
    ensures text == Raw(Read(text).bytes)
    decreases |text|
  {
    hide Read, One, Two, Three;
    ReadDigits(text);
    if text == "" {
      ReadNothing();
    } else if |text| == 2 {
      OneForth(text);
    } else if |text| == 3 {
      TwoForth(text);
    } else {
      ThreeForth(text);
      RawForth(text[4..]);
      assert text == text[..4] + text[4..];
    }
  }

  // Without padding, decoding is exactly the inverse of encoding.
  lemma RawExactly(text: string, bytes: seq<byte>)
    ensures Read(text) == Good(bytes) <==> text == Raw(bytes)
  {
    hide Read, Raw;
    RawBack(bytes);
    if Read(text) == Good(bytes) {
      RawForth(text);
    }
  }

  // The padding a padded text ends in, as the decoder strips it: at most two characters.
  function Padding(text: string): (p: nat)
    ensures p <= 2 && p <= |text|
  {
    var n := |text|;
    if n == 0 || text[n - 1] != '=' then 0 else if n == 1 || text[n - 2] != '=' then 1 else 2
  }

  // What b64_decode makes of a text.
  function Decoded(text: string, mode: Mode): Reading {
    if mode == RawStrict then Read(text)
    else if |text| % 4 != 0 then Bad
    else Read(text[..|text| - Padding(text)])
  }

  lemma {:induction false} RawLength(bytes: seq<byte>)
    ensures |Raw(bytes)| == |bytes| / 3 * 4 + (if |bytes| % 3 == 0 then 0 else |bytes| % 3 + 1)
    ensures AllDigits(Raw(bytes))
    decreases |bytes|
  {
    hide Digit, Value;
    if |bytes| >= 3 {
      RawLength(bytes[3..]);
      assert |bytes[3..]| % 3 == |bytes| % 3 && |bytes[3..]| / 3 == |bytes| / 3 - 1;
    }
  }

  lemma NoPadInside(text: string)
    requires AllDigits(text)
    ensures text != "" ==> text[|text| - 1] != '='
  {
    if text != "" {
      assert Value(text[|text| - 1]) >= 0;
    }
  }

  lemma PaddingOfEncoding(bytes: seq<byte>)
    ensures |Encode(bytes)| == EncodedLen(|bytes|) && |Encode(bytes)| % 4 == 0
    ensures var t := Encode(bytes); t[..|t| - Padding(t)] == Raw(bytes)
  {
    hide Raw, AllDigits;
    RawLength(bytes);
    var r, t := Raw(bytes), Encode(bytes);
    NoPadInside(r);
    assert t[..|r|] == r;
  }

  function EncodedLen(n: nat): nat {
    (n + 2) / 3 * 4
  }

  lemma PaddedForth(text: string)
    requires Decoded(text, Padded).Good?
    ensures text == Encode(Decoded(text, Padded).bytes)
  {
    hide Read, Raw;
    var p := Padding(text);
    var r := text[..|text| - p];
    RawForth(r);
    ReadDigits(r);
    var bytes := Read(r).bytes;
    RawLength(bytes);
    PadsFit(|text|, p, |bytes|);
    assert text == r + text[|r|..];
    assert text[|r|..] == Pads(|bytes|);
  }

  lemma PadsFit(n: nat, p: nat, k: nat)
    requires n % 4 == 0 && p <= 2 && p <= n && n - p == k / 3 * 4 + (if k % 3 == 0 then 0 else k % 3 + 1)
    ensures |Pads(k)| == p
  {
    var r := if k % 3 == 0 then 0 else k % 3 + 1;
    assert p == 4 * (n / 4 - k / 3) - r;
  }

  // Decoding succeeds with some bytes if and only if the text is the encoding of those bytes: padded, or
  // not, as the mode says.
  lemma DecodesExactlyEncodings(text: string, mode: Mode, bytes: seq<byte>)
    ensures Decoded(text, mode) == Good(bytes) <==> text == (if mode == Padded then Encode(bytes) else Raw(bytes))
  {
    hide Read, Raw, Padding, Encode;
    if mode == RawStrict {
      RawExactly(text, bytes);
    } else {
      PaddingOfEncoding(bytes);
      RawBack(bytes);
      if Decoded(text, mode) == Good(bytes) {
        PaddedForth(text);
      }
    }
  }

  // ---- the loops -------------------------------------------------------------------------------------------

  lemma Div(v: int, d: int, q: int, r: int)
    requires d > 0 && v == q * d + r && 0 <= r < d
    ensures v / d == q && v % d == r
  {
    var q1, r1 := v / d, v % d;
    assert v == q1 * d + r1;
    assert (q - q1) * d == q * d - q1 * d;
    if q1 < q {
      AtLeast(q - q1, d);
    } else if q < q1 {
      AtLeast(q1 - q, d);
    }
  }

  lemma AtLeast(k: int, d: int)
    requires k >= 1 && d > 0
    ensures k * d >= d
  {
  }

  // The shifts and masks of the encoder, on three bytes as one number.
  lemma Sextets(a: byte, b: byte, c: byte)
    ensures var v := a as int * 0x10000 + b as int * 0x100 + c as int;
      && v / 0x40000 == a / 4 && v / 0x1000 % 64 == a % 4 * 16 + b / 16
      && v / 0x40 % 64 == b % 16 * 4 + c / 64 && v % 64 == c % 64
  {
    var v: int := a as int * 0x10000 + b as int * 0x100 + c as int;
    Div(v, 0x40000, a / 4, a % 4 * 0x10000 + b * 0x100 + c);
    Div(v, 0x1000, a * 16 + b / 16, b % 16 * 0x100 + c);
    Div(a as int * 16 + b / 16, 64, a / 4, a % 4 * 16 + b / 16);
    Div(v, 0x40, a * 0x400 + b * 4 + c / 64, c % 64);
    Div(a as int * 0x400 + b as int * 4 + c / 64, 64, a as int * 16 + b / 16, b % 16 * 4 + c / 64);
  }

  lemma RawFrom(bytes: seq<byte>, i: nat)
    requires i <= |bytes|
    ensures i + 3 <= |bytes| ==> Raw(bytes[i..]) == Three(bytes[i], bytes[i + 1], bytes[i + 2]) + Raw(bytes[i + 3..])
    ensures |bytes| - i == 2 ==> Raw(bytes[i..]) == Two(bytes[i], bytes[i + 1])
    ensures |bytes| - i == 1 ==> Raw(bytes[i..]) == One(bytes[i])
    ensures |bytes| == i ==> Raw(bytes[i..]) == ""
  {
    hide One, Two, Three;
    if i + 3 <= |bytes| {
      assert bytes[i..][3..] == bytes[i + 3..];
    }
  }

  method PutFour(out: array<char>, o: nat, four: string)
    requires |four| == 4 && o + 4 <= out.Length
    modifies out
    ensures out[..o + 4] == old(out[..o]) + four && out[o + 4..] == old(out[o + 4..])
  {
    out[o], out[o + 1], out[o + 2], out[o + 3] := four[0], four[1], four[2], four[3];
  }

  // The four characters of a number, as the encoder takes them out of it.
  function Quad(v: nat): (text: string)
    requires v < 0x1000000
    ensures |text| == 4
  {
    [Digit(v / 0x40000), Digit(v / 0x1000 % 64), Digit(v / 0x40 % 64), Digit(v % 64)]
  }

  lemma QuadIs(a: byte, b: byte, c: byte)
    ensures Quad(a as int * 0x10000 + b as int * 0x100 + c as int) == Three(a, b, c)
  {
    hide Digit;
    Sextets(a, b, c);
  }

  method EncodeQuads(bytes: seq<byte>, out: array<char>) returns (i: nat, o: nat)
    requires EncodedLen(|bytes|) < out.Length
    modifies out
    ensures i <= |bytes| < i + 3 && i == |bytes| / 3 * 3 && o == i / 3 * 4
    ensures Raw(bytes) == out[..o] + Raw(bytes[i..]) && out[o..] == old(out[o..])
  {
    hide Raw, Quad, Three;
    i, o := 0, 0;
    ghost var q := 0;
    while i + 3 <= |bytes|
      invariant 0 <= i == 3 * q <= |bytes| && o == 4 * q
      invariant Raw(bytes) == out[..o] + Raw(bytes[i..])
      invariant out[o..] == old(out[o..])
    {
      QuadIs(bytes[i], bytes[i + 1], bytes[i + 2]);
      RawFrom(bytes, i);
      Later(old(out[..]), out[..], o, o + 4);
      PutFour(out, o, Quad(bytes[i] as int * 0x10000 + bytes[i + 1] as int * 0x100 + bytes[i + 2] as int));
      i, o := i + 3, o + 4;
      q := q + 1;
    }
  }

  // b64_encode: the text and its NUL, and nothing past it.
  method EncodeInto(bytes: seq<byte>, out: array<char>)
    requires EncodedLen(|bytes|) < out.Length
    modifies out
    ensures var m := EncodedLen(|bytes|);
      out[..m] == Encode(bytes) && out[m] == '\0' && out[m + 1..] == old(out[m + 1..])
  {
    hide Raw, Quad, One, Two, Three;
    var i, o := EncodeQuads(bytes, out);
    o := EncodeTail(bytes, out, i, o);
    Later(old(out[..]), out[..], o, o + 1);
    out[o] := '\0';
  }

  // The last one or two bytes, and the padding.
  method EncodeTail(bytes: seq<byte>, out: array<char>, i: nat, at: nat) returns (o: nat)
    requires EncodedLen(|bytes|) < out.Length && i <= |bytes| < i + 3 && i == |bytes| / 3 * 3 && at == i / 3 * 4
    requires Raw(bytes) == out[..at] + Raw(bytes[i..])
    modifies out
    ensures o == EncodedLen(|bytes|) && out[..o] == Encode(bytes) && out[o..] == old(out[o..])
  {
    hide Raw, Quad, One, Two, Three;
    o := at;
    RawFrom(bytes, i);
    if |bytes| - i == 1 {
      QuadOne(bytes[i]);
      Later(old(out[..]), out[..], o, o + 4);
      PutFour(out, o, Quad(bytes[i] as int * 0x10000)[..2] + "==");
      o := o + 4;
    } else if |bytes| - i == 2 {
      QuadTwo(bytes[i], bytes[i + 1]);
      Later(old(out[..]), out[..], o, o + 4);
      PutFour(out, o, Quad(bytes[i] as int * 0x10000 + bytes[i + 1] as int * 0x100)[..3] + "=");
      o := o + 4;
    }
  }

  lemma QuadOne(a: byte)
    ensures Quad(a as int * 0x10000)[..2] == One(a) && |One(a)| == 2
  {
    hide Digit;
    QuadIs(a, 0, 0);
  }

  lemma QuadTwo(a: byte, b: byte)
    ensures Quad(a as int * 0x10000 + b as int * 0x100)[..3] == Two(a, b) && |Two(a, b)| == 3
  {
    hide Digit;
    QuadIs(a, b, 0);
  }

  lemma Later<T>(was: seq<T>, now: seq<T>, i: nat, j: nat)
    requires |was| == |now| && i <= j <= |was| && now[i..] == was[i..]
    ensures now[j..] == was[j..]
  {
    assert now[i..][j - i..] == now[j..] && was[i..][j - i..] == was[j..];
  }

  function Prepend(bytes: seq<byte>, r: Reading): Reading {
    if r.Bad? then Bad else Good(bytes + r.bytes)
  }

  lemma ReadQuad(text: string, q: nat, done: seq<byte>)
    requires 4 * q + 4 <= |text| && AllDigits(text)
    ensures var x, y, z, w := Value(text[4 * q]), Value(text[4 * q + 1]), Value(text[4 * q + 2]), Value(text[4 * q + 3]);
      Prepend(done, Read(text[4 * q..]))
      == Prepend(done + [x * 4 + y / 16, y % 16 * 16 + z / 4, z % 4 * 64 + w], Read(text[4 * q + 4..]))
  {
    hide Value;
    var t := text[4 * q..];
    assert t[4..] == text[4 * q + 4..];
    assert AllDigits(t);
  }

  function Power(bits: nat): nat {
    if bits == 0 then 1 else if bits == 2 then 4 else if bits == 4 then 16 else 64
  }

  // What the decoder holds after 4 q + r characters: bits of the next byte in acc, and what the last,
  // unfinished four have given in out.
  ghost predicate Held(text: string, q: nat, r: nat, out: seq<byte>, o: nat, acc: nat, bits: nat) {
    && r < 4 && 4 * q + r <= |text| && o <= |out| && AllDigits(text[..4 * q + r])
    && (r == 0 ==> o == 3 * q && bits == 0 && acc == 0)
    && (r == 1 ==> o == 3 * q && bits == 6 && acc == Value(text[4 * q]))
    && (r == 2 ==> o == 3 * q + 1 && bits == 4 && acc == Value(text[4 * q + 1]) % 16
                   && out[3 * q] == Value(text[4 * q]) * 4 + Value(text[4 * q + 1]) / 16)
    && (r == 3 ==> o == 3 * q + 2 && bits == 2 && acc == Value(text[4 * q + 2]) % 4
                   && out[3 * q] == Value(text[4 * q]) * 4 + Value(text[4 * q + 1]) / 16
                   && out[3 * q + 1] == Value(text[4 * q + 1]) % 16 * 16 + Value(text[4 * q + 2]) / 4)
  }

  // The whole fours done, and the rest still to read.
  ghost predicate Done(text: string, q: nat, out: seq<byte>) {
    4 * q <= |text| && 3 * q <= |out| &&
    (AllDigits(text) ==> Read(text) == Prepend(out[..3 * q], Read(text[4 * q..])))
  }

  // The six bits join those held: acc << 6 | v, and a byte out if there are eight bits of it.
  method Shift(v: nat, out: array<byte>, o: nat, acc: nat, bits: nat) returns (o': nat, acc': nat, bits': nat)
    requires v < 64 && (bits == 0 || bits == 2 || bits == 4 || bits == 6) && acc < Power(bits)
    requires bits != 0 ==> o < out.Length
    modifies out
    ensures bits == 0 ==> o' == o && acc' == v && bits' == 6 && out[..] == old(out[..])
    ensures bits != 0 ==> (acc * 64 + v < 256 * Power(bits - 2)
      && o' == o + 1 && bits' == bits - 2 && acc' == (acc * 64 + v) % Power(bits - 2)
      && out[..] == old(out[..])[o := (acc * 64 + v) / Power(bits - 2)])
  {
    o', acc', bits' := o, acc * 64 + v, bits + 6;
    if bits' >= 8 {
      bits' := bits' - 8;
      out[o'] := acc' / Power(bits');
      o' := o' + 1;
      acc' := acc' % Power(bits');
    }
  }

  lemma HeldBounds(text: string, q: nat, r: nat, out: seq<byte>, o: nat, acc: nat, bits: nat)
    requires Held(text, q, r, out, o, acc, bits) && 4 * q + r < |text| && |out| * 4 >= |text| * 3
    ensures r < 4 && 3 * q <= o && o == 3 * q + (if r == 0 then 0 else r - 1) && (r != 0 ==> o < |out|)
    ensures bits == (if r == 0 then 0 else 8 - 2 * r) && acc < Power(bits)
    ensures AllDigits(text[..4 * q + r])
  {
    hide Value, AllDigits;
  }

  lemma OneMore(text: string, n: nat)
    requires n < |text| && AllDigits(text[..n]) && Value(text[n]) >= 0
    ensures AllDigits(text[..n + 1])
  {
    hide Value;
  }

  lemma SplitFour(y: nat, acc: nat)
    ensures (acc * 64 + y) / 16 == acc * 4 + y / 16 && (acc * 64 + y) % 16 == y % 16
    ensures (acc * 64 + y) / 4 == acc * 16 + y / 4 && (acc * 64 + y) % 4 == y % 4
  {
  }

  // What one more character makes of what is held.
  lemma HeldNext(text: string, q: nat, r: nat, was: seq<byte>, out: seq<byte>, o: nat, acc: nat, bits: nat, v: nat)
    requires Held(text, q, r, was, o, acc, bits) && r < 3 && 4 * q + r < |text| && v == Value(text[4 * q + r])
    requires AllDigits(text[..4 * q + r + 1])
    requires r == 0 ==> out == was
    requires r != 0 ==> o < |was| && acc * 64 + v < 256 * Power(bits - 2) && out == was[o := (acc * 64 + v) / Power(bits - 2)]
    ensures r == 0 ==> Held(text, q, 1, out, o, v, 6)
    ensures r != 0 ==> Held(text, q, r + 1, out, o + 1, (acc * 64 + v) % Power(bits - 2), bits - 2)
  {
    hide Value, AllDigits;
    SplitFour(v, acc);
  }

  lemma HeldLast(text: string, q: nat, was: seq<byte>, out: seq<byte>, o: nat, acc: nat, bits: nat, v: nat)
    requires Held(text, q, 3, was, o, acc, bits) && 4 * q + 3 < |text| && o < |was| && acc * 64 + v < 256
    requires out == was[o := acc * 64 + v]
    ensures o == 3 * q + 2 && bits == 2 && acc == Value(text[4 * q + 2]) % 4
    ensures out[3 * q] == Value(text[4 * q]) * 4 + Value(text[4 * q + 1]) / 16
    ensures out[3 * q + 1] == Value(text[4 * q + 1]) % 16 * 16 + Value(text[4 * q + 2]) / 4
  {
    hide Value, AllDigits;
  }

  // One more character.
  method Take(text: string, ghost q: nat, ghost r: nat, v: nat, out: array<byte>, o: nat, acc: nat, bits: nat)
    returns (o': nat, acc': nat, bits': nat)
    requires Held(text, q, r, out[..], o, acc, bits) && 4 * q + r < |text| && v == Value(text[4 * q + r])
    requires out.Length * 4 >= |text| * 3
    modifies out
    ensures o <= o' <= out.Length && out[..3 * q] == old(out[..3 * q]) && out[o'..] == old(out[o'..])
    ensures r < 3 ==> Held(text, q, r + 1, out[..], o', acc', bits')
    ensures r == 3 ==>
      && o' == 3 * q + 3 && bits' == 0 && acc' == 0 && AllDigits(text[..4 * q + 4])
      && out[3 * q] == Value(text[4 * q]) * 4 + Value(text[4 * q + 1]) / 16
      && out[3 * q + 1] == Value(text[4 * q + 1]) % 16 * 16 + Value(text[4 * q + 2]) / 4
      && out[3 * q + 2] == Value(text[4 * q + 2]) % 4 * 64 + v
  {
    hide Value, Held, AllDigits;
    ghost var was := out[..];
    HeldBounds(text, q, r, was, o, acc, bits);
    OneMore(text, 4 * q + r);
    o', acc', bits' := Shift(v, out, o, acc, bits);
    if r < 3 {
      HeldNext(text, q, r, was, out[..], o, acc, bits, v);
    } else {
      HeldLast(text, q, was, out[..], o, acc, bits, v);
    }
  }

  lemma QuadDone(text: string, q: nat, was: seq<byte>, out: seq<byte>)
    requires Done(text, q, was) && 4 * q + 4 <= |text| && 3 * q + 3 <= |out| && out[..3 * q] == was[..3 * q]
    requires AllDigits(text[..4 * q + 4])
    requires out[3 * q] == Value(text[4 * q]) * 4 + Value(text[4 * q + 1]) / 16
    requires out[3 * q + 1] == Value(text[4 * q + 1]) % 16 * 16 + Value(text[4 * q + 2]) / 4
    requires out[3 * q + 2] == Value(text[4 * q + 2]) % 4 * 64 + Value(text[4 * q + 3])
    ensures Done(text, q + 1, out)
  {
    hide Value, Read, Prepend;
    if AllDigits(text) {
      ReadQuad(text, q, was[..3 * q]);
      assert out[..3 * q + 3] == was[..3 * q] + [out[3 * q], out[3 * q + 1], out[3 * q + 2]];
    }
  }

  // What is left when the text ends inside a four.
  lemma ReadEnd(text: string, q: nat, r: nat, out: seq<byte>, o: nat, acc: nat, bits: nat)
    requires Held(text, q, r, out, o, acc, bits) && 4 * q + r == |text| && r != 1 && Done(text, q, out)
    ensures Read(text) == if bits != 0 && acc != 0 then Bad else Good(out[..o])
  {
    hide Value, Read;
    var t := text[4 * q..];
    assert text[..4 * q + r] == text;
    if r == 0 {
      ReadNothing();
      assert t == "";
    } else if r == 2 {
      ReadTwo(t);
      assert out[..o] == out[..3 * q] + [out[3 * q]];
    } else {
      ReadThree(t);
      assert out[..o] == out[..3 * q] + [out[3 * q], out[3 * q + 1]];
    }
  }

  lemma ReadTwo(t: string)
    requires |t| == 2 && AllDigits(t)
    ensures var x, y := Value(t[0]), Value(t[1]);
      Read(t) == if y % 16 == 0 then Good([x * 4 + y / 16]) else Bad
  {
    hide Value;
  }

  lemma ReadThree(t: string)
    requires |t| == 3 && AllDigits(t)
    ensures var x, y, z := Value(t[0]), Value(t[1]), Value(t[2]);
      Read(t) == if z % 4 == 0 then Good([x * 4 + y / 16, y % 16 * 16 + z / 4]) else Bad
  {
    hide Value;
  }

  lemma NotDigits(text: string, i: nat)
    requires i < |text| && Value(text[i]) < 0
    ensures Read(text) == Bad
  {
    if Read(text).Good? {
      ReadDigits(text);
    }
  }

  // One turn of the decoder's loop.
  method Next(text: string, ghost q: nat, ghost r: nat, v: nat, out: array<byte>, o: nat, acc: nat, bits: nat)
    returns (o': nat, acc': nat, bits': nat, ghost q': nat, ghost r': nat)
    requires Held(text, q, r, out[..], o, acc, bits) && Done(text, q, out[..]) && 4 * q + r < |text| && v == Value(text[4 * q + r])
    requires out.Length * 4 >= |text| * 3
    modifies out
    ensures o <= o' <= out.Length && out[o'..] == old(out[o'..])
    ensures r' < 4 && 4 * q' + r' == 4 * q + r + 1 && Held(text, q', r', out[..], o', acc', bits') && Done(text, q', out[..])
  {
    hide Read, Value, Held, Done, AllDigits;
    ghost var was := out[..];
    HeldBounds(text, q, r, was, o, acc, bits);
    o', acc', bits' := Take(text, q, r, v, out, o, acc, bits);
    if r == 3 {
      QuadDone(text, q, was, out[..]);
      NewQuad(text, q + 1, out[..]);
      q', r' := q + 1, 0;
    } else {
      StillDone(text, q, was, out[..]);
      q', r' := q, r + 1;
    }
  }

  // b64_decode, once any padding is stripped.
  method DecodeRaw(text: string, out: array<byte>) returns (r: int)
    requires out.Length * 4 >= |text| * 3
    modifies out
    ensures r == -1 || 0 <= r <= out.Length
    ensures r == -1 <==> Read(text).Bad?
    ensures r >= 0 ==> Read(text) == Good(out[..r]) && out[r..] == old(out[r..])
  {
    hide Read, Value, Held, Done;
    var n := |text|;
    if n % 4 == 1 {
      OddOne(text);
      return -1;
    }
    var o: nat, acc: nat, bits: nat := 0, 0, 0;
    ghost var q: nat, ph: nat := 0, 0;
    NothingRead(text, out[..]);
    var i := 0;
    while i < n
      invariant 0 <= i == 4 * q + ph <= n && ph < 4 && o <= out.Length
      invariant Held(text, q, ph, out[..], o, acc, bits) && Done(text, q, out[..])
      invariant out[o..] == old(out[o..])
    {
      var v := Value(text[i]);
      if v < 0 {
        NotDigits(text, i);
        return -1;
      }
      ghost var before, at := out[..], o;
      o, acc, bits, q, ph := Next(text, q, ph, v, out, o, acc, bits);
      Later(old(out[..]), before, at, o);
      i := i + 1;
    }
    ReadEnd(text, q, ph, out[..], o, acc, bits);
    if bits != 0 && acc != 0 { return -1; }
    return o;
  }

  lemma OddOne(text: string)
    requires |text| % 4 == 1
    ensures Read(text) == Bad
  {
    if Read(text).Good? {
      ReadDigits(text);
    }
  }

  lemma NothingRead(text: string, out: seq<byte>)
    ensures Held(text, 0, 0, out, 0, 0, 0) && Done(text, 0, out)
  {
    assert text[0..] == text;
    assert out[..0] == [];
  }

  lemma StillDone(text: string, q: nat, was: seq<byte>, out: seq<byte>)
    requires Done(text, q, was) && |out| == |was| && (3 * q <= |out| ==> out[..3 * q] == was[..3 * q])
    ensures Done(text, q, out)
  {
    hide Read;
  }

  lemma NewQuad(text: string, q: nat, out: seq<byte>)
    requires Done(text, q, out) && AllDigits(text[..4 * q])
    ensures Held(text, q, 0, out, 3 * q, 0, 0)
  {
    hide Value;
  }

  // b64_decode: it succeeds on exactly the encodings of the mode, and then the bytes written are those
  // encoded, and nothing past them is touched.
  method DecodeInto(text: string, out: array<byte>, mode: Mode) returns (r: int)
    requires out.Length * 4 >= |text| * 3
    modifies out
    ensures r == -1 || 0 <= r <= out.Length
    ensures r == -1 <==> Decoded(text, mode).Bad?
    ensures r >= 0 ==> text == (if mode == Padded then Encode(out[..r]) else Raw(out[..r]))
    ensures r >= 0 ==> out[r..] == old(out[r..])
  {
    hide Read, Raw, Encode;
    var n := |text|;
    if mode == Padded {
      if n % 4 != 0 { return -1; }
      var pad := 0;
      while pad < 2 && n > pad && text[n - 1 - pad] == '='
        invariant 0 <= pad <= 2 && pad <= n
        invariant (pad >= 1 ==> text[n - 1] == '=') && (pad >= 2 ==> text[n - 2] == '=')
      {
        pad := pad + 1;
      }
      n := n - pad;
    }
    assert text[..|text|] == text;
    r := DecodeRaw(text[..n], out);
    if r >= 0 {
      DecodesExactlyEncodings(text, mode, out[..r]);
    }
  }
}
