// The message a result travels in (esp32-embedder/worker/result.c): the ingest body spliced in byte for
// byte among fields of the worker's own. A reader that knows nothing of the body but that it is one JSON
// value gets it back exactly, and the vector bit for bit.
module Results {
  import opened Bytes
  import opened Base64
  import opened JsonText

  // A float is its 32 bits.
  type Bits = b: int | 0 <= b < 0x1_0000_0000

  datatype Pass = Pass(segments: nat, tokens: nat, ms: nat)

  datatype Embedding = Embedding(embedder: Option<string>, vector: seq<Bits>, tokens: nat, truncated: bool)

  datatype Outcome = Embedded(e: Embedding) | Unembedded(reason: Option<string>)

  datatype Result = Result(uuid: Option<string>, envelope: string, outcome: Outcome, board: Option<string>,
                           fw: Option<string>, pass: Option<Pass>, messageId: Option<string>, receives: int)

  // ---- the text -------------------------------------------------------------------------------------

  function Decimal(n: nat): (s: string)
    ensures s != "" && forall i :: 0 <= i < |s| ==> '0' <= s[i] <= '9'
  {
    if n < 10 then ['0' + n as char] else Decimal(n / 10) + ['0' + (n % 10) as char]
  }

  function StrOrNull(s: Option<string>): string {
    if s.Some? then JsonStr(s.value) else "null"
  }

  function LittleEndian(u: Bits): (b: seq<byte>)
    ensures |b| == 4
  {
    [u % 256, u / 0x100 % 256, u / 0x1_0000 % 256, u / 0x100_0000]
  }

  function VectorBytes(v: seq<Bits>): (b: seq<byte>)
    ensures |b| == 4 * |v|
  {
    if v == [] then [] else VectorBytes(v[..|v| - 1]) + LittleEndian(v[|v| - 1])
  }

  function VectorMember(r: Result): string {
    if r.outcome.Embedded? then Quoted(Encode(VectorBytes(r.outcome.e.vector))) else "null"
  }

  function PassText(p: Option<Pass>): string {
    if p.None? then "null"
    else
      "{" + (Quoted("n_seg") + ":" + Decimal(p.value.segments) + "," + (Quoted("tokens") + ":" + Decimal(p.value.tokens) + ","
        + (Quoted("ms") + ":" + Decimal(p.value.ms)))) + "}"
  }

  function IngestText(r: Result): string {
    "{" + (Quoted("message_id") + ":" + StrOrNull(r.messageId) + ","
      + (Quoted("receive_count") + ":" + (if r.receives > 0 then Decimal(r.receives) else "null"))) + "}"
  }

  function EmbedderText(r: Result): string {
    StrOrNull(if r.outcome.Embedded? then r.outcome.e.embedder else None)
  }

  function TokensText(r: Result): string {
    if r.outcome.Embedded? then Decimal(r.outcome.e.tokens) else "null"
  }

  function TruncatedText(r: Result): string {
    if r.outcome.Unembedded? then "null" else if r.outcome.e.truncated then "true" else "false"
  }

  function ReasonText(r: Result): string {
    if r.outcome.Embedded? then "null" else StrOrNull(r.outcome.reason)
  }

  function Quoted(s: string): string {
    "\"" + s + "\""
  }

  function Name(k: nat): string
    requires k < 13
  {
    ["v", "kind", "message_uuid", "envelope", "embedder", "vector", "tokens", "truncated_chars", "reason",
     "board", "fw", "pass", "ingest"][k]
  }

  function Value(r: Result, k: nat): string
    requires k < 13
  {
    if k == 0 then "1"
    else if k == 1 then Quoted(if r.outcome.Embedded? then "embedded" else "unembedded")
    else if k == 2 then StrOrNull(r.uuid)
    else if k == 3 then r.envelope
    else if k == 4 then EmbedderText(r)
    else if k == 5 then VectorMember(r)
    else if k == 6 then TokensText(r)
    else if k == 7 then TruncatedText(r)
    else if k == 8 then ReasonText(r)
    else if k == 9 then StrOrNull(r.board)
    else if k == 10 then StrOrNull(r.fw)
    else if k == 11 then PassText(r.pass)
    else IngestText(r)
  }

  // The members of the object, in order.
  function Field(r: Result, k: nat): string
    requires k < 13
  {
    Quoted(Name(k)) + ":" + Value(r, k)
  }

  // The members from k on, and the end of the object.
  function From(r: Result, k: nat): string
    requires k <= 13
    decreases 13 - k
  {
    if k == 13 then "}" else (if k == 0 then "{" else ",") + Field(r, k) + From(r, k + 1)
  }

  function Text(r: Result): string {
    From(r, 0)
  }

  // result_encode: member by member.
  method EncodeResult(r: Result, b: Buffer, memory: bool) returns (rc: int)
    modifies b
    ensures rc == if memory then 0 else -1
    ensures memory ==> b.text == old(b.text) + Text(r)
  {
    hide From;
    if !memory { return -1; }
    PutHead(b, r);
    PutModel(b, r);
    PutTail(b, r);
    ghost var was := b.text;
    b.Put("}");
    FromEnd(r);
    return 0;
  }

  method PutHead(b: Buffer, r: Result)
    modifies b
    ensures b.text + From(r, 4) == old(b.text) + From(r, 0)
  {
    hide From, VectorBytes, Encode, Quoted;
    PutField(b, r, 0, "1");
    PutField(b, r, 1, Quoted(if r.outcome.Embedded? then "embedded" else "unembedded"));
    PutField(b, r, 2, StrOrNull(r.uuid));
    PutField(b, r, 3, r.envelope);
  }

  method PutTail(b: Buffer, r: Result)
    modifies b
    ensures b.text + From(r, 13) == old(b.text) + From(r, 9)
  {
    hide From, VectorBytes, Encode, Quoted;
    PutField(b, r, 9, StrOrNull(r.board));
    PutField(b, r, 10, StrOrNull(r.fw));
    PutField(b, r, 11, PassText(r.pass));
    PutField(b, r, 12, IngestText(r));
  }

  // The members that are null, or not, as there is a vector or none.
  method PutModel(b: Buffer, r: Result)
    modifies b
    ensures b.text + From(r, 9) == old(b.text) + From(r, 4)
  {
    hide From, VectorBytes, Encode, Quoted;
    PutField(b, r, 4, EmbedderText(r));
    if r.outcome.Embedded? {
      var raw := PackVector(r.outcome.e.vector);
      PutField(b, r, 5, Quoted(Encode(raw)));
      PutField(b, r, 6, Decimal(r.outcome.e.tokens));
      PutField(b, r, 7, if r.outcome.e.truncated then "true" else "false");
      PutField(b, r, 8, "null");
    } else {
      PutField(b, r, 5, "null");
      PutField(b, r, 6, "null");
      PutField(b, r, 7, "null");
      PutField(b, r, 8, StrOrNull(r.outcome.reason));
    }
  }

  method PutField(b: Buffer, r: Result, k: nat, value: string)
    requires k < 13 && value == Value(r, k)
    modifies b
    ensures b.text + From(r, k + 1) == old(b.text) + From(r, k)
  {
    hide Value;
    ghost var was := b.text;
    b.Put(if k == 0 then "{" else ",");
    b.Put(Quoted(Name(k)) + ":");
    b.Put(value);
    Apart(was, if k == 0 then "{" else ",", Quoted(Name(k)) + ":", value, From(r, k + 1));
  }

  lemma Apart(a: string, b: string, c: string, d: string, e: string)
    ensures a + b + c + d + e == a + (b + (c + d) + e)
  {
  }

  lemma FromEnd(r: Result)
    ensures From(r, 13) == "}"
  {
  }

  // little-endian, whatever the host's order
  method PackVector(v: seq<Bits>) returns (raw: seq<byte>)
    ensures raw == VectorBytes(v)
  {
    raw := [];
    var i := 0;
    while i < |v|
      invariant 0 <= i <= |v| && raw == VectorBytes(v[..i])
    {
      var u := v[i];
      assert v[..i + 1][..i] == v[..i];
      raw := raw + [u % 256, u / 0x100 % 256, u / 0x1_0000 % 256, u / 0x100_0000];
      i := i + 1;
    }
    assert v[..i] == v;
  }

  // ---- a reader of objects ---------------------------------------------------------------------------

  // Where a reader stands: how many brackets deep, and in a string, or just after a backslash in one.
  datatype Spot = Spot(depth: int, inStr: bool, escaped: bool)

  const TOP: Spot := Spot(0, false, false)

  function Step(p: Spot, c: char): Spot {
    if p.inStr then
      if p.escaped then p.(escaped := false)
      else if c == '\\' then p.(escaped := true)
      else p.(inStr := c != '"')
    else if c == '"' then p.(inStr := true)
    else if c == '{' || c == '[' then p.(depth := p.depth + 1)
    else if c == '}' || c == ']' then p.(depth := p.depth - 1)
    else p
  }

  function Scan(p: Spot, t: string): Spot
    decreases |t|
  {
    if t == "" then p else Scan(Step(p, t[0]), t[1..])
  }

  // Read from p, the text has no comma between members.
  predicate NoComma(p: Spot, t: string)
    decreases |t|
  {
    t == "" || (!(p == TOP && t[0] == ',') && NoComma(Step(p, t[0]), t[1..]))
  }

  function At(d: int): Spot {
    Spot(d, false, false)
  }

  // Read d deep, the text closes what it opens, and nothing of it looks like the end of a member.
  predicate Steady(t: string, d: int) {
    Scan(At(d), t) == At(d) && NoComma(At(d), t)
  }

  // One value, or a name and a value.
  predicate Whole(t: string) {
    Steady(t, 0)
  }

  // What stands between the commas of a text.
  function Split(t: string, p: Spot, cur: string): seq<string>
    decreases |t|
  {
    if t == "" then [cur]
    else if p == TOP && t[0] == ',' then [cur] + Split(t[1..], TOP, "")
    else Split(t[1..], Step(p, t[0]), cur + [t[0]])
  }

  function Members(text: string): seq<string> {
    if |text| < 2 then [] else Split(text[1..|text| - 1], TOP, "")
  }

  lemma {:induction false} SplitOver(m: string, rest: string, p: Spot, cur: string)
    requires NoComma(p, m)
    ensures Split(m + rest, p, cur) == Split(rest, Scan(p, m), cur + m)
    decreases |m|
  {
    if m == "" {
      assert m + rest == rest && cur + m == cur;
    } else {
      assert (m + rest)[1..] == m[1..] + rest;
      SplitOver(m[1..], rest, Step(p, m[0]), cur + [m[0]]);
      assert cur + [m[0]] + m[1..] == cur + m;
    }
  }

  lemma {:induction false} ScanOver(a: string, b: string, p: Spot)
    ensures Scan(p, a + b) == Scan(Scan(p, a), b)
    ensures NoComma(p, a + b) <==> NoComma(p, a) && NoComma(Scan(p, a), b)
    decreases |a|
  {
    if a == "" {
      assert a + b == b;
    } else {
      assert (a + b)[1..] == a[1..] + b;
      ScanOver(a[1..], b, Step(p, a[0]));
    }
  }

  lemma Both(a: string, b: string, d: int)
    requires Steady(a, d) && Steady(b, d)
    ensures Steady(a + b, d)
  {
    hide Scan, NoComma;
    ScanOver(a, b, At(d));
  }

  lemma Braced(t: string, d: int)
    requires Steady(t, d + 1)
    ensures Steady("{" + t + "}", d)
  {
    hide NoComma, Scan;
    Braces(d);
    ScanOver("{", t, At(d));
    ScanOver("{" + t, "}", At(d));
  }

  lemma Braces(d: int)
    ensures Scan(At(d), "{") == At(d + 1) && NoComma(At(d), "{")
    ensures Scan(At(d + 1), "}") == At(d) && NoComma(At(d + 1), "}")
  {
  }

  // A letter, a digit, or whatever else no reader takes for anything but itself.
  predicate Dull(c: char) {
    c != '"' && c != '\\' && c != '{' && c != '}' && c != '[' && c != ']' && c != ','
  }

  lemma {:induction false} DullSteady(t: string, d: int)
    requires forall i :: 0 <= i < |t| ==> Dull(t[i])
    ensures Steady(t, d)
    decreases |t|
  {
    if t != "" {
      DullSteady(t[1..], d);
    }
  }

  lemma CommaSteady(d: int)
    requires d != 0
    ensures Steady(",", d)
  {
  }

  // Between quotes no comma and no bracket counts.
  lemma {:induction false} InQuotes(t: string, d: int)
    requires forall i :: 0 <= i < |t| ==> t[i] != '"' && t[i] != '\\'
    ensures Scan(Spot(d, true, false), t) == Spot(d, true, false) && NoComma(Spot(d, true, false), t)
    decreases |t|
  {
    if t != "" {
      InQuotes(t[1..], d);
    }
  }

  lemma QuotedSteady(t: string, d: int)
    requires Scan(Spot(d, true, false), t) == Spot(d, true, false) && NoComma(Spot(d, true, false), t)
    ensures Steady(Quoted(t), d)
  {
    hide NoComma, Scan;
    Quotes(d);
    ScanOver("\"", t, At(d));
    ScanOver("\"" + t, "\"", At(d));
  }

  lemma Quotes(d: int)
    ensures Scan(At(d), "\"") == Spot(d, true, false) && NoComma(At(d), "\"")
    ensures Scan(Spot(d, true, false), "\"") == At(d) && NoComma(Spot(d, true, false), "\"")
  {
  }

  lemma BackslashStays(c: char, d: int)
    ensures Scan(Spot(d, true, false), ['\\', c]) == Spot(d, true, false)
    ensures NoComma(Spot(d, true, false), ['\\', c])
  {
    assert ['\\', c][1..] == [c] && [c][1..] == "";
    assert Scan(Spot(d, true, true), [c]) == Spot(d, true, false);
  }

  lemma EscapedStays(c: char, d: int)
    ensures Scan(Spot(d, true, false), Escaped(c)) == Spot(d, true, false)
    ensures NoComma(Spot(d, true, false), Escaped(c))
  {
    hide Scan, NoComma, Step;
    var e := Escaped(c);
    if Plain(c) {
      InQuotes(e, d);
    } else {
      assert e[..2] == ['\\', e[1]];
      BackslashStays(e[1], d);
      InQuotes(e[2..], d);
      ScanOver(e[..2], e[2..], Spot(d, true, false));
      assert e == e[..2] + e[2..];
    }
  }

  lemma {:induction false} EscapeAllStays(s: string, d: int)
    ensures Scan(Spot(d, true, false), EscapeAll(s)) == Spot(d, true, false)
    ensures NoComma(Spot(d, true, false), EscapeAll(s))
    decreases |s|
  {
    hide Scan, NoComma, Escaped;
    if s == "" {
      Nothing(Spot(d, true, false));
    } else {
      EscapeAllStays(s[..|s| - 1], d);
      EscapedStays(s[|s| - 1], d);
      ScanOver(EscapeAll(s[..|s| - 1]), Escaped(s[|s| - 1]), Spot(d, true, false));
    }
  }

  lemma Nothing(p: Spot)
    ensures Scan(p, "") == p && NoComma(p, "")
  {
  }

  lemma JsonStrSteady(s: string, d: int)
    ensures Steady(JsonStr(s), d)
  {
    hide Steady, EscapeAll;
    EscapeAllStays(s, d);
    QuotedSteady(EscapeAll(s), d);
  }

  lemma SplitWhole(m: string, rest: string)
    requires Whole(m)
    ensures Split(m + "," + rest, TOP, "") == [m] + Split(rest, TOP, "")
    ensures Split(m, TOP, "") == [m]
  {
    hide NoComma, Scan;
    assert m + "," + rest == m + ("," + rest) && "" + m == m && m + "" == m;
    SplitOver(m, "," + rest, TOP, "");
    SplitOver(m, "", TOP, "");
    assert ("," + rest)[1..] == rest;
  }

  // ---- every member is whole --------------------------------------------------------------------------

  lemma QuotedDull(t: string, d: int)
    requires forall i :: 0 <= i < |t| ==> t[i] != '"' && t[i] != '\\'
    ensures Steady(Quoted(t), d)
  {
    hide Steady, Quoted, Scan, NoComma;
    InQuotes(t, d);
    QuotedSteady(t, d);
  }

  lemma DecimalSteady(n: nat, d: int)
    ensures Steady(Decimal(n), d)
  {
    hide Steady, Decimal;
    DullSteady(Decimal(n), d);
  }

  lemma StrOrNullSteady(s: Option<string>, d: int)
    ensures Steady(StrOrNull(s), d)
  {
    hide Steady, JsonStr;
    if s.Some? { JsonStrSteady(s.value, d); } else { DullSteady("null", d); }
  }

  lemma PairSteady(name: string, value: string, d: int)
    requires forall i :: 0 <= i < |name| ==> name[i] != '"' && name[i] != '\\'
    requires Steady(value, d)
    ensures Steady(Quoted(name) + ":" + value, d)
  {
    hide Steady, Quoted;
    QuotedDull(name, d);
    DullSteady(":", d);
    Both(Quoted(name), ":", d);
    Both(Quoted(name) + ":", value, d);
  }

  lemma ThenSteady(a: string, b: string, d: int)
    requires Steady(a, d) && Steady(b, d) && d != 0
    ensures Steady(a + "," + b, d)
  {
    hide Steady;
    CommaSteady(d);
    Both(a, ",", d);
    Both(a + ",", b, d);
  }

  lemma PassWhole(p: Option<Pass>)
    ensures Whole(PassText(p))
  {
    hide Steady, Quoted, Decimal;
    if p.None? {
      DullSteady("null", 0);
    } else {
      DecimalSteady(p.value.segments, 1);
      DecimalSteady(p.value.tokens, 1);
      DecimalSteady(p.value.ms, 1);
      PairSteady("n_seg", Decimal(p.value.segments), 1);
      PairSteady("tokens", Decimal(p.value.tokens), 1);
      PairSteady("ms", Decimal(p.value.ms), 1);
      ThenSteady(Quoted("tokens") + ":" + Decimal(p.value.tokens), Quoted("ms") + ":" + Decimal(p.value.ms), 1);
      ThenSteady(Quoted("n_seg") + ":" + Decimal(p.value.segments),
        Quoted("tokens") + ":" + Decimal(p.value.tokens) + "," + (Quoted("ms") + ":" + Decimal(p.value.ms)), 1);
      Braced(Quoted("n_seg") + ":" + Decimal(p.value.segments) + ","
        + (Quoted("tokens") + ":" + Decimal(p.value.tokens) + "," + (Quoted("ms") + ":" + Decimal(p.value.ms))), 0);
    }
  }

  lemma IngestWhole(r: Result)
    ensures Whole(IngestText(r))
  {
    hide Steady, Quoted, Decimal, StrOrNull;
    var id, n := StrOrNull(r.messageId), if r.receives > 0 then Decimal(r.receives) else "null";
    StrOrNullSteady(r.messageId, 1);
    if r.receives > 0 { DecimalSteady(r.receives, 1); } else { DullSteady("null", 1); }
    PairSteady("message_id", id, 1);
    PairSteady("receive_count", n, 1);
    ThenSteady(Quoted("message_id") + ":" + id, Quoted("receive_count") + ":" + n, 1);
    Braced(Quoted("message_id") + ":" + id + "," + (Quoted("receive_count") + ":" + n), 0);
  }

  lemma {:induction false} DigitsDull(t: string)
    requires AllDigits(t)
    ensures forall i :: 0 <= i < |t| ==> t[i] != '"' && t[i] != '\\'
  {
    forall i | 0 <= i < |t|
      ensures t[i] != '"' && t[i] != '\\'
    {
      assert Base64.Value(t[i]) >= 0;
    }
  }

  lemma VectorWhole(r: Result)
    ensures Whole(VectorMember(r))
  {
    hide Steady, Quoted, Raw, AllDigits, VectorBytes;
    if r.outcome.Embedded? {
      var bytes := VectorBytes(r.outcome.e.vector);
      RawLength(bytes);
      DigitsDull(Raw(bytes));
      QuotedDull(Encode(bytes), 0);
    } else {
      DullSteady("null", 0);
    }
  }

  lemma ValueWhole(r: Result, k: nat)
    requires k < 13 && Whole(r.envelope)
    ensures Whole(Value(r, k))
  {
    hide Steady, StrOrNull, VectorMember, Decimal, PassText, IngestText, Quoted;
    if k == 1 {
      QuotedDull(if r.outcome.Embedded? then "embedded" else "unembedded", 0);
    } else if k == 2 {
      StrOrNullSteady(r.uuid, 0);
    } else if k == 4 {
      StrOrNullSteady(if r.outcome.Embedded? then r.outcome.e.embedder else None, 0);
    } else if k == 9 {
      StrOrNullSteady(r.board, 0);
    } else if k == 10 {
      StrOrNullSteady(r.fw, 0);
    } else if k == 8 && r.outcome.Unembedded? {
      StrOrNullSteady(r.outcome.reason, 0);
    } else if k == 6 && r.outcome.Embedded? {
      DecimalSteady(r.outcome.e.tokens, 0);
    } else {
      VectorWhole(r);
      PassWhole(r.pass);
      IngestWhole(r);
      DullSteady("1", 0);
      DullSteady("null", 0);
      DullSteady("true", 0);
      DullSteady("false", 0);
    }
  }

  lemma NamePlain(k: nat)
    requires k < 13
    ensures forall i :: 0 <= i < |Name(k)| ==> Name(k)[i] != '"' && Name(k)[i] != '\\'
  {
  }

  lemma FieldWhole(r: Result, k: nat)
    requires k < 13 && Whole(r.envelope)
    ensures Whole(Field(r, k))
  {
    hide Steady, Value, Quoted, Name;
    ValueWhole(r, k);
    NamePlain(k);
    PairSteady(Name(k), Value(r, k), 0);
  }

  // ---- and is read back ---------------------------------------------------------------------------------

  // The members after k, without the brace.
  function Rest(r: Result, k: nat): string
    requires k < 13
    decreases 13 - k
  {
    if k == 12 then Field(r, k) else Field(r, k) + "," + Rest(r, k + 1)
  }

  lemma {:induction false} RestIs(r: Result, k: nat)
    requires k < 13
    ensures From(r, k) == (if k == 0 then "{" else ",") + Rest(r, k) + "}"
    decreases 13 - k
  {
    hide Field;
    if k == 12 {
      FromEnd(r);
    } else {
      RestIs(r, k + 1);
      Associates(if k == 0 then "{" else ",", Field(r, k), ",", Rest(r, k + 1), "}");
    }
  }

  lemma Associates(a: string, b: string, c: string, d: string, e: string)
    ensures a + b + (c + d + e) == a + (b + c + d) + e
  {
  }

  lemma {:induction false} SplitRest(r: Result, k: nat)
    requires k < 13 && Whole(r.envelope)
    ensures var ms := Split(Rest(r, k), TOP, "");
      |ms| == 13 - k && forall j :: k <= j < 13 ==> ms[j - k] == Field(r, j)
    decreases 13 - k
  {
    hide Steady, Field, Split;
    FieldWhole(r, k);
    if k == 12 {
      SplitWhole(Field(r, k), "");
    } else {
      SplitRest(r, k + 1);
      SplitWhole(Field(r, k), Rest(r, k + 1));
    }
  }

  // A reader that splits the object at its commas finds the thirteen members as they were written: the
  // envelope among them byte for byte, whatever the forwarder put in it.
  lemma MembersAsWritten(r: Result)
    requires Whole(r.envelope)
    ensures |Members(Text(r))| == 13 && forall k :: 0 <= k < 13 ==> Members(Text(r))[k] == Field(r, k)
    ensures Members(Text(r))[3] == "\"envelope\":" + r.envelope
  {
    hide Steady, Field, Split, From, Rest;
    SplitRest(r, 0);
    RestIs(r, 0);
    assert Text(r)[1..|Text(r)| - 1] == Rest(r, 0);
    var ms := Members(Text(r));
    assert forall k :: 0 <= k < 13 ==> ms[k - 0] == Field(r, k);
    EnvelopeField(r);
  }

  lemma EnvelopeField(r: Result)
    ensures Field(r, 3) == "\"envelope\":" + r.envelope
  {
    assert Quoted("envelope") + ":" == "\"envelope\":";
  }

  // ---- the vector ------------------------------------------------------------------------------------------

  function FromLittleEndian(b: seq<byte>): int
    requires |b| == 4
  {
    b[0] as int + b[1] as int * 0x100 + b[2] as int * 0x1_0000 + b[3] as int * 0x100_0000
  }

  function VectorOf(bytes: seq<byte>): seq<int> {
    if |bytes| < 4 then [] else VectorOf(bytes[..|bytes| - 4]) + [FromLittleEndian(bytes[|bytes| - 4..])]
  }

  lemma {:induction false} VectorReadsBack(v: seq<Bits>)
    ensures VectorOf(VectorBytes(v)) == v
    decreases |v|
  {
    hide LittleEndian, FromLittleEndian;
    if v != [] {
      var n := |v| - 1;
      hide VectorOf;
      VectorReadsBack(v[..n]);
      LittleEndianBack(v[n]);
      OneMoreFloat(VectorBytes(v[..n]), LittleEndian(v[n]));
      assert v == v[..n] + [v[n]];
    }
  }

  lemma OneMoreFloat(bytes: seq<byte>, four: seq<byte>)
    requires |four| == 4
    ensures VectorOf(bytes + four) == VectorOf(bytes) + [FromLittleEndian(four)]
  {
    hide FromLittleEndian;
    var b := bytes + four;
    assert b[..|b| - 4] == bytes && b[|b| - 4..] == four;
  }

  lemma LittleEndianBack(u: Bits)
    ensures FromLittleEndian(LittleEndian(u)) == u
  {
    Lowest(u as int);
    Lowest(u as int / 0x100);
    Lowest(u as int / 0x1_0000);
    assert u as int / 0x100 / 0x100 == u as int / 0x1_0000 && u as int / 0x1_0000 / 0x100 == u as int / 0x100_0000;
  }

  lemma Lowest(n: int)
    ensures n == n / 0x100 * 0x100 + n % 0x100
  {
  }

  // From the text of an embedded result a reader has the vector back, bit for bit.
  lemma VectorAsComputed(r: Result)
    requires Whole(r.envelope) && r.outcome.Embedded?
    ensures |Members(Text(r))| == 13
    ensures exists t, bytes ::
      && Members(Text(r))[5] == "\"vector\":\"" + t + "\""
      && Decoded(t, Padded) == Good(bytes)
      && VectorOf(bytes) == r.outcome.e.vector
  {
    hide Steady, Members, Text, Encode, VectorBytes, VectorOf, Decoded;
    MembersAsWritten(r);
    var bytes := VectorBytes(r.outcome.e.vector);
    var t := Encode(bytes);
    VectorReadsBack(r.outcome.e.vector);
    DecodesExactlyEncodings(t, Padded, bytes);
    VectorField(r, t);
  }

  lemma VectorField(r: Result, t: string)
    requires r.outcome.Embedded? && t == Encode(VectorBytes(r.outcome.e.vector))
    ensures Field(r, 5) == "\"vector\":\"" + t + "\""
  {
    hide Encode, VectorBytes;
    assert Quoted("vector") + ":" == "\"vector\":";
  }

  // ---- member by member ------------------------------------------------------------------------------------

  function Key(name: string): string { "\"" + name + "\":" }

  lemma FieldIs(r: Result, k: nat)
    requires k < 13
    ensures Field(r, k) == Key(Name(k)) + Value(r, k)
  {
    hide Value, Name;
    assert "\"" + Name(k) + "\"" + ":" == "\"" + Name(k) + "\":";
  }

  // What a reader that splits the object at its commas finds of a result: the version, what kind it is, and of which
  // message; the envelope; who embedded it, how many tokens there were and whether they were cut, or why it was not;
  // board and firmware.
  lemma MembersMean(r: Result)
    requires Whole(r.envelope)
    ensures var ms := Members(Text(r));
      && |ms| == 13
      && ms[0] == Key("v") + "1"
      && ms[1] == Key("kind") + (if r.outcome.Embedded? then "\"embedded\"" else "\"unembedded\"")
      && ms[2] == Key("message_uuid") + (if r.uuid.Some? then JsonStr(r.uuid.value) else "null")
      && ms[3] == Key("envelope") + r.envelope
      && ms[4] == Key("embedder") + (if r.outcome.Embedded? && r.outcome.e.embedder.Some? then JsonStr(r.outcome.e.embedder.value) else "null")
      && ms[9] == Key("board") + (if r.board.Some? then JsonStr(r.board.value) else "null")
      && ms[10] == Key("fw") + (if r.fw.Some? then JsonStr(r.fw.value) else "null")
  {
    hide Steady, Field, Members, Text, JsonStr, Decimal, VectorBytes, Encode, Key;
    MembersAsWritten(r);
    FieldIs(r, 0);
    FieldIs(r, 1);
    FieldIs(r, 2);
    FieldIs(r, 3);
    FieldIs(r, 4);
    FieldIs(r, 9);
    FieldIs(r, 10);
  }

  lemma OutcomeMeans(r: Result)
    requires Whole(r.envelope)
    ensures var ms := Members(Text(r));
      && |ms| == 13
      && ms[6] == Key("tokens") + (if r.outcome.Embedded? then Decimal(r.outcome.e.tokens) else "null")
      && ms[7] == Key("truncated_chars") + (if r.outcome.Unembedded? then "null" else if r.outcome.e.truncated then "true" else "false")
      && ms[8] == Key("reason") + (if r.outcome.Unembedded? && r.outcome.reason.Some? then JsonStr(r.outcome.reason.value) else "null")
      && (r.outcome.Unembedded? ==> ms[5] == Key("vector") + "null")
  {
    hide Steady, Field, Members, Text, JsonStr, Decimal, VectorBytes, Encode, Key;
    MembersAsWritten(r);
    FieldIs(r, 5);
    FieldIs(r, 6);
    FieldIs(r, 7);
    FieldIs(r, 8);
  }

  // And of the pass that carried it and of its delivery.
  lemma OriginMeans(r: Result)
    requires Whole(r.envelope)
    ensures |Members(Text(r))| == 13
    ensures r.pass.None? ==> Members(Text(r))[11] == Key("pass") + "null"
    ensures r.pass.Some? ==>
      Members(Text(r))[11] == Key("pass") + ("{" + "\"n_seg\":" + Decimal(r.pass.value.segments)
        + ",\"tokens\":" + Decimal(r.pass.value.tokens) + ",\"ms\":" + Decimal(r.pass.value.ms) + "}")
    ensures Members(Text(r))[12] == Key("ingest") +
      ("{" + "\"message_id\":" + (if r.messageId.Some? then JsonStr(r.messageId.value) else "null")
        + ",\"receive_count\":" + (if r.receives > 0 then Decimal(r.receives) else "null") + "}")
  {
    hide Steady, Field, Members, Text, JsonStr, Decimal, Key, PassText, IngestText;
    MembersAsWritten(r);
    FieldIs(r, 11);
    FieldIs(r, 12);
    if r.pass.Some? {
      PassTextIs(r.pass.value);
    } else {
      assert PassText(r.pass) == "null" by { NoPassText(); }
    }
    IngestTextIs(r);
  }

  lemma NoPassText()
    ensures PassText(None) == "null"
  {
  }

  lemma PassTextIs(p: Pass)
    ensures PassText(Some(p)) == "{" + "\"n_seg\":" + Decimal(p.segments) + ",\"tokens\":" + Decimal(p.tokens) + ",\"ms\":" + Decimal(p.ms) + "}"
  {
    hide Decimal;
    ThreeNumbers(Decimal(p.segments), Decimal(p.tokens), Decimal(p.ms));
  }

  lemma ThreeNumbers(a: string, b: string, c: string)
    ensures "{" + (Quoted("n_seg") + ":" + a + "," + (Quoted("tokens") + ":" + b + "," + (Quoted("ms") + ":" + c))) + "}"
      == "{" + "\"n_seg\":" + a + ",\"tokens\":" + b + ",\"ms\":" + c + "}"
  {
    assert Quoted("n_seg") + ":" == "\"n_seg\":";
    assert "," + (Quoted("tokens") + ":") == ",\"tokens\":";
    assert "," + (Quoted("ms") + ":") == ",\"ms\":";
    Regroup("{", "\"n_seg\":", a, ",", Quoted("tokens") + ":", b, ",", Quoted("ms") + ":", c, "}");
  }

  lemma Regroup(o: string, n1: string, a: string, c1: string, n2: string, b: string, c2: string, n3: string, c: string, e: string)
    ensures o + (n1 + a + c1 + (n2 + b + c2 + (n3 + c))) + e == o + n1 + a + (c1 + n2) + b + (c2 + n3) + c + e
  {
  }

  lemma IngestTextIs(r: Result)
    ensures IngestText(r) == "{" + "\"message_id\":" + (if r.messageId.Some? then JsonStr(r.messageId.value) else "null")
        + ",\"receive_count\":" + (if r.receives > 0 then Decimal(r.receives) else "null") + "}"
  {
    hide Decimal, JsonStr;
    var a := if r.messageId.Some? then JsonStr(r.messageId.value) else "null";
    var b := if r.receives > 0 then Decimal(r.receives) else "null";
    assert Quoted("message_id") + ":" == "\"message_id\":";
    assert "," + (Quoted("receive_count") + ":") == ",\"receive_count\":";
    Regroup2("{", "\"message_id\":", a, ",", Quoted("receive_count") + ":", b, "}");
  }

  lemma Regroup2(o: string, n1: string, a: string, c1: string, n2: string, b: string, e: string)
    ensures o + (n1 + a + c1 + (n2 + b)) + e == o + n1 + a + (c1 + n2) + b + e
  {
  }

  // A number's digits, the last of them last.
  lemma DecimalIs(n: nat)
    ensures n < 10 ==> Decimal(n) == ["0123456789"[n]]
    ensures n >= 10 ==> Decimal(n) == Decimal(n / 10) + ["0123456789"[n % 10]]
  {
    hide Decimal;
    DecimalStep(n);
    DigitChar(n % 10);
  }

  lemma DecimalStep(n: nat)
    ensures Decimal(n) == if n < 10 then ['0' + n as char] else Decimal(n / 10) + ['0' + (n % 10) as char]
  {
  }

  lemma DigitChar(d: nat)
    requires d < 10
    ensures '0' + d as char == "0123456789"[d]
  {
  }
}
