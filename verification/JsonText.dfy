// JSON strings as the worker writes them (esp32-embedder/worker/kw.c:124-146) and rewrites them
// (esp32-embedder/worker/prep.c:6-32), against a reader of section 7 of RFC 8259. A char here is one
// byte of the text.
module JsonText {
  import opened Bytes

  // ---- reading ---------------------------------------------------------------------------------------

  // What a reader makes of a text: the characters between strings, and the strings, decoded to code
  // units.
  datatype Token = Mark(c: char) | Str(units: seq<int>)

  function Hex(c: char): (v: int)
    ensures -1 <= v < 16
  {
    if '0' <= c <= '9' then c as int - '0' as int
    else if 'a' <= c <= 'f' then c as int - 'a' as int + 10
    else if 'A' <= c <= 'F' then c as int - 'A' as int + 10
    else -1
  }

  // The characters of the escape a string goes on with, 0 if none does, and the code unit it stands for.
  function Escape(text: string): (r: (nat, int))
    ensures r.0 <= |text|
  {
    if |text| < 2 || text[0] != '\\' then (0, 0)
    else
      var c := text[1];
      if c == '"' || c == '\\' || c == '/' then (2, c as int)
      else if c == 'b' then (2, 8)
      else if c == 'f' then (2, 12)
      else if c == 'n' then (2, 10)
      else if c == 'r' then (2, 13)
      else if c == 't' then (2, 9)
      else if c == 'u' && |text| >= 6 && Hex(text[2]) >= 0 && Hex(text[3]) >= 0 && Hex(text[4]) >= 0 && Hex(text[5]) >= 0 then
        (6, Hex(text[2]) * 0x1000 + Hex(text[3]) * 0x100 + Hex(text[4]) * 0x10 + Hex(text[5]))
      else (0, 0)
  }

  function ReadMarks(text: string): Option<seq<Token>>
    decreases |text|
  {
    if text == "" then Some([])
    else if text[0] == '"' then ReadString(text[1..], [])
    else
      var rest := ReadMarks(text[1..]);
      if rest.None? then None else Some([Mark(text[0])] + rest.value)
  }

  function ReadString(text: string, units: seq<int>): Option<seq<Token>>
    decreases |text|
  {
    if text == "" then None
    else if text[0] == '"' then
      var rest := ReadMarks(text[1..]);
      if rest.None? then None else Some([Str(units)] + rest.value)
    else if text[0] == '\\' then
      var (n, unit) := Escape(text);
      if n == 0 then None else ReadString(text[n..], units + [unit])
    else if text[0] < ' ' then None
    else ReadString(text[1..], units + [text[0] as int])
  }

  // ---- writing: jb_json_str ---------------------------------------------------------------------------

  function HexDigit(v: nat): (c: char)
    requires v < 16
    ensures Hex(c) == v
  {
    if v < 10 then '0' + v as char else 'a' + (v - 10) as char
  }

  predicate Plain(c: char) {
    c >= ' ' && c != '"' && c != '\\'
  }

  function Escaped(c: char): string {
    if Plain(c) then [c]
    else if c == '"' then "\\\""
    else if c == '\\' then "\\\\"
    else if c == '\n' then "\\n"
    else if c == '\r' then "\\r"
    else if c == '\t' then "\\t"
    else "\\u00" + [HexDigit(c as int / 16), HexDigit(c as int % 16)]
  }

  // Quotes, backslashes and what is below a space are written as escapes, the commonest as letters, the others by their
  // number in two digits; everything else as it is.
  lemma EscapedIs(c: char)
    requires c < 256 as char
    ensures c >= ' ' && c != '"' && c != '\\' ==> Escaped(c) == [c]
    ensures c == '"' ==> Escaped(c) == ['\\', '"']
    ensures c == '\\' ==> Escaped(c) == ['\\', '\\']
    ensures c == '\n' ==> Escaped(c) == ['\\', 'n']
    ensures c == '\r' ==> Escaped(c) == ['\\', 'r']
    ensures c == '\t' ==> Escaped(c) == ['\\', 't']
    ensures c < ' ' && c != '\n' && c != '\r' && c != '\t' ==>
      Escaped(c) == ['\\', 'u', '0', '0', if c as int < 16 then '0' else '1', "0123456789abcdef"[c as int % 16]]
  {
    if c < ' ' {
      HexDigitIs(c as int % 16);
      HexDigitIs(c as int / 16);
    }
  }

  lemma HexDigitIs(v: nat)
    requires v < 16
    ensures HexDigit(v) == "0123456789abcdef"[v]
  {
  }

  function EscapeAll(s: string): string {
    if s == "" then "" else EscapeAll(s[..|s| - 1]) + Escaped(s[|s| - 1])
  }

  function JsonStr(s: string): string {
    "\"" + EscapeAll(s) + "\""
  }

  // The buffer the worker appends to.
  class Buffer {
    var text: string

    constructor ()
      ensures text == ""
    {
      text := "";
    }

    method Put(s: string)
      modifies this
      ensures text == old(text) + s
    {
      text := text + s;
    }

    // jb_json_str: runs of plain characters are copied whole, between the escapes.
    method JsonString(s: string)
      modifies this
      ensures text == old(text) + JsonStr(s)
    {
      hide Escaped, EscapeAll;
      Put("\"");
      ghost var start := text;
      var run, i := 0, 0;
      NoneEscaped(s);
      while i < |s|
        invariant 0 <= run <= i <= |s|
        invariant text + s[run..i] == start + EscapeAll(s[..i])
      {
        var c := s[i];
        EscapedOn(s, i);
        if Plain(c) {
          PlainAsIs(c);
          RunOn(text, s, run, i, start, EscapeAll(s[..i]));
        } else {
          Put(s[run..i]);
          run := i + 1;
          Put(Escaped(c));
          RunOver(text, s, i + 1, start, EscapeAll(s[..i]), Escaped(c));
        }
        i := i + 1;
      }
      assert s[..i] == s;
      Put(s[run..|s|]);
      Put("\"");
    }
  }

  lemma NoneEscaped(s: string)
    ensures EscapeAll(s[..0]) == "" && s[0..0] == ""
  {
  }

  lemma EscapedOn(s: string, i: nat)
    requires i < |s|
    ensures EscapeAll(s[..i + 1]) == EscapeAll(s[..i]) + Escaped(s[i])
  {
    assert s[..i + 1][..i] == s[..i];
  }

  lemma RunOn(text: string, s: string, run: nat, i: nat, start: string, escaped: string)
    requires run <= i < |s| && text + s[run..i] == start + escaped
    ensures text + s[run..i + 1] == start + (escaped + [s[i]])
  {
    assert text + s[run..i + 1] == text + s[run..i] + [s[i]];
  }

  lemma RunOver(text: string, s: string, i: nat, start: string, escaped: string, e: string)
    requires i <= |s| && text == start + escaped + e
    ensures text + s[i..i] == start + (escaped + e)
  {
  }

  lemma PlainAsIs(c: char)
    ensures Plain(c) ==> Escaped(c) == [c]
  {
  }

  // ---- what is written is read back ----------------------------------------------------------------------

  function Units(s: string): (units: seq<int>)
    ensures |units| == |s| && forall i :: 0 <= i < |s| ==> units[i] == s[i] as int
  {
    if s == "" then [] else Units(s[..|s| - 1]) + [s[|s| - 1] as int]
  }

  lemma ReadEscaped(c: char, rest: string, units: seq<int>)
    ensures ReadString(Escaped(c) + rest, units) == ReadString(rest, units + [c as int])
  {
    var t := Escaped(c) + rest;
    if Plain(c) {
      assert t[1..] == rest;
    } else if c in "\"\\\n\r\t" {
      assert t[2..] == rest;
    } else {
      assert t[6..] == rest;
      assert t[4] == HexDigit(c as int / 16) && t[5] == HexDigit(c as int % 16);
    }
  }

  lemma {:induction false} ReadEscapeAll(s: string, rest: string, units: seq<int>)
    ensures ReadString(EscapeAll(s) + rest, units) == ReadString(rest, units + Units(s))
    decreases |s|
  {
    hide Escaped, ReadString;
    if s == "" {
      assert EscapeAll(s) + rest == rest && units + Units(s) == units;
    } else {
      var front, c := s[..|s| - 1], s[|s| - 1];
      assert EscapeAll(s) + rest == EscapeAll(front) + (Escaped(c) + rest);
      ReadEscapeAll(front, Escaped(c) + rest, units);
      ReadEscaped(c, rest, units + Units(front));
      assert units + Units(front) + [c as int] == units + Units(s);
    }
  }

  // Whatever the bytes, writing them as a string and reading that gives the same bytes back, and the
  // reader goes on right after it.
  lemma JsonStrReadsBack(s: string, rest: string)
    ensures ReadMarks(JsonStr(s) + rest)
      == var after := ReadMarks(rest); if after.None? then None else Some([Str(Units(s))] + after.value)
  {
    hide EscapeAll;
    var t := JsonStr(s) + rest;
    assert t[1..] == EscapeAll(s) + ("\"" + rest);
    ReadEscapeAll(s, "\"" + rest, []);
    assert ("\"" + rest)[1..] == rest;
    assert [] + Units(s) == Units(s);
  }

  // ---- rewriting: prep_json_nuls ---------------------------------------------------------------------------

  predicate NulEscape(text: string) {
    |text| >= 6 && text[..6] == "\\u0000"
  }

  function PrepMarks(text: string): string
    decreases |text|
  {
    if text == "" then ""
    else [text[0]] + if text[0] == '"' then PrepString(text[1..]) else PrepMarks(text[1..])
  }

  function PrepString(text: string): string
    decreases |text|
  {
    if text == "" then ""
    else if text[0] == '"' then [text[0]] + PrepMarks(text[1..])
    else if text[0] != '\\' || |text| < 2 then [text[0]] + PrepString(text[1..])
    else if NulEscape(text) then "\\\\0" + PrepString(text[6..])
    else text[..2] + PrepString(text[2..])
  }

  // The loop: runs of characters are copied whole, between the rewritten escapes. Each of those is three
  // characters for six.
  method PrepJsonNuls(json: string) returns (out: string, nuls: nat)
    ensures out == PrepMarks(json)
    ensures |out| + 3 * nuls == |json|
  {
    hide PrepFrom, IsNul, PrepMarks, PrepString, Going;
    out, nuls := "", 0;
    var inStr, run, i := false, 0, 0;
    StartPrep(json);
    while i < |json|
      invariant 0 <= run <= i <= |json|
      invariant Going(out, json, run, i, inStr)
      invariant |out| + 3 * nuls == run
    {
      var c := json[i];
      PrepStep(inStr, json, i);
      if !inStr {
        inStr := c == '"';
        Copied(out, json, run, i, 1, false, inStr);
        i := i + 1;
      } else if c == '"' {
        inStr := false;
        Copied(out, json, run, i, 1, true, inStr);
        i := i + 1;
      } else if c != '\\' || i + 1 >= |json| {
        Copied(out, json, run, i, 1, true, inStr);
        i := i + 1;
      } else if IsNul(json, i) {
        NulLength(json, i);
        Rewritten(out, json, run, i);
        out := out + json[run..i] + "\\\\0";
        nuls := nuls + 1;
        i := i + 6;
        run := i;
      } else {
        Copied(out, json, run, i, 2, true, inStr);
        i := i + 2;
      }
    }
    EndPrep(out, inStr, json, run);
    out := out + json[run..];
  }

  // What is written, what is still to be copied, and what is to come of the rest.
  ghost predicate Going(out: string, json: string, run: nat, i: nat, inStr: bool)
    requires run <= i <= |json|
  {
    out + json[run..i] + PrepFrom(inStr, json[i..]) == PrepMarks(json)
  }

  function PrepFrom(inStr: bool, text: string): string {
    if inStr then PrepString(text) else PrepMarks(text)
  }

  predicate IsNul(json: string, i: nat)
    requires i + 1 < |json|
  {
    json[i + 1] == 'u' && i + 5 < |json| && json[i + 2] == '0' && json[i + 3] == '0' && json[i + 4] == '0' && json[i + 5] == '0'
  }

  lemma NulLength(json: string, i: nat)
    requires i + 1 < |json| && IsNul(json, i)
    ensures i + 6 <= |json|
  {
  }

  lemma StartPrep(json: string)
    ensures Going("", json, 0, 0, false)
  {
    hide PrepMarks, PrepString;
    assert json[0..] == json;
  }

  lemma EndPrep(out: string, inStr: bool, json: string, run: nat)
    requires run <= |json| && Going(out, json, run, |json|, inStr)
    ensures out + json[run..] == PrepMarks(json)
  {
    assert json[|json|..] == "" && json[run..|json|] == json[run..];
  }

  lemma PrepStep(inStr: bool, json: string, i: nat)
    requires i < |json|
    ensures !inStr ==> PrepFrom(inStr, json[i..]) == json[i..i + 1] + PrepFrom(json[i] == '"', json[i + 1..])
    ensures inStr && json[i] == '"' ==> PrepFrom(inStr, json[i..]) == json[i..i + 1] + PrepFrom(false, json[i + 1..])
    ensures inStr && json[i] != '"' && (json[i] != '\\' || i + 1 >= |json|) ==>
      PrepFrom(inStr, json[i..]) == json[i..i + 1] + PrepFrom(true, json[i + 1..])
    ensures inStr && json[i] == '\\' && i + 1 < |json| && IsNul(json, i) ==>
      PrepFrom(inStr, json[i..]) == "\\\\0" + PrepFrom(true, json[i + 6..])
    ensures inStr && json[i] == '\\' && i + 1 < |json| && !IsNul(json, i) ==>
      PrepFrom(inStr, json[i..]) == json[i..i + 2] + PrepFrom(true, json[i + 2..])
  {
    var t := json[i..];
    assert t[1..] == json[i + 1..] && json[i..i + 1] == [t[0]];
    if i + 1 < |json| {
      assert t[2..] == json[i + 2..] && json[i..i + 2] == t[..2];
      if IsNul(json, i) {
        assert t[6..] == json[i + 6..] && t[..6] == json[i..i + 6];
      } else {
        assert |t| >= 6 ==> t[..6] == json[i..i + 6];
      }
    }
  }

  lemma Copied(out: string, json: string, run: nat, i: nat, n: nat, was: bool, inStr: bool)
    requires run <= i <= i + n <= |json| && Going(out, json, run, i, was)
    requires PrepFrom(was, json[i..]) == json[i..i + n] + PrepFrom(inStr, json[i + n..])
    ensures Going(out, json, run, i + n, inStr)
  {
    hide PrepFrom, PrepMarks;
    assert json[run..i + n] == json[run..i] + json[i..i + n];
  }

  lemma Rewritten(out: string, json: string, run: nat, i: nat)
    requires run <= i <= i + 6 <= |json| && Going(out, json, run, i, true)
    requires PrepFrom(true, json[i..]) == "\\\\0" + PrepFrom(true, json[i + 6..])
    ensures Going(out + json[run..i] + "\\\\0", json, i + 6, i + 6, true)
  {
    hide PrepFrom, PrepMarks;
  }

  // ---- what the rewriting means -----------------------------------------------------------------------------

  // Cal's text for a NUL: a backslash and a zero.
  function NoNuls(units: seq<int>): seq<int> {
    if units == [] then []
    else
      var last := units[|units| - 1];
      NoNuls(units[..|units| - 1]) + if last == 0 then ['\\' as int, '0' as int] else [last]
  }

  function NoNulTokens(tokens: seq<Token>): seq<Token> {
    if tokens == [] then []
    else [if tokens[0].Str? then Str(NoNuls(tokens[0].units)) else tokens[0]] + NoNulTokens(tokens[1..])
  }

  lemma NoNulsSnoc(units: seq<int>, unit: int)
    ensures NoNuls(units + [unit]) == NoNuls(units) + if unit == 0 then ['\\' as int, '0' as int] else [unit]
  {
    assert (units + [unit])[..|units|] == units;
  }

  lemma NoNulTokensCons(t: Token, rest: seq<Token>)
    ensures NoNulTokens([t] + rest) == [if t.Str? then Str(NoNuls(t.units)) else t] + NoNulTokens(rest)
  {
    assert ([t] + rest)[1..] == rest;
  }

  // For every text a JSON reader can read, the rewritten text reads as the same, but with every NUL in its
  // strings written as a backslash and a zero.
  lemma {:induction false} PrepKeepsMeaning(text: string)
    requires ReadMarks(text).Some?
    ensures ReadMarks(PrepMarks(text)) == Some(NoNulTokens(ReadMarks(text).value))
    decreases |text|
  {
    hide NoNulTokens, PrepString, ReadString;
    if text == "" {
      NoNoTokens();
    } else if text[0] == '"' {
      PrepKeepsString(text[1..], []);
      assert PrepMarks(text)[1..] == PrepString(text[1..]);
      assert NoNuls([]) == [];
    } else {
      PrepKeepsMeaning(text[1..]);
      NoNulTokensCons(Mark(text[0]), ReadMarks(text[1..]).value);
      assert PrepMarks(text)[1..] == PrepMarks(text[1..]);
    }
  }

  lemma NoNoTokens()
    ensures NoNulTokens([]) == []
  {
  }

  lemma {:induction false} PrepKeepsString(text: string, units: seq<int>)
    requires ReadString(text, units).Some?
    ensures ReadString(PrepString(text), NoNuls(units)) == Some(NoNulTokens(ReadString(text, units).value))
    decreases |text|
  {
    hide NoNulTokens, NoNuls, Escape, ReadMarks, PrepMarks, NulEscape;
    if text[0] == '"' {
      PrepKeepsMeaning(text[1..]);
      assert PrepString(text)[1..] == PrepMarks(text[1..]);
      NoNulTokensCons(Str(units), ReadMarks(text[1..]).value);
    } else if text[0] == '\\' {
      var (n, unit) := Escape(text);
      PrepKeepsString(text[n..], units + [unit]);
      NoNulsSnoc(units, unit);
      KeepsEscape(text, NoNuls(units));
    } else {
      PrepKeepsString(text[1..], units + [text[0] as int]);
      NoNulsSnoc(units, text[0] as int);
      assert PrepString(text)[1..] == PrepString(text[1..]);
    }
  }

  // One escape, rewritten or not.
  lemma KeepsEscape(text: string, units: seq<int>)
    requires Escape(text).0 > 0
    ensures var (n, unit) := Escape(text);
      ReadString(PrepString(text), units)
      == ReadString(PrepString(text[n..]), units + if unit == 0 then ['\\' as int, '0' as int] else [unit])
  {
    hide ReadString, PrepString;
    var (n, unit) := Escape(text);
    PrepEscape(text);
    var rest := PrepString(text[n..]);
    if NulEscape(text) {
      ReadBackslashZero(rest, units);
    } else {
      ReadEscape(text[..n], rest, units);
      assert text[..n] == text[..n] + "";
      EscapeWhole(text, n);
    }
  }

  lemma PrepEscape(text: string)
    requires Escape(text).0 > 0
    ensures var (n, unit) := Escape(text);
      && PrepString(text) == (if NulEscape(text) then "\\\\0" else text[..n]) + PrepString(text[n..])
      && (NulEscape(text) ==> n == 6) && (unit == 0 <==> NulEscape(text))
  {
    hide PrepString;
    NulIsZero(text);
    PrepTwo(text);
    if Escape(text).0 == 6 && !NulEscape(text) {
      var t := text[2..];
      FourHex(t);
      assert t[4..] == text[6..];
      assert text[..2] + t[..4] == text[..6];
    }
  }

  lemma PrepTwo(text: string)
    requires |text| >= 2 && text[0] == '\\'
    ensures PrepString(text) == if NulEscape(text) then "\\\\0" + PrepString(text[6..]) else text[..2] + PrepString(text[2..])
  {
    hide NulEscape, PrepMarks;
  }

  lemma NulIsZero(text: string)
    requires Escape(text).0 > 0
    ensures NulEscape(text) ==> Escape(text).0 == 6
    ensures Escape(text).1 == 0 <==> NulEscape(text)
    ensures Escape(text).0 == 2 || Escape(text).0 == 6
  {
  }

  lemma FourHex(t: string)
    requires |t| >= 4 && Hex(t[0]) >= 0 && Hex(t[1]) >= 0 && Hex(t[2]) >= 0 && Hex(t[3]) >= 0
    ensures PrepString(t) == t[..4] + PrepString(t[4..])
  {
    hide Hex, PrepString;
    var a, b, c, d, r := t[0], t[1], t[2], t[3], t[4..];
    Apart(a, b, c, d, r);
    Apart(a, b, c, d, PrepString(r));
    Head4(t);
    OneHex(d, r);
    OneHex(c, [d] + r);
    OneHex(b, [c] + ([d] + r));
    OneHex(a, [b] + ([c] + ([d] + r)));
  }

  lemma Head4(t: string)
    requires |t| >= 4
    ensures t == [t[0], t[1], t[2], t[3]] + t[4..] && t[..4] == [t[0], t[1], t[2], t[3]]
  {
  }

  lemma Apart(a: char, b: char, c: char, d: char, r: string)
    ensures [a] + ([b] + ([c] + ([d] + r))) == [a, b, c, d] + r
  {
  }

  lemma OneHex(c: char, r: string)
    requires Hex(c) >= 0
    ensures PrepString([c] + r) == [c] + PrepString(r)
  {
    assert ([c] + r)[1..] == r;
  }

  lemma ReadBackslashZero(rest: string, units: seq<int>)
    ensures ReadString("\\\\0" + rest, units) == ReadString(rest, units + ['\\' as int, '0' as int])
  {
    var t := "\\\\0" + rest;
    assert t[2..] == "0" + rest;
    assert ("0" + rest)[1..] == rest;
    assert units + ['\\' as int] + ['0' as int] == units + ['\\' as int, '0' as int];
  }

  lemma EscapeWhole(text: string, n: nat)
    requires n <= |text| && Escape(text).0 == n
    ensures n > 0 ==> Escape(text[..n]) == Escape(text)
  {
  }

  lemma ReadEscape(e: string, rest: string, units: seq<int>)
    requires Escape(e).0 == |e| > 0
    ensures ReadString(e + rest, units) == ReadString(rest, units + [Escape(e).1])
  {
    var t := e + rest;
    assert Escape(t) == Escape(e);
    assert t[|e|..] == rest;
  }

  lemma {:induction false} UnitsNoNul(s: string)
    ensures NoNuls(Units(s)) == Units(Sanitised(s))
    decreases |s|
  {
    if s != "" {
      UnitsNoNul(s[..|s| - 1]);
      UnitsAdd(Sanitised(s[..|s| - 1]), if s[|s| - 1] == 0 as char then "\\0" else [s[|s| - 1]]);
    }
  }

  function Sanitised(s: string): string {
    if s == "" then ""
    else Sanitised(s[..|s| - 1]) + if s[|s| - 1] == 0 as char then "\\0" else [s[|s| - 1]]
  }

  lemma SanitisedOne(s: string, c: char)
    ensures Sanitised(s + [c]) == Sanitised(s) + if c == '\0' then ['\\', '0'] else [c]
  {
    assert (s + [c])[..|s|] == s;
  }

  lemma {:induction false} UnitsAdd(a: string, b: string)
    ensures Units(a + b) == Units(a) + Units(b)
  {
  }

  // Printed, rewritten and read, any bytes come out as themselves with every NUL a backslash and a zero.
  lemma PrintedRewrittenRead(s: string)
    ensures ReadMarks(PrepMarks(JsonStr(s))) == Some([Str(Units(Sanitised(s)))])
  {
    hide JsonStr, PrepMarks, ReadString, NoNulTokens, NoNuls, Sanitised;
    JsonStrReadsBack(s, "");
    assert JsonStr(s) + "" == JsonStr(s);
    assert [Str(Units(s))] + [] == [Str(Units(s))];
    assert ReadMarks("") == Some([]);
    assert ReadMarks(JsonStr(s)) == Some([Str(Units(s))]);
    PrepKeepsMeaning(JsonStr(s));
    NoNulTokensCons(Str(Units(s)), []);
    NoNoTokens();
    UnitsNoNul(s);
    assert NoNulTokens([Str(Units(s))]) == [Str(NoNuls(Units(s)))] + [];
    assert ReadMarks(PrepMarks(JsonStr(s))) == Some(NoNulTokens([Str(Units(s))]));
    assert [Str(NoNuls(Units(s)))] + [] == [Str(Units(Sanitised(s)))];
  }
}
