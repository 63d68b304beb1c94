// What the hook makes of a transcript (hook/hook/record.py:242-466): which entries are messages, how they are
// numbered, who said them, and the rows that are queued for them. A transcript only grows, and is read again
// from the start each time.
module Transcript {
  import opened Bytes
  import opened OutboxTable
  import Results

  datatype Block = ToolUse(id: string, name: string) | ToolResult(useId: string) | Image | OtherBlock

  datatype Content = Plain(text: string) | Blocks(blocks: seq<Block>) | Nothing

  datatype Message = Message(role: string, content: Content, model: Option<string>)

  // A queued_command attachment: what was typed, by a person or by Claude Code itself.
  datatype Prompt = Prompt(human: bool, content: Content)

  datatype Entry = Entry(uuid: string, message: Option<Message>, prompt: Option<Prompt>)

  datatype Captured = Captured(number: nat, uuid: string, message: Message, midTurn: bool)

  // What all the rows of one reading have in common; the text of a message, its images noted, and whether a
  // text is nothing but reminders that Claude Code put there.
  datatype Reading = Reading(session: string, name: Option<string>, aiTitle: Option<string>, host: Option<string>,
                             text: Captured -> string, onlyReminders: string -> bool)

  // ---- which entries, and their numbers ----------------------------------------------------------------

  predicate Spoken(e: Entry) {
    e.message.Some? && (e.message.value.role == "user" || e.message.value.role == "assistant")
  }

  predicate Says(c: Content) {
    match c
    case Plain(text) => text != ""
    case Blocks(blocks) => blocks != []
    case Nothing => false
  }

  // _as_message: a message sent while Claude was still at work.
  function AsMessage(e: Entry): Option<Message> {
    if e.prompt.Some? && e.prompt.value.human && Says(e.prompt.value.content) && e.uuid != ""
    then Some(Message("user", e.prompt.value.content, None)) else None
  }

  function Turns(entries: seq<Entry>): nat {
    if entries == [] then 0
    else Turns(entries[..|entries| - 1]) + if Spoken(entries[|entries| - 1]) then 1 else 0
  }

  function CaptureOne(before: nat, e: Entry): (cs: seq<Captured>)
    ensures |cs| <= 1
  {
    if Spoken(e) then [Captured(before, e.uuid, e.message.value, false)]
    else if AsMessage(e).Some? then [Captured(if before == 0 then 0 else before - 1, e.uuid, AsMessage(e).value, true)]
    else []
  }

  function CapturedOf(entries: seq<Entry>): seq<Captured> {
    if entries == [] then []
    else
      var front := entries[..|entries| - 1];
      CapturedOf(front) + CaptureOne(Turns(front), entries[|entries| - 1])
  }

  // _capturable
  method Capturable(entries: seq<Entry>) returns (out: seq<Captured>)
    ensures out == CapturedOf(entries)
  {
    out := [];
    var number := -1;
    for i := 0 to |entries|
      invariant out == CapturedOf(entries[..i]) && number == Turns(entries[..i]) as int - 1
    {
      assert entries[..i + 1][..i] == entries[..i];
      var e := entries[i];
      if Spoken(e) {
        number := number + 1;
        out := out + [Captured(number, e.uuid, e.message.value, false)];
      } else {
        var queued := AsMessage(e);
        if queued.Some? {
          out := out + [Captured(if number > 0 then number else 0, e.uuid, queued.value, true)];
        }
      }
    }
    assert entries[..|entries|] == entries;
  }

  // Messages already captured keep their places and numbers, whatever is said later.
  lemma {:induction false} NumbersStay(entries: seq<Entry>, more: seq<Entry>)
    ensures CapturedOf(entries) <= CapturedOf(entries + more)
    decreases |more|
  {
    if more == [] {
      assert entries + more == entries;
    } else {
      var front := more[..|more| - 1];
      assert (entries + more)[..|entries + more| - 1] == entries + front;
      NumbersStay(entries, front);
    }
  }

  function Ordinary(cs: seq<Captured>): nat {
    if cs == [] then 0 else Ordinary(cs[..|cs| - 1]) + if cs[|cs| - 1].midTurn then 0 else 1
  }

  // Ordinary messages are numbered 0, 1, 2; one sent mid-turn has the number of the last before it, or 0.
  lemma {:induction false} Numbered(entries: seq<Entry>, k: nat)
    requires k < |CapturedOf(entries)|
    ensures Ordinary(CapturedOf(entries)) == Turns(entries)
    ensures var cs := CapturedOf(entries); var before := Ordinary(cs[..k]);
      cs[k].number == if cs[k].midTurn && before > 0 then before - 1 else before
    decreases |entries|
  {
    var cs, n := CapturedOf(entries), |entries| - 1;
    var front := CapturedOf(entries[..n]);
    AllOrdinary(entries);
    AllOrdinary(entries[..n]);
    if k < |front| {
      Numbered(entries[..n], k);
      assert cs[..k] == front[..k];
    } else {
      assert cs[..k] == front;
    }
  }

  // That is, the count of the messages before it that are not mid-turn.
  lemma {:induction false} OrdinaryCounts(cs: seq<Captured>)
    ensures Ordinary(cs) == |set i | 0 <= i < |cs| && !cs[i].midTurn|
    decreases |cs|
  {
    if cs != [] {
      OrdinaryCounts(cs[..|cs| - 1]);
      CountsOn(cs);
    }
  }

  lemma CountsOn(cs: seq<Captured>)
    requires cs != []
    ensures var n := |cs| - 1;
      var before := |set i | 0 <= i < n && !cs[..n][i].midTurn|;
      |set i | 0 <= i < |cs| && !cs[i].midTurn| == before + if cs[n].midTurn then 0 else 1
  {
    var n := |cs| - 1;
    var before, now := set i | 0 <= i < n && !cs[..n][i].midTurn, set i | 0 <= i < |cs| && !cs[i].midTurn;
    forall i
      ensures i in now <==> i in before || (i == n && !cs[n].midTurn)
    {
      if 0 <= i < n {
        assert cs[..n][i] == cs[i];
      }
    }
    assert now == if cs[n].midTurn then before else before + {n};
  }

  lemma CapturedOn(entries: seq<Entry>, e: Entry)
    ensures CapturedOf([]) == [] && CapturedOf(entries + [e]) == CapturedOf(entries) + CaptureOne(Turns(entries), e)
  {
    hide CaptureOne, Turns;
    assert (entries + [e])[..|entries|] == entries && (entries + [e])[|entries|] == e;
  }

  // One entry more: a message of either side is the next in number; what a person typed while Claude was at
  // work, and that has an id, is a user's message under the last number given; nothing else is captured.
  lemma CapturedOneMore(entries: seq<Entry>, e: Entry)
    ensures CapturedOf([]) == []
    ensures var was, now := CapturedOf(entries), CapturedOf(entries + [e]);
      var n := |set i | 0 <= i < |was| && !was[i].midTurn|;
      var ordinary := e.message.Some? && (e.message.value.role == "user" || e.message.value.role == "assistant");
      var typed := e.prompt.Some? && e.prompt.value.human && e.uuid != "" &&
        match e.prompt.value.content {
          case Plain(text) => text != ""
          case Blocks(blocks) => blocks != []
          case Nothing => false
        };
      && (ordinary ==> now == was + [Captured(n, e.uuid, e.message.value, false)])
      && (!ordinary && typed ==>
            now == was + [Captured(if n > 0 then n - 1 else 0, e.uuid,
                                   Message("user", e.prompt.value.content, None), true)])
      && (!ordinary && !typed ==> now == was)
  {
    hide CapturedOf, Turns, Ordinary;
    AllOrdinary(entries);
    OrdinaryCounts(CapturedOf(entries));
    CapturedOn(entries, e);
  }

  lemma {:induction false} AllOrdinary(entries: seq<Entry>)
    ensures Ordinary(CapturedOf(entries)) == Turns(entries)
    decreases |entries|
  {
    if entries != [] {
      var n := |entries| - 1;
      AllOrdinary(entries[..n]);
      var front, one := CapturedOf(entries[..n]), CaptureOne(Turns(entries[..n]), entries[n]);
      if one == [] {
        assert CapturedOf(entries) == front;
      } else {
        assert one == [one[0]];
        assert CapturedOf(entries)[..|front|] == front;
      }
    }
  }

  // Later ordinary messages have greater numbers.
  lemma NumbersRise(entries: seq<Entry>, i: nat, k: nat)
    requires i < k < |CapturedOf(entries)|
    ensures var cs := CapturedOf(entries);
      && cs[i].number <= cs[k].number
      && (!cs[i].midTurn && !cs[k].midTurn ==> cs[i].number < cs[k].number)
  {
    var cs := CapturedOf(entries);
    Numbered(entries, i);
    Numbered(entries, k);
    OrdinaryGrows(cs, i, k);
  }

  lemma {:induction false} OrdinaryGrows(cs: seq<Captured>, i: nat, k: nat)
    requires i < k <= |cs|
    ensures Ordinary(cs[..i]) + (if cs[i].midTurn then 0 else 1) <= Ordinary(cs[..k])
    decreases k
  {
    assert cs[..k][..k - 1] == cs[..k - 1];
    if i < k - 1 {
      OrdinaryGrows(cs, i, k - 1);
    }
  }

  // ---- who said it ----------------------------------------------------------------------------------------

  predicate HasResult(bs: seq<Block>) {
    exists b :: b in bs && b.ToolResult?
  }

  predicate Typed(content: Content, onlyReminders: string -> bool) {
    || (content.Plain? && !onlyReminders(content.text))
    || (content.Blocks? && Block.Image in content.blocks && !HasResult(content.blocks))
  }

  // classify_author: a person's is a text of more than reminders, or a picture that no tool brought.
  method ClassifyAuthor(role: string, content: Content, onlyReminders: string -> bool) returns (author: string)
    ensures author == AuthorOf(role, content, onlyReminders)
    ensures author == "claude" <==> role == "assistant"
    ensures author == "martin" <==> role != "assistant" && Typed(content, onlyReminders)
    ensures author == "claude" || author == "martin" || author == "tool"
  {
    if role == "assistant" { return "claude"; }
    match content {
      case Plain(text) =>
        return if onlyReminders(text) then "tool" else "martin";
      case Blocks(blocks) =>
        for i := 0 to |blocks|
          invariant forall k :: 0 <= k < i ==> !blocks[k].ToolResult?
        {
          if blocks[i].ToolResult? { return "tool"; }
        }
        for i := 0 to |blocks|
          invariant forall k :: 0 <= k < i ==> !blocks[k].Image?
        {
          if blocks[i].Image? { return "martin"; }
        }
        return "tool";
      case Nothing =>
        return "tool";
    }
  }

  function AuthorOf(role: string, content: Content, onlyReminders: string -> bool): string {
    if role == "assistant" then "claude"
    else match content
      case Plain(text) => if onlyReminders(text) then "tool" else "martin"
      case Blocks(blocks) => if !HasResult(blocks) && Block.Image in blocks then "martin" else "tool"
      case Nothing => "tool"
  }

  // ---- the names of tools -----------------------------------------------------------------------------------

  function Naming(bs: seq<Block>, names: map<string, string>): map<string, string> {
    if bs == [] then names
    else
      var before, b := Naming(bs[..|bs| - 1], names), bs[|bs| - 1];
      if b.ToolUse? && b.id != "" && b.name != "" then before[b.id := b.name] else before
  }

  function ToolNames(entries: seq<Entry>): map<string, string> {
    if entries == [] then map[]
    else
      var before, e := ToolNames(entries[..|entries| - 1]), entries[|entries| - 1];
      if e.message.Some? && e.message.value.role == "assistant" && e.message.value.content.Blocks?
      then Naming(e.message.value.content.blocks, before) else before
  }

  // The namings of a transcript, in order: every call with an id and a name in a message of Claude's.
  function NamingsIn(bs: seq<Block>): seq<(string, string)> {
    if bs == [] then []
    else
      var b := bs[|bs| - 1];
      NamingsIn(bs[..|bs| - 1]) + if b.ToolUse? && b.id != "" && b.name != "" then [(b.id, b.name)] else []
  }

  function Namings(entries: seq<Entry>): seq<(string, string)> {
    if entries == [] then []
    else
      var e := entries[|entries| - 1];
      Namings(entries[..|entries| - 1])
      + if e.message.Some? && e.message.value.role == "assistant" && e.message.value.content.Blocks?
        then NamingsIn(e.message.value.content.blocks) else []
  }

  // The last that names the id.
  function LastNamed(ns: seq<(string, string)>, id: string): (r: Option<nat>)
    ensures r.Some? ==> r.value < |ns| && ns[r.value].0 == id && forall k :: r.value < k < |ns| ==> ns[k].0 != id
    ensures r.None? ==> forall k :: 0 <= k < |ns| ==> ns[k].0 != id
  {
    if ns == [] then None
    else if ns[|ns| - 1].0 == id then Some(|ns| - 1)
    else LastNamed(ns[..|ns| - 1], id)
  }

  ghost predicate NamedBy(names: map<string, string>, ns: seq<(string, string)>) {
    forall id :: if LastNamed(ns, id).None? then id !in names else id in names && names[id] == ns[LastNamed(ns, id).value].1
  }

  lemma OneMoreNaming(names: map<string, string>, ns: seq<(string, string)>, id: string, name: string)
    requires NamedBy(names, ns)
    ensures NamedBy(names[id := name], ns + [(id, name)])
  {
    var more := ns + [(id, name)];
    assert more[..|ns|] == ns;
    forall x
      ensures LastNamed(more, x) == if x == id then Some(|ns|) else LastNamed(ns, x)
    {
    }
  }

  lemma {:induction false} NamingIs(bs: seq<Block>, names: map<string, string>, ns: seq<(string, string)>)
    requires NamedBy(names, ns)
    ensures NamedBy(Naming(bs, names), ns + NamingsIn(bs))
    decreases |bs|
  {
    hide NamedBy;
    if bs == [] {
      assert ns + [] == ns;
    } else {
      var front, b := bs[..|bs| - 1], bs[|bs| - 1];
      NamingIs(front, names, ns);
      if b.ToolUse? && b.id != "" && b.name != "" {
        OneMoreNaming(Naming(front, names), ns + NamingsIn(front), b.id, b.name);
        assert ns + (NamingsIn(front) + [(b.id, b.name)]) == ns + NamingsIn(front) + [(b.id, b.name)];
      } else {
        assert NamingsIn(front) + [] == NamingsIn(front);
      }
    }
  }

  // A call id has the name that the last call with that id gave it, and none if no call did.
  lemma {:induction false} LastNamingWins(entries: seq<Entry>)
    ensures NamedBy(ToolNames(entries), Namings(entries))
    decreases |entries|
  {
    hide Naming, NamingsIn;
    if entries != [] {
      var front, e := entries[..|entries| - 1], entries[|entries| - 1];
      LastNamingWins(front);
      if e.message.Some? && e.message.value.role == "assistant" && e.message.value.content.Blocks? {
        NamingIs(e.message.value.content.blocks, ToolNames(front), Namings(front));
      } else {
        assert Namings(front) + [] == Namings(front);
      }
    }
  }

  // A call with that id and a name, in a message of Claude's.
  predicate Call(bs: seq<Block>, k: int, id: string) {
    0 <= k < |bs| && bs[k].ToolUse? && bs[k].id == id && id != "" && bs[k].name != ""
  }

  predicate CallAt(entries: seq<Entry>, i: int, k: int, id: string) {
    && 0 <= i < |entries| && entries[i].message.Some? && entries[i].message.value.role == "assistant"
    && entries[i].message.value.content.Blocks? && Call(entries[i].message.value.content.blocks, k, id)
  }

  lemma {:induction false} NamedInBlocks(bs: seq<Block>, names: map<string, string>, id: string, k: nat)
    requires Call(bs, k, id) && forall m :: k < m < |bs| ==> !Call(bs, m, id)
    ensures id in Naming(bs, names) && Naming(bs, names)[id] == bs[k].name
    decreases |bs|
  {
    var n := |bs| - 1;
    if k < n {
      assert !Call(bs, n, id);
      assert forall m :: 0 <= m < n ==> Call(bs[..n], m, id) == Call(bs, m, id);
      NamedInBlocks(bs[..n], names, id, k);
    }
  }

  lemma {:induction false} NotNamedInBlocks(bs: seq<Block>, names: map<string, string>, id: string)
    requires forall m :: 0 <= m < |bs| ==> !Call(bs, m, id)
    ensures if id in names then id in Naming(bs, names) && Naming(bs, names)[id] == names[id]
            else id !in Naming(bs, names)
    decreases |bs|
  {
    if bs != [] {
      var n := |bs| - 1;
      assert !Call(bs, n, id);
      assert forall m :: 0 <= m < n ==> Call(bs[..n], m, id) == Call(bs, m, id);
      NotNamedInBlocks(bs[..n], names, id);
    }
  }

  // What an id is known as, read off the transcript: the name in the last call with that id.
  lemma {:induction false} NameInLastCall(entries: seq<Entry>, id: string, i: nat, k: nat)
    requires CallAt(entries, i, k, id)
    requires forall j, m :: i < j || (i == j && k < m) ==> !CallAt(entries, j, m, id)
    ensures id in ToolNames(entries) && ToolNames(entries)[id] == entries[i].message.value.content.blocks[k].name
    decreases |entries|
  {
    hide Call, Naming;
    var n := |entries| - 1;
    if i < n {
      assert forall j, m :: CallAt(entries[..n], j, m, id) ==> CallAt(entries, j, m, id);
      NameInLastCall(entries[..n], id, i, k);
      LastEntryNames(entries, id);
    } else {
      var bs := entries[n].message.value.content.blocks;
      assert forall m :: Call(bs, m, id) ==> CallAt(entries, n, m, id);
      NamedInBlocks(bs, ToolNames(entries[..n]), id, k);
    }
  }

  lemma LastEntryNames(entries: seq<Entry>, id: string)
    requires |entries| > 0 && forall j, m :: j >= |entries| - 1 ==> !CallAt(entries, j, m, id)
    ensures var was, now := ToolNames(entries[..|entries| - 1]), ToolNames(entries);
      if id in was then id in now && now[id] == was[id] else id !in now
  {
    hide Call, Naming;
    var n := |entries| - 1;
    if entries[n].message.Some? && entries[n].message.value.content.Blocks? && entries[n].message.value.role == "assistant" {
      var bs := entries[n].message.value.content.blocks;
      assert forall m :: Call(bs, m, id) ==> CallAt(entries, n, m, id);
      NotNamedInBlocks(bs, ToolNames(entries[..n]), id);
    }
  }

  lemma {:induction false} NoNameWithoutCall(entries: seq<Entry>, id: string)
    requires forall i, k :: !CallAt(entries, i, k, id)
    ensures id !in ToolNames(entries)
    decreases |entries|
  {
    hide Call;
    if entries != [] {
      var n := |entries| - 1;
      assert forall i, k :: CallAt(entries[..n], i, k, id) ==> CallAt(entries, i, k, id);
      NoNameWithoutCall(entries[..n], id);
      LastEntryNames(entries, id);
    }
  }

  // _tool_use_names
  method ToolUseNames(entries: seq<Entry>) returns (names: map<string, string>)
    ensures names == ToolNames(entries) && NamedBy(names, Namings(entries))
  {
    names := map[];
    for i := 0 to |entries|
      invariant names == ToolNames(entries[..i])
    {
      assert entries[..i + 1][..i] == entries[..i];
      var e := entries[i];
      if e.message.Some? && e.message.value.role == "assistant" && e.message.value.content.Blocks? {
        var blocks, before := e.message.value.content.blocks, names;
        for k := 0 to |blocks|
          invariant names == Naming(blocks[..k], before)
        {
          assert blocks[..k + 1][..k] == blocks[..k];
          var b := blocks[k];
          if b.ToolUse? && b.id != "" && b.name != "" {
            names := names[b.id := b.name];
          }
        }
        assert blocks[..|blocks|] == blocks;
      }
    }
    assert entries[..|entries|] == entries;
    LastNamingWins(entries);
  }

  function Lookup(names: map<string, string>, id: string): Option<string> {
    if id in names then Some(names[id]) else None
  }

  // The first tool result's.
  function ToolNameIn(bs: seq<Block>, names: map<string, string>): Option<string> {
    if bs == [] then None
    else if bs[0].ToolResult? then Lookup(names, bs[0].useId)
    else ToolNameIn(bs[1..], names)
  }

  function ToolNameFor(content: Content, names: map<string, string>): Option<string> {
    if content.Blocks? then ToolNameIn(content.blocks, names) else None
  }

  // ---- the rows ---------------------------------------------------------------------------------------------

  function Fallback(session: string, number: nat): string {
    session + ":" + Results.Decimal(number)
  }

  function RecordOf(c: Captured, r: Reading, names: map<string, string>): Record {
    var author := if c.midTurn then "martin" else AuthorOf(c.message.role, c.message.content, r.onlyReminders);
    Record(if c.uuid != "" then c.uuid else Fallback(r.session, c.number), r.session, r.name, r.aiTitle, r.host,
           c.message.role, author, if author == "tool" then ToolNameFor(c.message.content, names) else None,
           if author == "claude" then c.message.model else None, r.text(c), c.number)
  }

  function RecordsOf(cs: seq<Captured>, r: Reading, names: map<string, string>): seq<Record> {
    if cs == [] then []
    else
      var c := cs[|cs| - 1];
      RecordsOf(cs[..|cs| - 1], r, names) + if r.text(c) != "" then [RecordOf(c, r, names)] else []
  }

  lemma RecordSays(c: Captured, r: Reading, names: map<string, string>)
    ensures RecordOf(c, r, names).content == r.text(c) && RecordOf(c, r, names).session == r.session
  {
    hide AuthorOf, ToolNameFor;
  }

  // A row, column by column. A person's word is taken for a person's; a tool's row has the name of the tool
  // whose result comes first in it, and only Claude's has a model.
  lemma RowMeans(c: Captured, r: Reading, names: map<string, string>)
    ensures var row := RecordOf(c, r, names);
      && row.uuid == (if c.uuid != "" then c.uuid else r.session + ":" + Results.Decimal(c.number))
      && row.session == r.session && row.name == r.name && row.aiTitle == r.aiTitle && row.host == r.host
      && row.role == c.message.role && row.content == r.text(c) && row.seqNum == c.number
      && (row.author == "claude" <==> !c.midTurn && c.message.role == "assistant")
      && row.model == (if row.author == "claude" then c.message.model else None)
      && (c.midTurn ==> row.author == "martin")
      && (!c.midTurn && c.message.role != "assistant" ==>
            row.author == match c.message.content {
              case Plain(text) => if r.onlyReminders(text) then "tool" else "martin"
              case Blocks(blocks) =>
                if (exists i :: 0 <= i < |blocks| && blocks[i].ToolResult?) then "tool"
                else if (exists i :: 0 <= i < |blocks| && blocks[i].Image?) then "martin"
                else "tool"
              case Nothing => "tool"
            })
  {
    hide ToolNameFor, Results.Decimal;
  }

  lemma {:induction false} FirstResult(bs: seq<Block>, names: map<string, string>, i: nat)
    requires i < |bs| && bs[i].ToolResult? && forall k :: 0 <= k < i ==> !bs[k].ToolResult?
    ensures ToolNameIn(bs, names) == if bs[i].useId in names then Some(names[bs[i].useId]) else None
    decreases |bs|
  {
    if i > 0 {
      assert !bs[0].ToolResult? && bs[1..][i - 1] == bs[i];
      FirstResult(bs[1..], names, i - 1);
    }
  }

  lemma {:induction false} NoResult(bs: seq<Block>, names: map<string, string>)
    requires forall i :: 0 <= i < |bs| ==> !bs[i].ToolResult?
    ensures ToolNameIn(bs, names) == None
    decreases |bs|
  {
    if bs != [] {
      NoResult(bs[1..], names);
    }
  }

  // Where a tool's results are in a row, it has the name of the first one's call, if that has one.
  lemma RowsTool(c: Captured, r: Reading, names: map<string, string>, i: nat)
    ensures var row := RecordOf(c, r, names);
      && (row.author != "tool" || !c.message.content.Blocks? ==> row.toolName == None)
      && (row.author == "tool" && c.message.content.Blocks? ==>
            var bs := c.message.content.blocks;
            && (i < |bs| && bs[i].ToolResult? && (forall k :: 0 <= k < i ==> !bs[k].ToolResult?) ==>
                  row.toolName == if bs[i].useId in names then Some(names[bs[i].useId]) else None)
            && ((forall k :: 0 <= k < |bs| ==> !bs[k].ToolResult?) ==> row.toolName == None))
  {
    hide AuthorOf, ToolNameIn;
    if c.message.content.Blocks? {
      var bs := c.message.content.blocks;
      if i < |bs| && bs[i].ToolResult? && forall k :: 0 <= k < i ==> !bs[k].ToolResult? {
        FirstResult(bs, names, i);
      } else if forall k :: 0 <= k < |bs| ==> !bs[k].ToolResult? {
        NoResult(bs, names);
      }
    }
  }

  // A row for every message that says something, and for no other.
  lemma {:induction false} RecordsSay(cs: seq<Captured>, r: Reading, names: map<string, string>)
    ensures var records := RecordsOf(cs, r, names);
      && (forall rec :: rec in records ==> rec.content != "" && rec.session == r.session)
      && (forall c :: c in cs && r.text(c) != "" ==> RecordOf(c, r, names) in records)
    decreases |cs|
  {
    hide RecordOf;
    if cs != [] {
      RecordsSay(cs[..|cs| - 1], r, names);
      RecordSays(cs[|cs| - 1], r, names);
    }
  }

  // The rows follow the messages that have text, and no others.
  lemma RowsOneMore(cs: seq<Captured>, c: Captured, r: Reading, names: map<string, string>)
    ensures RecordsOf([], r, names) == []
    ensures r.text(c) == "" ==> RecordsOf(cs + [c], r, names) == RecordsOf(cs, r, names)
    ensures r.text(c) != "" ==>
              RecordsOf(cs + [c], r, names) == RecordsOf(cs, r, names) + [RecordOf(c, r, names)]
  {
    hide RecordOf;
    assert (cs + [c])[..|cs|] == cs && (cs + [c])[|cs|] == c;
  }

  method BuildRecord(c: Captured, r: Reading, names: map<string, string>) returns (rec: Record)
    ensures rec == RecordOf(c, r, names)
  {
    var author := "martin";
    if !c.midTurn {
      author := ClassifyAuthor(c.message.role, c.message.content, r.onlyReminders);
    }
    rec := Record(if c.uuid != "" then c.uuid else Fallback(r.session, c.number), r.session, r.name, r.aiTitle, r.host,
                  c.message.role, author, if author == "tool" then ToolNameFor(c.message.content, names) else None,
                  if author == "claude" then c.message.model else None, r.text(c), c.number);
  }

  // build_records
  method BuildRecords(entries: seq<Entry>, r: Reading) returns (records: seq<Record>, messages: seq<Captured>)
    ensures messages == CapturedOf(entries)
    ensures records == RecordsOf(messages, r, ToolNames(entries))
    ensures forall rec :: rec in records ==> rec.content != "" && rec.session == r.session
    ensures forall c :: c in messages && r.text(c) != "" ==> RecordOf(c, r, ToolNames(entries)) in records
  {
    hide RecordOf;
    var names := ToolUseNames(entries);
    messages := Capturable(entries);
    records := [];
    for i := 0 to |messages|
      invariant records == RecordsOf(messages[..i], r, names)
    {
      assert messages[..i + 1][..i] == messages[..i];
      if r.text(messages[i]) != "" {
        var rec := BuildRecord(messages[i], r, names);
        records := records + [rec];
      }
    }
    assert messages[..|messages|] == messages;
    RecordsSay(messages, r, names);
  }

  // Rows of an earlier reading come out again as they were, but for the name of a tool not named till later.
  lemma {:induction false} RecordsStay(cs: seq<Captured>, more: seq<Captured>, r: Reading, names: map<string, string>, later: map<string, string>)
    ensures var was, now := RecordsOf(cs, r, names), RecordsOf(cs + more, r, later);
      && |was| <= |now| && (more == [] ==> |was| == |now|)
      && forall i :: 0 <= i < |was| ==> now[i].(toolName := None) == was[i].(toolName := None)
    decreases |cs + more|
  {
    hide RecordOf;
    if more != [] {
      assert (cs + more)[..|cs + more| - 1] == cs + more[..|more| - 1];
      RecordsStay(cs, more[..|more| - 1], r, names, later);
    } else if cs != [] {
      assert cs + more == cs && cs[..|cs| - 1] + [] == cs[..|cs| - 1];
      RecordsStay(cs[..|cs| - 1], [], r, names, later);
      OnlyTheTool(cs[|cs| - 1], r, names, later);
    }
  }

  lemma OnlyTheTool(c: Captured, r: Reading, names: map<string, string>, later: map<string, string>)
    ensures RecordOf(c, r, later).(toolName := None) == RecordOf(c, r, names).(toolName := None)
  {
    hide ToolNameFor, AuthorOf;
  }

  lemma GrowingTranscript(entries: seq<Entry>, more: seq<Entry>, r: Reading)
    ensures var was := RecordsOf(CapturedOf(entries), r, ToolNames(entries));
      var now := RecordsOf(CapturedOf(entries + more), r, ToolNames(entries + more));
      |was| <= |now| && forall i :: 0 <= i < |was| ==> now[i].(toolName := None) == was[i].(toolName := None)
  {
    NumbersStay(entries, more);
    var was, now := CapturedOf(entries), CapturedOf(entries + more);
    assert was + now[|was|..] == now;
    RecordsStay(was, now[|was|..], r, ToolNames(entries), ToolNames(entries + more));
  }

  // ---- no two rows for one id ----------------------------------------------------------------------------------

  // Where entries have ids they are their own, and none looks like an id made up for one without.
  ghost predicate OwnIds(cs: seq<Captured>, session: string) {
    && (forall i, k :: 0 <= i < k < |cs| && cs[i].uuid != "" ==> cs[i].uuid != cs[k].uuid)
    && (forall i, n :: 0 <= i < |cs| ==> cs[i].uuid != Fallback(session, n))
  }

  lemma OneDigit(n: nat)
    ensures n < 10 <==> |Results.Decimal(n)| == 1
  {
    if n >= 10 {
      assert |Results.Decimal(n / 10)| >= 1;
    }
  }

  lemma {:induction false} DecimalsDiffer(a: nat, b: nat)
    requires Results.Decimal(a) == Results.Decimal(b)
    ensures a == b
    decreases a
  {
    var s, t := Results.Decimal(a), Results.Decimal(b);
    OneDigit(a);
    OneDigit(b);
    if a < 10 || b < 10 {
      assert s[|s| - 1] == t[|t| - 1];
    } else {
      assert s[..|s| - 1] == Results.Decimal(a / 10) && t[..|t| - 1] == Results.Decimal(b / 10);
      assert s[|s| - 1] == '0' + (a % 10) as char && t[|t| - 1] == '0' + (b % 10) as char;
      DecimalsDiffer(a / 10, b / 10);
    }
  }

  lemma FallbacksDiffer(session: string, a: nat, b: nat)
    requires Fallback(session, a) == Fallback(session, b)
    ensures a == b
  {
    assert Fallback(session, a)[|session| + 1..] == Results.Decimal(a);
    assert Fallback(session, b)[|session| + 1..] == Results.Decimal(b);
    DecimalsDiffer(a, b);
  }

  // Only messages of an ordinary turn go without an id of their own.
  lemma {:induction false} MidTurnHasId(entries: seq<Entry>)
    ensures forall c :: c in CapturedOf(entries) && c.midTurn ==> c.uuid != ""
    decreases |entries|
  {
    if entries != [] {
      MidTurnHasId(entries[..|entries| - 1]);
    }
  }

  // So every message captured gets a row of its own; with ids made up for mid-turn messages too, one could
  // take its predecessor's and be left out as already there.
  lemma IdsDiffer(entries: seq<Entry>, r: Reading, names: map<string, string>, i: nat, k: nat)
    requires i < k < |CapturedOf(entries)| && OwnIds(CapturedOf(entries), r.session)
    ensures RecordOf(CapturedOf(entries)[i], r, names).uuid != RecordOf(CapturedOf(entries)[k], r, names).uuid
  {
    hide AuthorOf, ToolNameFor, Results.Decimal;
    var a, b := CapturedOf(entries)[i], CapturedOf(entries)[k];
    MidTurnHasId(entries);
    if a.uuid == "" && b.uuid == "" {
      NumbersRise(entries, i, k);
      if Fallback(r.session, a.number) == Fallback(r.session, b.number) {
        FallbacksDiffer(r.session, a.number, b.number);
      }
    }
  }
}
