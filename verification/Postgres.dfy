// What the drain writes to Postgres (hook/hook/drain.py:147-230): one conversation and its messages a
// transaction, upserts that only ever move a column towards better information.
module Postgres {
  import opened Bytes
  import opened OutboxTable

  type Vector = seq<real>

  datatype Message = Message(session: string, role: string, author: string, toolName: Option<string>,
                             model: Option<string>, content: string, embedding: Option<Vector>, seqNum: int)

  datatype Conversation = Conversation(name: Option<string>, aiTitle: Option<string>, host: Option<string>)

  datatype Store = Store(conversations: map<string, Conversation>, messages: map<string, Message>)

  // _UPSERT_MESSAGE
  function Upsert(messages: map<string, Message>, r: Record, embedding: Option<Vector>): (m: map<string, Message>)
    ensures m.Keys == messages.Keys + {r.uuid}
    ensures forall u :: u in messages && u != r.uuid ==> m[u] == messages[u]
  {
    if r.uuid !in messages then
      messages[r.uuid := Message(r.session, r.role, r.author, r.toolName, r.model, r.content, embedding, r.seqNum)]
    else
      var was := messages[r.uuid];
      messages[r.uuid := Message(
        was.session,
        r.role,
        if r.author == "unknown" then was.author else r.author,
        Coalesce(r.toolName, was.toolName),
        Coalesce(r.model, was.model),
        r.content,
        if r.content == was.content then Coalesce(embedding, was.embedding) else embedding,
        was.seqNum)]
  }

  // The embedding a row is written with: none if the store already holds one of the same text, else
  // the provider's, if it answers; an empty vector is no answer.
  function EmbeddingFor(stored: map<string, Message>, r: Record, up: bool, embed: string -> Vector): Option<Vector> {
    if r.uuid in stored && stored[r.uuid].embedding.Some? && stored[r.uuid].content == r.content then None
    else if up then Some(embed(r.content))
    else None
  }

  // The rows with text, upserted in order; up says for each whether the provider answered. What is
  // stored is looked up once, before the first.
  function UpsertAll(stored: map<string, Message>, rows: seq<Snap>, up: seq<bool>, embed: string -> Vector): map<string, Message>
    requires |up| == |rows|
  {
    if rows == [] then stored
    else
      var before, r := UpsertAll(stored, rows[..|rows| - 1], up[..|rows| - 1], embed), rows[|rows| - 1].row.rec;
      if r.content == "" then before
      else Upsert(before, r, EmbeddingFor(stored, r, up[|rows| - 1], embed))
  }

  function LastName(rows: seq<Snap>): Option<string> {
    if rows == [] then None
    else if Truthy(rows[|rows| - 1].row.rec.name) then rows[|rows| - 1].row.rec.name
    else LastName(rows[..|rows| - 1])
  }

  function LastAiTitle(rows: seq<Snap>): Option<string> {
    if rows == [] then None
    else if Truthy(rows[|rows| - 1].row.rec.aiTitle) then rows[|rows| - 1].row.rec.aiTitle
    else LastAiTitle(rows[..|rows| - 1])
  }

  function UpsertConversation(cs: map<string, Conversation>, rows: seq<Snap>): map<string, Conversation>
    requires rows != []
  {
    var first := rows[0].row.rec;
    var name, aiTitle := LastName(rows), LastAiTitle(rows);
    if first.session !in cs then cs[first.session := Conversation(name, aiTitle, first.host)]
    else
      var was := cs[first.session];
      cs[first.session := Conversation(Coalesce(name, was.name), Coalesce(aiTitle, was.aiTitle),
                                       Coalesce(was.host, first.host))]
  }

  // _write_session, as one transaction.
  function WriteSession(s: Store, rows: seq<Snap>, up: seq<bool>, embed: string -> Vector): Store
    requires rows != [] && |up| == |rows|
  {
    Store(UpsertConversation(s.conversations, rows), UpsertAll(s.messages, rows, up, embed))
  }

  // ---- what every write keeps ------------------------------------------------------------------------

  // A vector is only ever stored with the text it was made from.
  predicate Describes(m: Message, embed: string -> Vector) {
    m.embedding.Some? ==> m.embedding.value == embed(m.content)
  }

  ghost predicate AllDescribe(messages: map<string, Message>, embed: string -> Vector) {
    forall u :: u in messages ==> Describes(messages[u], embed)
  }

  // From was to now nothing known is forgotten.
  predicate Improves(was: Message, now: Message) {
    && now.session == was.session && now.seqNum == was.seqNum
    && (was.author != "unknown" ==> now.author != "unknown")
    && (was.toolName.Some? ==> now.toolName.Some?)
    && (was.model.Some? ==> now.model.Some?)
  }

  ghost predicate AllImprove(was: map<string, Message>, now: map<string, Message>) {
    forall u :: u in was ==> u in now && Improves(was[u], now[u])
  }

  lemma UpsertKeeps(messages: map<string, Message>, r: Record, embedding: Option<Vector>, embed: string -> Vector)
    requires AllDescribe(messages, embed)
    requires embedding.Some? ==> embedding.value == embed(r.content)
    ensures var m := Upsert(messages, r, embedding);
      && AllDescribe(m, embed) && AllImprove(messages, m) && r.uuid in m && m[r.uuid].content == r.content
      && (forall u :: u in m && u != r.uuid ==> u in messages && m[u] == messages[u])
  {
  }

  lemma AllImproveOn(a: map<string, Message>, b: map<string, Message>, c: map<string, Message>)
    requires AllImprove(a, b) && AllImprove(b, c)
    ensures AllImprove(a, c)
  {
  }

  // Where the text of each message came from: it was there before, or some row of the batch holds it.
  ghost predicate TextsFrom(was: map<string, Message>, rows: seq<Snap>, now: map<string, Message>) {
    forall u :: u in now ==> (u in was && now[u].content == was[u].content) || HoldsText(rows, u, now[u].content)
  }

  ghost predicate AllWritten(rows: seq<Snap>, now: map<string, Message>) {
    forall s :: s in rows && s.row.rec.content != "" ==> s.row.rec.uuid in now
  }

  // Stored rows never describe other text, and columns only move towards better information, through
  // any one write; the rows written are there afterwards, with text the batch held.
  lemma {:induction false} UpsertAllKeeps(stored: map<string, Message>, rows: seq<Snap>, up: seq<bool>, embed: string -> Vector)
    requires |up| == |rows| && AllDescribe(stored, embed)
    ensures var m := UpsertAll(stored, rows, up, embed);
      AllDescribe(m, embed) && AllImprove(stored, m) && AllWritten(rows, m) && TextsFrom(stored, rows, m)
    decreases |rows|
  {
    hide Upsert, HoldsText, AllDescribe, Improves;
    if rows == [] {
      NothingImproves(stored);
    } else {
      var n := |rows| - 1;
      var front, last := rows[..n], rows[n];
      var before := UpsertAll(stored, front, up[..n], embed);
      UpsertAllKeeps(stored, front, up[..n], embed);
      HoldsTextMore(front, last);
      assert rows == front + [last];
      if last.row.rec.content != "" {
        var e := EmbeddingFor(stored, last.row.rec, up[n], embed);
        UpsertKeeps(before, last.row.rec, e, embed);
        AllImproveOn(stored, before, Upsert(before, last.row.rec, e));
      }
    }
  }

  lemma NothingImproves(stored: map<string, Message>)
    ensures AllImprove(stored, stored)
  {
  }

  ghost predicate HoldsText(rows: seq<Snap>, uuid: string, content: string) {
    exists s :: s in rows && s.row.rec.uuid == uuid && s.row.rec.content == content && content != ""
  }

  lemma HoldsTextMore(front: seq<Snap>, last: Snap)
    ensures forall u, c :: HoldsText(front, u, c) ==> HoldsText(front + [last], u, c)
    ensures last.row.rec.content != "" ==> HoldsText(front + [last], last.row.rec.uuid, last.row.rec.content)
  {
    assert last in front + [last];
    forall u, c | HoldsText(front, u, c)
      ensures HoldsText(front + [last], u, c)
    {
      var s :| s in front && s.row.rec.uuid == u && s.row.rec.content == c && c != "";
      assert s in front + [last];
    }
  }

  // ---- column by column ------------------------------------------------------------------------------

  // What a row with text becomes: a new message is as the row has it; of one that was there the row's text and role
  // are taken, its author unless unknown, its tool and model where it names them, and the vector stays only with its
  // own text.
  lemma MessageMeans(s: Store, rows: seq<Snap>, up: seq<bool>, embed: string -> Vector, i: nat)
    requires |up| == |rows| && OwnIds(rows) && i < |rows| && rows[i].row.rec.content != ""
    ensures var r, now := rows[i].row.rec, WriteSession(s, rows, up, embed).messages;
      && r.uuid in now && now[r.uuid].content == r.content && now[r.uuid].role == r.role
      && (r.uuid !in s.messages ==>
            && now[r.uuid].session == r.session && now[r.uuid].seqNum == r.seqNum && now[r.uuid].author == r.author
            && now[r.uuid].toolName == r.toolName && now[r.uuid].model == r.model
            && now[r.uuid].embedding == if up[i] then Some(embed(r.content)) else None)
      && (r.uuid in s.messages ==>
            var was := s.messages[r.uuid];
            && now[r.uuid].session == was.session && now[r.uuid].seqNum == was.seqNum
            && now[r.uuid].author == (if r.author == "unknown" then was.author else r.author)
            && now[r.uuid].toolName == (if r.toolName.Some? then r.toolName else was.toolName)
            && now[r.uuid].model == (if r.model.Some? then r.model else was.model)
            && now[r.uuid].embedding ==
                 if was.content == r.content && was.embedding.Some? then was.embedding
                 else if up[i] then Some(embed(r.content)) else None)
  {
    hide UpsertAll, UpsertConversation;
    EachAlone(s.messages, rows, up, embed, i);
  }

  // The last title of the rows that is neither missing nor empty.
  predicate LastOf(titles: seq<Option<string>>, title: Option<string>) {
    if exists k :: 0 <= k < |titles| && titles[k].Some? && titles[k].value != "" then
      exists k :: 0 <= k < |titles| && titles[k].Some? && titles[k].value != "" && title == titles[k]
        && forall l :: k < l < |titles| ==> titles[l].None? || titles[l].value == ""
    else title == None
  }

  function Names(rows: seq<Snap>): (ts: seq<Option<string>>)
    ensures |ts| == |rows| && forall i :: 0 <= i < |rows| ==> ts[i] == rows[i].row.rec.name
  {
    seq(|rows|, i requires 0 <= i < |rows| => rows[i].row.rec.name)
  }

  function AiTitles(rows: seq<Snap>): (ts: seq<Option<string>>)
    ensures |ts| == |rows| && forall i :: 0 <= i < |rows| ==> ts[i] == rows[i].row.rec.aiTitle
  {
    seq(|rows|, i requires 0 <= i < |rows| => rows[i].row.rec.aiTitle)
  }

  lemma {:induction false} LastNameIs(rows: seq<Snap>)
    ensures LastOf(Names(rows), LastName(rows))
    decreases |rows|
  {
    if rows != [] && !Truthy(rows[|rows| - 1].row.rec.name) {
      var n := |rows| - 1;
      LastNameIs(rows[..n]);
      LastOfMore(Names(rows[..n]), rows[n].row.rec.name, LastName(rows));
      assert Names(rows) == Names(rows[..n]) + [rows[n].row.rec.name];
    }
  }

  lemma {:induction false} LastAiTitleIs(rows: seq<Snap>)
    ensures LastOf(AiTitles(rows), LastAiTitle(rows))
    decreases |rows|
  {
    if rows != [] && !Truthy(rows[|rows| - 1].row.rec.aiTitle) {
      var n := |rows| - 1;
      LastAiTitleIs(rows[..n]);
      LastOfMore(AiTitles(rows[..n]), rows[n].row.rec.aiTitle, LastAiTitle(rows));
      assert AiTitles(rows) == AiTitles(rows[..n]) + [rows[n].row.rec.aiTitle];
    }
  }

  lemma LastOfMore(titles: seq<Option<string>>, more: Option<string>, title: Option<string>)
    requires LastOf(titles, title) && (more.None? || more.value == "")
    ensures LastOf(titles + [more], title)
  {
    var all := titles + [more];
    assert forall k :: 0 <= k < |titles| ==> all[k] == titles[k];
    if exists k :: 0 <= k < |titles| && titles[k].Some? && titles[k].value != "" {
      var k :| 0 <= k < |titles| && titles[k].Some? && titles[k].value != "" && title == titles[k]
        && forall l :: k < l < |titles| ==> titles[l].None? || titles[l].value == "";
      assert all[k].Some? && all[k].value != "" && title == all[k];
    }
  }

  // The conversation: the batch's last titles where it has any, else the stored ones; its host once it has one; and no
  // other conversation is touched.
  lemma ConversationMeans(s: Store, rows: seq<Snap>, up: seq<bool>, embed: string -> Vector)
    requires |up| == |rows| && rows != []
    ensures var first, now := rows[0].row.rec, WriteSession(s, rows, up, embed).conversations;
      && now.Keys == s.conversations.Keys + {first.session}
      && (forall k :: k in s.conversations && k != first.session ==> now[k] == s.conversations[k])
      && exists name, aiTitle :: LastOf(Names(rows), name) && LastOf(AiTitles(rows), aiTitle) &&
           var c := now[first.session];
           if first.session !in s.conversations then c.name == name && c.aiTitle == aiTitle && c.host == first.host
           else
             var was := s.conversations[first.session];
             && c.name == (if name.Some? then name else was.name)
             && c.aiTitle == (if aiTitle.Some? then aiTitle else was.aiTitle)
             && c.host == (if was.host.Some? then was.host else first.host)
  {
    hide UpsertAll, LastOf, Names, AiTitles, LastName, LastAiTitle;
    LastNameIs(rows);
    LastAiTitleIs(rows);
  }

  // A message that no row with text is for is not touched.
  lemma OthersUntouched(s: Store, rows: seq<Snap>, up: seq<bool>, embed: string -> Vector, u: string)
    requires |up| == |rows| && rows != [] && forall i :: 0 <= i < |rows| && rows[i].row.rec.content != "" ==> rows[i].row.rec.uuid != u
    ensures var now := WriteSession(s, rows, up, embed).messages;
      (u in now <==> u in s.messages) && (u in now ==> now[u] == s.messages[u])
  {
    hide UpsertAll, UpsertConversation;
    Untouched(s.messages, rows, up, embed, u);
  }

  // ---- delivering again ------------------------------------------------------------------------------

  // A row is in a batch once.
  ghost predicate OwnIds(rows: seq<Snap>) {
    forall i, j :: 0 <= i < j < |rows| ==> rows[i].row.rec.uuid != rows[j].row.rec.uuid
  }

  ghost predicate Writes(rows: seq<Snap>, u: string) {
    exists i :: 0 <= i < |rows| && rows[i].row.rec.content != "" && rows[i].row.rec.uuid == u
  }

  // A message that no row is for is not touched.
  lemma {:induction false} Untouched(stored: map<string, Message>, rows: seq<Snap>, up: seq<bool>, embed: string -> Vector, u: string)
    requires |up| == |rows| && !Writes(rows, u)
    ensures var m := UpsertAll(stored, rows, up, embed); (u in m <==> u in stored) && (u in m ==> m[u] == stored[u])
    decreases |rows|
  {
    hide EmbeddingFor;
    if rows != [] {
      var n := |rows| - 1;
      assert forall i :: 0 <= i < n ==> rows[..n][i] == rows[i];
      Untouched(stored, rows[..n], up[..n], embed, u);
      assert rows[n].row.rec.content != "" ==> rows[n].row.rec.uuid != u;
    }
  }

  lemma LastUpserted(stored: map<string, Message>, rows: seq<Snap>, up: seq<bool>, embed: string -> Vector)
    requires |up| == |rows| && rows != []
    ensures var n := |rows| - 1; var r := rows[n].row.rec;
      var before := UpsertAll(stored, rows[..n], up[..n], embed);
      UpsertAll(stored, rows, up, embed)
        == if r.content == "" then before else Upsert(before, r, EmbeddingFor(stored, r, up[n], embed))
  {
  }

  lemma NoneUpserted(stored: map<string, Message>, embed: string -> Vector)
    ensures UpsertAll(stored, [], [], embed) == stored
  {
  }

  // Each row of a batch fares as it would alone.
  lemma {:induction false} EachAlone(stored: map<string, Message>, rows: seq<Snap>, up: seq<bool>, embed: string -> Vector, i: nat)
    requires |up| == |rows| && OwnIds(rows) && i < |rows| && rows[i].row.rec.content != ""
    ensures var m, r := UpsertAll(stored, rows, up, embed), rows[i].row.rec;
      r.uuid in m && m[r.uuid] == Upsert(stored, r, EmbeddingFor(stored, r, up[i], embed))[r.uuid]
    decreases |rows|
  {
    hide EmbeddingFor, Upsert, UpsertAll;
    var n := |rows| - 1;
    var front, r := rows[..n], rows[n].row.rec;
    assert forall k :: 0 <= k < n ==> front[k] == rows[k];
    LastUpserted(stored, rows, up, embed);
    if i < n {
      assert up[..n][i] == up[i] && rows[i].row.rec.uuid != r.uuid;
      EachAlone(stored, front, up[..n], embed, i);
    } else {
      Untouched(stored, front, up[..n], embed, r.uuid);
      AloneIs(stored, UpsertAll(stored, front, up[..n], embed), r, EmbeddingFor(stored, r, up[n], embed));
    }
  }

  // What a row makes of its message depends on nothing but that message.
  lemma AloneIs(a: map<string, Message>, b: map<string, Message>, r: Record, e: Option<Vector>)
    requires (r.uuid in a <==> r.uuid in b) && (r.uuid in a ==> a[r.uuid] == b[r.uuid])
    ensures Upsert(a, r, e)[r.uuid] == Upsert(b, r, e)[r.uuid]
  {
  }

  // One row twice: only a vector that could not be had the first time can be new.
  lemma RowAgain(stored: map<string, Message>, once: map<string, Message>, r: Record, up1: bool, up2: bool, embed: string -> Vector)
    requires r.uuid in once && once[r.uuid] == Upsert(stored, r, EmbeddingFor(stored, r, up1, embed))[r.uuid]
    ensures var again := Upsert(once, r, EmbeddingFor(once, r, up2, embed))[r.uuid];
      && again.(embedding := None) == once[r.uuid].(embedding := None)
      && (again == once[r.uuid] <==> once[r.uuid].embedding.Some? || !up2)
  {
  }

  // Delivering a batch again when nothing else was delivered in between leaves every message as it was, but
  // for a vector that could not be had the first time and can be had now; and exactly if there is no such
  // message, nothing changes at all.
  lemma Redelivery(stored: map<string, Message>, rows: seq<Snap>, up1: seq<bool>, up2: seq<bool>, embed: string -> Vector)
    requires |up1| == |up2| == |rows| && OwnIds(rows)
    ensures var once := UpsertAll(stored, rows, up1, embed);
      var twice := UpsertAll(once, rows, up2, embed);
      && twice.Keys == once.Keys
      && (forall u :: u in once ==> twice[u].(embedding := None) == once[u].(embedding := None))
      && (twice == once <==> forall i :: 0 <= i < |rows| && Missing(once, rows[i].row.rec) ==> !up2[i])
  {
    hide Upsert, EmbeddingFor, UpsertAll;
    var once := UpsertAll(stored, rows, up1, embed);
    var twice := UpsertAll(once, rows, up2, embed);
    forall i | 0 <= i < |rows| && rows[i].row.rec.content != ""
      ensures var r := rows[i].row.rec;
        && r.uuid in once && r.uuid in twice
        && twice[r.uuid].(embedding := None) == once[r.uuid].(embedding := None)
        && (twice[r.uuid] == once[r.uuid] <==> !Missing(once, r) || !up2[i])
    {
      EachAlone(stored, rows, up1, embed, i);
      EachAlone(once, rows, up2, embed, i);
      RowAgain(stored, once, rows[i].row.rec, up1[i], up2[i], embed);
    }
    forall u | !Writes(rows, u)
      ensures (u in once <==> u in twice) && (u in once ==> twice[u] == once[u])
    {
      Untouched(once, rows, up2, embed, u);
    }
    forall u | u in once || u in twice
      ensures u in once && u in twice && twice[u].(embedding := None) == once[u].(embedding := None)
    {
      if Writes(rows, u) {
        var i :| 0 <= i < |rows| && rows[i].row.rec.content != "" && rows[i].row.rec.uuid == u;
      }
    }
    if forall i :: 0 <= i < |rows| && Missing(once, rows[i].row.rec) ==> !up2[i] {
      AllSame(once, twice, rows);
    }
  }

  const LATE: Record := Record("u", "s", None, None, None, "user", "martin", None, None, "hello", 0)

  // A message delivered while the provider was down, and again once it was up: it has its vector now, so the
  // second delivery was not without effect.
  lemma RedeliveryAddsVector(embed: string -> Vector)
    ensures var rows, none := [Snap(0, Row(LATE, false, 0))], map[];
      var once := UpsertAll(none, rows, [false], embed);
      var twice := UpsertAll(once, rows, [true], embed);
      && twice != once && once["u"].embedding == None && twice["u"].embedding == Some(embed("hello"))
  {
    var rows, none: map<string, Message> := [Snap(0, Row(LATE, false, 0))], map[];
    var once := UpsertAll(none, rows, [false], embed);
    EachAlone(none, rows, [false], embed, 0);
    EachAlone(once, rows, [true], embed, 0);
  }

  // The message the row delivered has no vector yet.
  predicate Missing(once: map<string, Message>, r: Record) {
    r.content != "" && r.uuid in once && once[r.uuid].embedding.None?
  }

  lemma AllSame(once: map<string, Message>, twice: map<string, Message>, rows: seq<Snap>)
    requires twice.Keys == once.Keys
    requires forall u :: !Writes(rows, u) && u in once ==> twice[u] == once[u]
    requires forall i :: 0 <= i < |rows| && rows[i].row.rec.content != "" ==>
      var u := rows[i].row.rec.uuid; u in once && u in twice && twice[u] == once[u]
    ensures twice == once
  {
    forall u | u in once
      ensures twice[u] == once[u]
    {
      if Writes(rows, u) {
        var i :| 0 <= i < |rows| && rows[i].row.rec.content != "" && rows[i].row.rec.uuid == u;
      }
    }
  }
}
