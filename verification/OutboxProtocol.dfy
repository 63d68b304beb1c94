// The hook and any number of drains over one outbox and one Postgres, interleaved at every statement:
// commits that fail, commits whose reply is lost, drains that die. Nothing captured is ever in neither
// place, and a row becomes a tombstone only for what a commit has delivered.
module OutboxProtocol {
  import opened Bytes
  import opened OutboxTable
  import opened Postgres

  // What became of a transaction, as the world has it; the drain takes both of the last two for failure.
  datatype Outcome = Committed | RolledBack | ReplyLost

  // Where a drain stands: the groups it has yet to write, and the one it has just written and not yet
  // marked, as sent or as failed.
  datatype Drain = Drain(todo: seq<seq<Snap>>, written: seq<Snap>, refused: seq<Snap>)

  // captured is every text the hook has ever read for a message, delivered every row that has been in a
  // committed batch; no program holds either.
  datatype State = State(outbox: Table, store: Store, drains: map<nat, Drain>,
                         captured: set<(string, string)>, delivered: set<Snap>)

  datatype Step =
    | Hook(records: seq<Record>, session: string, name: Option<string>, aiTitle: Option<string>)
    | Start(d: nat, limit: nat, connected: bool)
    | Write(d: nat, up: seq<bool>, outcome: Outcome)
    | Sent(d: nat)
    | Failed(d: nat)
    | Die(d: nat)

  function Texts(records: seq<Record>): (r: set<(string, string)>)
    ensures forall rec :: rec in records ==> (rec.uuid, rec.content) in r
  {
    set rec | rec in records :: (rec.uuid, rec.content)
  }

  // build_records leaves out a message with no text, so no row is ever queued with none.
  predicate AllHaveText(records: seq<Record>) {
    forall i :: 0 <= i < |records| ==> records[i].content != ""
  }

  predicate Ready(drains: map<nat, Drain>, step: Step) {
    match step
    case Hook(records, _, _, _) => AllHaveText(records)
    case Start(d, _, _) => d !in drains
    case Write(d, up, _) =>
      && d in drains && drains[d].written == [] && drains[d].refused == []
      && drains[d].todo != [] && drains[d].todo[0] != [] && |up| == |drains[d].todo[0]|
    case Sent(d) => d in drains && drains[d].written != []
    case Failed(d) => d in drains && drains[d].refused != []
    case Die(d) => d in drains
  }

  predicate Enabled(s: State, step: Step) {
    Ready(s.drains, step)
  }

  function Elements(snaps: seq<Snap>): set<Snap> {
    set x | x in snaps
  }

  function Apply(s: State, step: Step, embed: string -> Vector): State
    requires Enabled(s, step)
  {
    match step
    case Hook(records, session, name, aiTitle) =>
      s.(outbox := AppendToOutbox(s.outbox, records, session, name, aiTitle),
         captured := s.captured + Texts(records))
    case Start(d, limit, connected) =>
      var batch := Batch(s.outbox, limit);
      s.(drains := s.drains[d := if connected then Drain(Groups(batch), [], []) else Drain([], [], batch)])
    case Write(d, up, outcome) =>
      var drain := s.drains[d];
      var group, rest := drain.todo[0], drain.todo[1..];
      var after := if outcome == Committed then Drain(rest, group, []) else Drain(rest, [], group);
      if outcome == RolledBack then s.(drains := s.drains[d := after])
      else s.(store := WriteSession(s.store, group, up, embed), drains := s.drains[d := after],
              delivered := s.delivered + Elements(group))
    case Sent(d) =>
      s.(outbox := MarkSent(s.outbox, s.drains[d].written), drains := s.drains[d := s.drains[d].(written := [])])
    case Failed(d) =>
      s.(outbox := MarkFailed(s.outbox, s.drains[d].refused), drains := s.drains[d := s.drains[d].(refused := [])])
    case Die(d) =>
      s.(drains := s.drains - {d})
  }

  // ---- the invariant -------------------------------------------------------------------------------

  ghost predicate Unique(rows: Table) {
    forall i, j :: 0 <= i < j < |rows| ==> rows[i].rec.uuid != rows[j].rec.uuid
  }

  // A pending row has text, and it is text the hook read for that message.
  ghost predicate PendingHaveText(rows: Table, captured: set<(string, string)>) {
    forall i :: 0 <= i < |rows| && !rows[i].sent ==>
      rows[i].rec.content != "" && (rows[i].rec.uuid, rows[i].rec.content) in captured
  }

  // A row as it once was: same message, with text the hook read for it.
  ghost predicate Genuine(x: Snap, rows: Table, captured: set<(string, string)>) {
    && x.id < |rows|
    && rows[x.id].rec.uuid == x.row.rec.uuid && rows[x.id].rec.session == x.row.rec.session
    && x.row.rec.content != "" && (x.row.rec.uuid, x.row.rec.content) in captured
  }

  ghost predicate AllGenuine(xs: seq<Snap>, rows: Table, captured: set<(string, string)>) {
    forall x :: x in xs ==> Genuine(x, rows, captured)
  }

  ghost predicate DrainSound(drain: Drain, s: State) {
    && (forall g :: g in drain.todo ==> AllGenuine(g, s.outbox, s.captured))
    && AllGenuine(drain.written, s.outbox, s.captured)
    && Elements(drain.written) <= s.delivered
  }

  ghost predicate WasDelivered(delivered: set<Snap>, i: nat) {
    exists x :: x in delivered && x.id == i
  }

  ghost predicate StoreSound(store: Store, rows: Table, captured: set<(string, string)>, delivered: set<Snap>, embed: string -> Vector) {
    && AllDescribe(store.messages, embed)
    && (forall u :: u in store.messages ==> (u, store.messages[u].content) in captured)
    && (forall x :: x in delivered ==> Genuine(x, rows, captured) && x.row.rec.uuid in store.messages)
    && (forall i :: 0 <= i < |rows| && rows[i].sent ==> WasDelivered(delivered, i))
  }

  ghost predicate Inv(s: State, embed: string -> Vector) {
    && Unique(s.outbox)
    && PendingHaveText(s.outbox, s.captured)
    && StoreSound(s.store, s.outbox, s.captured, s.delivered, embed)
    && (forall d :: d in s.drains ==> DrainSound(s.drains[d], s))
  }

  // ---- what the hook's transaction does --------------------------------------------------------------

  predicate RecordHas(records: seq<Record>, uuid: string, content: string) {
    exists k :: 0 <= k < |records| && records[k].uuid == uuid && records[k].content == content
  }

  // All but the text and the titles.
  function Bare(rec: Record): Record {
    rec.(content := "", name := None, aiTitle := None)
  }

  // Rows keep their places and messages; one that is sent afterwards is as it was; one that is pending
  // has the text it had, or, queued again, what the transcript has for it. Nothing else of it changes but
  // titles, and, if it is queued again, the count of failures.
  ghost predicate RowKept(was: Row, now: Row, records: seq<Record>) {
    && Bare(now.rec) == Bare(was.rec)
    && (now.sent ==> now == was)
    && (now.attempts == was.attempts || (was.sent && !now.sent && now.attempts == 0))
    && (!now.sent ==> if was.sent then RecordHas(records, now.rec.uuid, now.rec.content) else now.rec.content == was.rec.content)
  }

  ghost predicate TableKept(rows: Table, now: Table, records: seq<Record>) {
    && |rows| <= |now|
    && (forall i :: 0 <= i < |rows| ==> RowKept(rows[i], now[i], records))
    && (forall i :: |rows| <= i < |now| ==> !now[i].sent && now[i].attempts == 0 && Recorded(records, now[i].rec))
  }

  // A record of this run, but for its titles.
  predicate Recorded(records: seq<Record>, rec: Record) {
    exists k :: 0 <= k < |records| && Bare(records[k]) == Bare(rec) && records[k].content == rec.content
  }

  // A title is the one it was, or the run's; and in another session everything is as it was.
  predicate OnlyTitles(was: Row, now: Row, session: string, name: Option<string>, aiTitle: Option<string>) {
    && (now.rec.name == was.rec.name || now.rec.name == name) && (now.rec.aiTitle == was.rec.aiTitle || now.rec.aiTitle == aiTitle)
    && (was.rec.session != session ==> now == was)
  }

  lemma {:induction false} InsertAllKeeps(rows: Table, records: seq<Record>)
    requires Unique(rows)
    ensures Unique(InsertAll(rows, records))
    ensures |rows| <= |InsertAll(rows, records)|
    ensures InsertAll(rows, records)[..|rows|] == rows
    ensures forall i :: |rows| <= i < |InsertAll(rows, records)| ==>
      var r := InsertAll(rows, records)[i]; !r.sent && r.attempts == 0 && r.rec in records
    decreases |records|
  {
    if records != [] {
      var r := records[0];
      var next := if HasUuid(rows, r.uuid) then rows else rows + [Row(r, false, 0)];
      InsertAllKeeps(next, records[1..]);
      var all := InsertAll(next, records[1..]);
      assert all[..|rows|] == all[..|next|][..|rows|] == next[..|rows|] == rows;
      if |next| > |rows| {
        assert all[|rows|] == all[..|next|][|rows|];
      }
    }
  }

  lemma HookKeeps(rows: Table, records: seq<Record>, session: string, name: Option<string>, aiTitle: Option<string>)
    requires Unique(rows)
    ensures var now := AppendToOutbox(rows, records, session, name, aiTitle);
      && Unique(now) && TableKept(rows, now, records)
      && forall i :: 0 <= i < |rows| ==> OnlyTitles(rows[i], now[i], session, name, aiTitle)
  {
    hide InsertAll, Latest, FindRecord, HasUuid, RowKept, Recorded;
    InsertAllKeeps(rows, records);
    var inserted := InsertAll(rows, records);
    InsertedKept(rows, inserted, records);
    if Truthy(name) || Truthy(aiTitle) {
      if AnyPending(inserted, session) {
        TitlesKept(rows, inserted, records, session, name, aiTitle);
      } else {
        RequeueKept(rows, inserted, records, session, name, aiTitle);
      }
    }
  }

  lemma InsertedKept(rows: Table, inserted: Table, records: seq<Record>)
    requires |rows| <= |inserted| && inserted[..|rows|] == rows
    requires forall i :: |rows| <= i < |inserted| ==> !inserted[i].sent && inserted[i].attempts == 0 && inserted[i].rec in records
    ensures TableKept(rows, inserted, records)
    ensures forall i :: 0 <= i < |rows| ==> inserted[i] == rows[i]
  {
    forall i | 0 <= i < |rows|
      ensures inserted[i] == rows[i]
    {
      assert inserted[i] == inserted[..|rows|][i];
    }
    forall i | |rows| <= i < |inserted|
      ensures Recorded(records, inserted[i].rec)
    {
      var k :| 0 <= k < |records| && records[k] == inserted[i].rec;
    }
  }

  lemma TitlesKept(rows: Table, inserted: Table, records: seq<Record>, session: string, name: Option<string>, aiTitle: Option<string>)
    requires TableKept(rows, inserted, records) && Unique(inserted)
    ensures TableKept(rows, TitlePending(inserted, session, name, aiTitle), records)
    ensures Unique(TitlePending(inserted, session, name, aiTitle))
    ensures forall i :: 0 <= i < |inserted| ==> OnlyTitles(inserted[i], TitlePending(inserted, session, name, aiTitle)[i], session, name, aiTitle)
  {
    hide TitlePending, RecordHas, Recorded;
    var now := TitlePending(inserted, session, name, aiTitle);
    forall i | |rows| <= i < |now|
      ensures Recorded(records, now[i].rec)
    {
      SameRecorded(records, inserted[i].rec, now[i].rec);
    }
  }

  lemma SameRecorded(records: seq<Record>, was: Record, now: Record)
    requires Recorded(records, was) && Bare(was) == Bare(now) && was.content == now.content
    ensures Recorded(records, now)
  {
  }

  lemma RequeueKept(rows: Table, inserted: Table, records: seq<Record>, session: string, name: Option<string>, aiTitle: Option<string>)
    requires TableKept(rows, inserted, records) && Unique(inserted) && !AnyPending(inserted, session)
    requires forall i :: 0 <= i < |rows| ==> inserted[i] == rows[i]
    ensures TableKept(rows, Requeue(inserted, records, session, name, aiTitle), records)
    ensures Unique(Requeue(inserted, records, session, name, aiTitle))
    ensures forall i :: 0 <= i < |inserted| ==> OnlyTitles(inserted[i], Requeue(inserted, records, session, name, aiTitle)[i], session, name, aiTitle)
  {
    hide Latest, FindRecord;
    var latest := Latest(inserted, session);
    if latest.Some? {
      var rec := FindRecord(records, inserted[latest.value].rec.uuid);
      if rec.Some? {
        assert RecordHas(records, rec.value.uuid, rec.value.content);
      }
    }
  }

  // ---- every step keeps the invariant ------------------------------------------------------------------

  lemma GenuineStays(x: Snap, rows: Table, now: Table, records: seq<Record>, a: set<(string, string)>, b: set<(string, string)>)
    requires Genuine(x, rows, a) && TableKept(rows, now, records) && a <= b
    ensures Genuine(x, now, b)
  {
  }

  lemma HookStep(s: State, step: Step, embed: string -> Vector)
    requires Inv(s, embed) && step.Hook? && Enabled(s, step)
    ensures Inv(Apply(s, step, embed), embed)
  {
    hide AppendToOutbox, AllDescribe, TableKept, RowKept, Genuine;
    var now := Apply(s, step, embed);
    HookKeeps(s.outbox, step.records, step.session, step.name, step.aiTitle);
    HookPending(s.outbox, now.outbox, step.records, s.captured);
    forall x | Genuine(x, s.outbox, s.captured)
      ensures Genuine(x, now.outbox, now.captured)
    {
      GenuineStays(x, s.outbox, now.outbox, step.records, s.captured, now.captured);
    }
  }

  lemma HookPending(rows: Table, now: Table, records: seq<Record>, captured: set<(string, string)>)
    requires TableKept(rows, now, records) && PendingHaveText(rows, captured) && AllHaveText(records)
    ensures PendingHaveText(now, captured + Texts(records))
    ensures forall i :: 0 <= i < |now| && now[i].sent ==> i < |rows| && rows[i].sent
  {
    forall i | 0 <= i < |now| && !now[i].sent
      ensures now[i].rec.content != "" && (now[i].rec.uuid, now[i].rec.content) in captured + Texts(records)
    {
      if RecordHas(records, now[i].rec.uuid, now[i].rec.content) {
        var k :| 0 <= k < |records| && records[k].uuid == now[i].rec.uuid && records[k].content == now[i].rec.content;
        assert records[k] in records;
      }
    }
  }

  lemma {:induction false} GroupsHold(snaps: seq<Snap>)
    ensures forall g :: g in Groups(snaps) ==> g != [] && forall x :: x in g ==> x in snaps
    decreases |snaps|
  {
    if snaps != [] {
      var session := snaps[0].row.rec.session;
      GroupsHold(OfSession(snaps[1..], session, false));
      assert snaps[0] in OfSession(snaps, session, true);
    }
  }

  lemma StartStep(s: State, step: Step, embed: string -> Vector)
    requires Inv(s, embed) && step.Start? && Enabled(s, step)
    ensures Inv(Apply(s, step, embed), embed)
  {
    hide Batch, Groups, AllDescribe;
    BatchTakesTheFirst(s.outbox, step.limit);
    var batch := Batch(s.outbox, step.limit);
    GroupsHold(batch);
  }

  lemma WriteStep(s: State, step: Step, embed: string -> Vector)
    requires Inv(s, embed) && step.Write? && Enabled(s, step)
    ensures Inv(Apply(s, step, embed), embed)
    ensures AllImprove(s.store.messages, Apply(s, step, embed).store.messages)
  {
    hide UpsertAll, UpsertConversation, AllDescribe, Improves;
    var group := s.drains[step.d].todo[0];
    assert group in s.drains[step.d].todo;
    NothingImproves(s.store.messages);
    UpsertAllKeeps(s.store.messages, group, step.up, embed);
    WrittenSound(s.store, group, step.up, s.outbox, s.captured, s.delivered, embed);
  }

  lemma WrittenSound(store: Store, group: seq<Snap>, up: seq<bool>, rows: Table, captured: set<(string, string)>,
                     delivered: set<Snap>, embed: string -> Vector)
    requires StoreSound(store, rows, captured, delivered, embed) && AllGenuine(group, rows, captured)
    requires group != [] && |up| == |group|
    ensures StoreSound(WriteSession(store, group, up, embed), rows, captured, delivered + Elements(group), embed)
  {
    hide UpsertAll, UpsertConversation, AllDescribe, Improves;
    UpsertAllKeeps(store.messages, group, up, embed);
    var now := UpsertAll(store.messages, group, up, embed);
    forall u | u in now
      ensures (u, now[u].content) in captured
    {
      if HoldsText(group, u, now[u].content) {
        var x :| x in group && x.row.rec.uuid == u && x.row.rec.content == now[u].content;
        assert Genuine(x, rows, captured);
      }
    }
    forall i | 0 <= i < |rows| && rows[i].sent
      ensures WasDelivered(delivered + Elements(group), i)
    {
      var x :| x in delivered && x.id == i;
      assert x in delivered + Elements(group);
    }
  }

  // What marking a group sent does to one row: nothing, or makes it a tombstone because it is exactly as
  // the group held it.
  lemma {:induction false} MarkSentRows(rows: Table, snaps: seq<Snap>)
    ensures forall i :: 0 <= i < |rows| ==>
      var now := MarkSent(rows, snaps)[i];
      now == rows[i] || (now == Tombstone(rows[i]) && HeldAs(snaps, i, rows[i]))
    decreases |snaps|
  {
    if snaps != [] {
      var n := |snaps| - 1;
      var front, last := snaps[..n], snaps[n];
      MarkSentRows(rows, front);
      assert snaps == front + [last];
      forall i | 0 <= i < |rows|
        ensures HeldAs(front, i, rows[i]) ==> HeldAs(snaps, i, rows[i])
        ensures last.id == i && Unchanged(rows[i], last) ==> HeldAs(snaps, i, rows[i])
      {
        if HeldAs(front, i, rows[i]) {
          var x :| x in front && x.id == i && Unchanged(rows[i], x);
          assert x in snaps;
        }
        assert last in snaps;
      }
    }
  }

  ghost predicate HeldAs(snaps: seq<Snap>, i: nat, row: Row) {
    exists x :: x in snaps && x.id == i && Unchanged(row, x)
  }

  lemma SentStep(s: State, step: Step, embed: string -> Vector)
    requires Inv(s, embed) && step.Sent? && Enabled(s, step)
    ensures Inv(Apply(s, step, embed), embed)
  {
    hide MarkSent, AllDescribe;
    var written := s.drains[step.d].written;
    var now := MarkSent(s.outbox, written);
    MarkSentRows(s.outbox, written);
    forall i | 0 <= i < |now| && now[i].sent
      ensures WasDelivered(s.delivered, i)
    {
      if !s.outbox[i].sent {
        var x :| x in written && x.id == i && Unchanged(s.outbox[i], x);
        assert x in Elements(written);
      }
    }
  }

  lemma {:induction false} MarkFailedRows(rows: Table, snaps: seq<Snap>)
    ensures forall i :: 0 <= i < |rows| ==>
      var now := MarkFailed(rows, snaps)[i]; now.rec == rows[i].rec && now.sent == rows[i].sent && now.attempts >= rows[i].attempts
    decreases |snaps|
  {
    if snaps != [] {
      MarkFailedRows(rows, snaps[..|snaps| - 1]);
    }
  }

  lemma FailedStep(s: State, step: Step, embed: string -> Vector)
    requires Inv(s, embed) && step.Failed? && Enabled(s, step)
    ensures Inv(Apply(s, step, embed), embed)
  {
    hide MarkFailed, AllDescribe;
    MarkFailedRows(s.outbox, s.drains[step.d].refused);
  }

  lemma StepKeeps(s: State, step: Step, embed: string -> Vector)
    requires Inv(s, embed) && Enabled(s, step)
    ensures Inv(Apply(s, step, embed), embed)
    ensures AllImprove(s.store.messages, Apply(s, step, embed).store.messages)
  {
    NothingImproves(s.store.messages);
    match step {
      case Hook(_, _, _, _) => HookStep(s, step, embed);
      case Start(_, _, _) => StartStep(s, step, embed);
      case Write(_, _, _) => WriteStep(s, step, embed);
      case Sent(_) => SentStep(s, step, embed);
      case Failed(_) => FailedStep(s, step, embed);
      case Die(_) =>
    }
  }

  // ---- every message the hook read is in the table for good ----------------------------------------------

  ghost predicate Queued(rows: Table, captured: set<(string, string)>) {
    forall p :: p in captured ==> HasUuid(rows, p.0)
  }

  // No row ever leaves its place or becomes another message's.
  ghost predicate RowsStay(rows: Table, now: Table) {
    |rows| <= |now| && forall i :: 0 <= i < |rows| ==> now[i].rec.uuid == rows[i].rec.uuid
  }

  lemma StaysQueued(rows: Table, now: Table, captured: set<(string, string)>)
    requires RowsStay(rows, now) && Queued(rows, captured)
    ensures Queued(now, captured)
  {
    forall p | p in captured
      ensures HasUuid(now, p.0)
    {
      var i :| 0 <= i < |rows| && rows[i].rec.uuid == p.0;
      assert now[i].rec.uuid == p.0;
    }
  }

  lemma {:induction false} InsertAllQueues(rows: Table, records: seq<Record>, uuid: string)
    requires HasUuid(rows, uuid) || exists k :: 0 <= k < |records| && records[k].uuid == uuid
    ensures HasUuid(InsertAll(rows, records), uuid)
    decreases |records|
  {
    if records != [] {
      var r := records[0];
      var next := if HasUuid(rows, r.uuid) then rows else rows + [Row(r, false, 0)];
      if HasUuid(rows, uuid) {
        var i :| 0 <= i < |rows| && rows[i].rec.uuid == uuid;
        assert next[i].rec.uuid == uuid;
      } else if r.uuid == uuid {
        assert next[|rows|].rec.uuid == uuid;
      } else {
        var k :| 0 <= k < |records| && records[k].uuid == uuid;
        assert records[1..][k - 1].uuid == uuid;
      }
      InsertAllQueues(next, records[1..], uuid);
    }
  }

  lemma CarryStays(rows: Table, records: seq<Record>, session: string, name: Option<string>, aiTitle: Option<string>)
    ensures RowsStay(rows, CarryTitles(rows, records, session, name, aiTitle))
  {
    hide Latest, FindRecord, HasUuid;
  }

  lemma HookQueues(rows: Table, records: seq<Record>, session: string, name: Option<string>, aiTitle: Option<string>, captured: set<(string, string)>)
    requires Queued(rows, captured) && Unique(rows)
    ensures var now := AppendToOutbox(rows, records, session, name, aiTitle);
      Queued(now, captured + Texts(records)) && RowsStay(rows, now)
  {
    hide InsertAll, CarryTitles, HasUuid, TableKept;
    var inserted := InsertAll(rows, records);
    forall p | p in captured + Texts(records)
      ensures HasUuid(inserted, p.0)
    {
      if p !in captured {
        var k :| 0 <= k < |records| && p == (records[k].uuid, records[k].content);
        assert records[k].uuid == p.0;
      }
      InsertAllQueues(rows, records, p.0);
    }
    CarryStays(inserted, records, session, name, aiTitle);
    StaysQueued(inserted, AppendToOutbox(rows, records, session, name, aiTitle), captured + Texts(records));
    HookKeeps(rows, records, session, name, aiTitle);
    KeptStays(rows, AppendToOutbox(rows, records, session, name, aiTitle), records);
  }

  lemma KeptStays(rows: Table, now: Table, records: seq<Record>)
    requires TableKept(rows, now, records)
    ensures RowsStay(rows, now)
  {
  }

  lemma StepQueues(s: State, step: Step, embed: string -> Vector)
    requires Inv(s, embed) && Enabled(s, step) && Queued(s.outbox, s.captured)
    ensures var t := Apply(s, step, embed); Queued(t.outbox, t.captured) && RowsStay(s.outbox, t.outbox)
  {
    hide AppendToOutbox, MarkSent, MarkFailed, Batch, Groups, WriteSession, HasUuid;
    match step {
      case Hook(records, session, name, aiTitle) =>
        HookQueues(s.outbox, records, session, name, aiTitle, s.captured);
      case Sent(d) =>
        MarkSentRows(s.outbox, s.drains[d].written);
        StaysQueued(s.outbox, MarkSent(s.outbox, s.drains[d].written), s.captured);
      case Failed(d) =>
        MarkFailedRows(s.outbox, s.drains[d].refused);
        StaysQueued(s.outbox, MarkFailed(s.outbox, s.drains[d].refused), s.captured);
      case _ =>
    }
  }

  // ---- whole runs -------------------------------------------------------------------------------------------

  predicate CanRun(s: State, steps: seq<Step>, embed: string -> Vector)
    decreases |steps|
  {
    steps == [] || (Enabled(s, steps[0]) && CanRun(Apply(s, steps[0], embed), steps[1..], embed))
  }

  function Run(s: State, steps: seq<Step>, embed: string -> Vector): State
    requires CanRun(s, steps, embed)
    decreases |steps|
  {
    if steps == [] then s else Run(Apply(s, steps[0], embed), steps[1..], embed)
  }

  const EMPTY: State := State([], Store(map[], map[]), map[], {}, {})

  lemma {:induction false} RunKeeps(s: State, steps: seq<Step>, embed: string -> Vector)
    requires Inv(s, embed) && Queued(s.outbox, s.captured) && CanRun(s, steps, embed)
    ensures var t := Run(s, steps, embed);
      && Inv(t, embed) && Queued(t.outbox, t.captured) && RowsStay(s.outbox, t.outbox)
      && AllImprove(s.store.messages, t.store.messages)
    decreases |steps|
  {
    hide Inv, Queued, Apply, Enabled, Improves;
    if steps == [] {
      NothingImproves(s.store.messages);
    } else {
      var next := Apply(s, steps[0], embed);
      StepKeeps(s, steps[0], embed);
      StepQueues(s, steps[0], embed);
      RunKeeps(next, steps[1..], embed);
      AllImproveOn(s.store.messages, next.store.messages, Run(s, steps, embed).store.messages);
    }
  }

  lemma EmptyHolds(embed: string -> Vector)
    ensures Inv(EMPTY, embed) && Queued(EMPTY.outbox, EMPTY.captured)
  {
  }

  // Safe: in the table, waiting with text the hook read for it, or in Postgres with text the hook read
  // for it.
  ghost predicate Safe(s: State, uuid: string) {
    exists i :: 0 <= i < |s.outbox| && s.outbox[i].rec.uuid == uuid &&
      if s.outbox[i].sent then uuid in s.store.messages && (uuid, s.store.messages[uuid].content) in s.captured
      else s.outbox[i].rec.content != "" && (uuid, s.outbox[i].rec.content) in s.captured
  }

  // Over every run of hooks and drains, however they interleave, fail and die: nothing the hook has ever
  // read is lost, no vector describes other text, and nothing Postgres knew is forgotten.
  lemma NothingLost(before: seq<Step>, after: seq<Step>, embed: string -> Vector)
    requires CanRun(EMPTY, before, embed) && CanRun(Run(EMPTY, before, embed), after, embed)
    ensures var s := Run(EMPTY, before, embed); var t := Run(s, after, embed);
      && (forall p :: p in t.captured ==> Safe(t, p.0))
      && AllDescribe(t.store.messages, embed)
      && AllImprove(s.store.messages, t.store.messages)
  {
    hide CanRun, Run, AllDescribe, AllImprove;
    EmptyHolds(embed);
    RunKeeps(EMPTY, before, embed);
    var s := Run(EMPTY, before, embed);
    RunKeeps(s, after, embed);
    var t := Run(s, after, embed);
    forall p | p in t.captured
      ensures Safe(t, p.0)
    {
      var i :| 0 <= i < |t.outbox| && t.outbox[i].rec.uuid == p.0;
      if t.outbox[i].sent {
        var x :| x in t.delivered && x.id == i;
        assert Genuine(x, t.outbox, t.captured);
      }
    }
  }

  // A row becomes a tombstone only in a step that marks what a drain has written, and only because a
  // committed batch held it with exactly the text and titles it has at that moment.
  lemma TombstoneNeedsCommit(s: State, step: Step, embed: string -> Vector, i: nat)
    requires Inv(s, embed) && Enabled(s, step)
    requires i < |s.outbox| && !s.outbox[i].sent
    requires i < |Apply(s, step, embed).outbox| && Apply(s, step, embed).outbox[i].sent
    ensures step.Sent? && exists x :: x in s.delivered && x.id == i && Unchanged(s.outbox[i], x)
  {
    hide AppendToOutbox, MarkSent, MarkFailed, TableKept, StoreSound, Batch, Groups, WriteSession;
    match step {
      case Hook(records, session, name, aiTitle) =>
        HookKeeps(s.outbox, records, session, name, aiTitle);
        PendingStays(s.outbox, Apply(s, step, embed).outbox, records, i);
      case Sent(d) =>
        var written := s.drains[d].written;
        MarkSentRows(s.outbox, written);
        var x :| x in written && x.id == i && Unchanged(s.outbox[i], x);
        assert x in Elements(written);
      case Failed(d) =>
        MarkFailedRows(s.outbox, s.drains[d].refused);
      case _ =>
    }
  }

  lemma PendingStays(rows: Table, now: Table, records: seq<Record>, i: nat)
    requires TableKept(rows, now, records) && i < |rows| && !rows[i].sent
    ensures !now[i].sent
  {
  }

  // ---- failures do not starve the rest ------------------------------------------------------------------------

  // How far row j is ahead of row i, counted in failures of row j.
  function Lead(rows: Table, i: nat, j: nat): (l: nat)
    requires i < |rows| && j < |rows|
    ensures l > 0 <==> !rows[j].sent && Ahead(Snap(j, rows[j]), Snap(i, rows[i]))
  {
    var l := rows[i].attempts - rows[j].attempts + if j < i then 1 else 0;
    if rows[j].sent || l < 0 then 0 else l
  }

  function Delay(rows: Table, i: nat, n: nat): nat
    requires i < |rows| && n <= |rows|
  {
    if n == 0 then 0 else Delay(rows, i, n - 1) + Lead(rows, i, n - 1)
  }

  lemma {:induction false} DelayFalls(rows: Table, now: Table, i: nat, n: nat, k: nat)
    requires |now| == |rows| && i < |rows| && n <= |rows|
    requires forall j :: 0 <= j < |rows| ==> Lead(now, i, j) <= Lead(rows, i, j)
    requires k < |rows| && Lead(now, i, k) < Lead(rows, i, k)
    ensures Delay(now, i, n) <= Delay(rows, i, n)
    ensures k < n ==> Delay(now, i, n) < Delay(rows, i, n)
  {
    hide Lead;
    if n > 0 {
      DelayFalls(rows, now, i, n - 1, k);
    }
  }

  // A pending row that a batch left out is nearer its turn once the batch has failed, so batch after
  // batch of failures cannot keep it out.
  lemma FailuresGoBehind(rows: Table, limit: nat, i: nat)
    requires 0 < limit && i < |rows| && !rows[i].sent && Snap(i, rows[i]) !in Batch(rows, limit)
    ensures var now := MarkFailed(rows, Batch(rows, limit));
      now[i] == rows[i] && Delay(now, i, |rows|) < Delay(rows, i, |rows|)
  {
    hide Batch, MarkFailed, Delay;
    var b := Batch(rows, limit);
    BatchTakesTheFirst(rows, limit);
    FailedOnly(rows, b);
    var now := MarkFailed(rows, b);
    MarkFailedRows(rows, b);
    assert now[i] == rows[i];
    assert b[0] in b;
    var k := b[0].id;
    DelayFalls(rows, now, i, |rows|, k);
  }

  // Only the rows of the batch are marked, each at least once.
  lemma {:induction false} FailedOnly(rows: Table, snaps: seq<Snap>)
    ensures var now := MarkFailed(rows, snaps);
      && (forall i :: 0 <= i < |rows| && now[i] != rows[i] ==> exists x :: x in snaps && x.id == i)
      && (forall x :: x in snaps && x.id < |rows| ==> now[x.id].attempts > rows[x.id].attempts)
    decreases |snaps|
  {
    if snaps != [] {
      var n := |snaps| - 1;
      var front, last := snaps[..n], snaps[n];
      FailedOnly(rows, front);
      MarkFailedRows(rows, front);
      assert snaps == front + [last];
      assert last in snaps;
      assert forall x :: x in front ==> x in snaps;
    }
  }
}
