// One drain at a time, as the drain's file lock has it (hook/hook/drain.py:233-254, 317-326): what Postgres
// holds of a message that waits no more is the text last queued for it. With two at a time it need not be.
module OutboxLatest {
  import opened Bytes
  import opened OutboxTable
  import opened Postgres
  import opened OutboxProtocol
  import opened OutboxDrain

  // The text last queued for each row: of one that waits, its own; of a tombstone, what it had when it waited.
  function Noted(last: seq<string>, rows: Table): (now: seq<string>)
    ensures |now| == |rows|
    ensures forall i :: 0 <= i < |rows| ==>
      now[i] == if !rows[i].sent then rows[i].rec.content else if i < |last| then last[i] else ""
  {
    seq(|rows|, i requires 0 <= i < |rows| =>
      if !rows[i].sent then rows[i].rec.content else if i < |last| then last[i] else "")
  }

  function LastQueued(s: State, steps: seq<Step>, last: seq<string>, embed: string -> Vector): seq<string>
    requires CanRun(s, steps, embed)
    decreases |steps|
  {
    if steps == [] then last
    else
      var next := Apply(s, steps[0], embed);
      LastQueued(next, steps[1..], Noted(last, next.outbox), embed)
  }

  // No drain starts while another is at work.
  predicate OneAtATime(s: State, steps: seq<Step>, embed: string -> Vector)
    requires CanRun(s, steps, embed)
    decreases |steps|
  {
    steps == [] || ((steps[0].Start? ==> s.drains == map[]) && OneAtATime(Apply(s, steps[0], embed), steps[1..], embed))
  }

  // ---- the invariant ---------------------------------------------------------------------------------------

  // The row waits still, with the text the drain read.
  ghost predicate Standing(x: Snap, rows: Table) {
    && x.id < |rows| && !rows[x.id].sent
    && rows[x.id].rec.uuid == x.row.rec.uuid && rows[x.id].rec.content == x.row.rec.content
  }

  ghost predicate AllStanding(xs: seq<Snap>, rows: Table) {
    forall x :: x in xs ==> Standing(x, rows)
  }

  ghost predicate Apart(xs: seq<Snap>, ys: seq<Snap>) {
    forall x, y :: x in xs && y in ys ==> x.id != y.id
  }

  ghost predicate InStore(xs: seq<Snap>, messages: map<string, Message>) {
    forall x :: x in xs ==> x.row.rec.uuid in messages && messages[x.row.rec.uuid].content == x.row.rec.content
  }

  ghost predicate Groupwise(todo: seq<seq<Snap>>) {
    && (forall i :: 0 <= i < |todo| ==> Distinct(todo[i]))
    && (forall i, j :: 0 <= i < j < |todo| ==> Apart(todo[i], todo[j]))
  }

  ghost predicate DrainCurrent(drain: Drain, rows: Table, messages: map<string, Message>) {
    && Groupwise(drain.todo) && (forall g :: g in drain.todo ==> AllStanding(g, rows) && Apart(drain.written, g))
    && AllStanding(drain.written, rows) && InStore(drain.written, messages)
  }

  ghost predicate TextsCurrent(rows: Table, messages: map<string, Message>, last: seq<string>) {
    && |last| == |rows|
    && forall i :: 0 <= i < |rows| ==>
         if rows[i].sent then rows[i].rec.uuid in messages && messages[rows[i].rec.uuid].content == last[i]
         else last[i] == rows[i].rec.content
  }

  ghost predicate Current(s: State, last: seq<string>) {
    && TextsCurrent(s.outbox, s.store.messages, last)
    && (forall d, e :: d in s.drains && e in s.drains ==> d == e)
    && (forall d :: d in s.drains ==> DrainCurrent(s.drains[d], s.outbox, s.store.messages))
  }

  // ---- each step keeps it ------------------------------------------------------------------------------------

  lemma HookCurrent(s: State, step: Step, last: seq<string>, embed: string -> Vector)
    requires Inv(s, embed) && Enabled(s, step) && step.Hook? && Current(s, last)
    ensures var t := Apply(s, step, embed); Current(t, Noted(last, t.outbox))
  {
    hide AppendToOutbox, Noted, Recorded, RecordHas, Distinct, AllDescribe;
    var t := Apply(s, step, embed);
    HookKeeps(s.outbox, step.records, step.session, step.name, step.aiTitle);
    KeptStanding(s.outbox, t.outbox, step.records);
    KeptTexts(s.outbox, t.outbox, step.records, s.store.messages, last);
  }

  lemma KeptStanding(rows: Table, now: Table, records: seq<Record>)
    requires TableKept(rows, now, records)
    ensures forall x :: Standing(x, rows) ==> Standing(x, now)
  {
    forall x | Standing(x, rows)
      ensures Standing(x, now)
    {
      assert Bare(now[x.id].rec).uuid == Bare(rows[x.id].rec).uuid;
    }
  }

  lemma KeptTexts(rows: Table, now: Table, records: seq<Record>, messages: map<string, Message>, last: seq<string>)
    requires TableKept(rows, now, records) && TextsCurrent(rows, messages, last)
    ensures TextsCurrent(now, messages, Noted(last, now))
  {
    hide RecordHas, Recorded, Noted;
  }

  lemma StartCurrent(s: State, step: Step, last: seq<string>, embed: string -> Vector)
    requires Inv(s, embed) && Enabled(s, step) && step.Start? && s.drains == map[] && Current(s, last)
    ensures var t := Apply(s, step, embed); Current(t, Noted(last, t.outbox))
  {
    hide Batch, Groups, Noted, Distinct, AllDescribe, Genuine;
    var batch := Batch(s.outbox, step.limit);
    BatchIsFresh(s.outbox, step.limit);
    GroupsCurrent(batch, s.outbox);
    SameTexts(s.outbox, s.store.messages, last);
  }

  lemma SameTexts(rows: Table, messages: map<string, Message>, last: seq<string>)
    requires TextsCurrent(rows, messages, last)
    ensures TextsCurrent(rows, messages, Noted(last, rows))
  {
  }

  lemma GroupsCurrent(batch: seq<Snap>, rows: Table)
    requires Fresh(batch, rows) && Distinct(batch)
    ensures Groupwise(Groups(batch)) && forall g :: g in Groups(batch) ==> AllStanding(g, rows)
  {
    hide Groups, Distinct;
    GroupsBySession(batch);
    GroupsHold(batch);
    var gs := Groups(batch);
    forall i, j | 0 <= i < j < |gs|
      ensures Apart(gs[i], gs[j])
    {
      assert gs[i] in gs && gs[j] in gs;
    }
  }

  lemma WriteCurrent(s: State, step: Step, last: seq<string>, embed: string -> Vector)
    requires Inv(s, embed) && Enabled(s, step) && step.Write? && Current(s, last)
    ensures var t := Apply(s, step, embed); Current(t, Noted(last, t.outbox))
  {
    hide Noted, Distinct, AllDescribe, WriteSession, Genuine, Standing, Inv, Unique, TextsCurrent, InStore;
    var drain := s.drains[step.d];
    var group, rest := drain.todo[0], drain.todo[1..];
    var t := Apply(s, step, embed);
    assert forall g :: g in rest ==> g in drain.todo;
    assert group in drain.todo;
    forall g | g in rest
      ensures Apart(group, g)
    {
      var k :| 0 <= k < |rest| && rest[k] == g;
      assert drain.todo[k + 1] == g;
    }
    RestGroupwise(drain.todo);
    if step.outcome != RolledBack {
      NextGenuine(s, step.d, embed);
      WroteCurrent(s, group, step.up, last, embed);
    }
    SameTexts(t.outbox, t.store.messages, last);
    assert t.drains[step.d].todo == rest;
    NothingWritten(t.outbox, t.store.messages);
  }

  lemma NextGenuine(s: State, d: nat, embed: string -> Vector)
    requires Inv(s, embed) && d in s.drains && s.drains[d].todo != []
    ensures AllGenuine(s.drains[d].todo[0], s.outbox, s.captured)
  {
    hide Genuine, AllDescribe;
    assert s.drains[d].todo[0] in s.drains[d].todo;
  }

  lemma NothingWritten(rows: Table, messages: map<string, Message>)
    ensures AllStanding([], rows) && InStore([], messages)
  {
  }

  lemma RestGroupwise(todo: seq<seq<Snap>>)
    requires Groupwise(todo) && todo != []
    ensures Groupwise(todo[1..])
  {
    hide Distinct, Apart;
  }

  lemma WroteCurrent(s: State, group: seq<Snap>, up: seq<bool>, last: seq<string>, embed: string -> Vector)
    requires Inv(s, embed) && AllStanding(group, s.outbox) && Distinct(group) && AllGenuine(group, s.outbox, s.captured)
    requires group != [] && |up| == |group| && TextsCurrent(s.outbox, s.store.messages, last)
    ensures var now := WriteSession(s.store, group, up, embed).messages;
      TextsCurrent(s.outbox, now, last) && InStore(group, now)
  {
    hide UpsertAll, UpsertConversation, AllDescribe, EmbeddingFor;
    var rows := s.outbox;
    var now := UpsertAll(s.store.messages, group, up, embed);
    OwnUuids(group, rows);
    forall x | x in group
      ensures x.row.rec.uuid in now && now[x.row.rec.uuid].content == x.row.rec.content
    {
      var i :| 0 <= i < |group| && group[i] == x;
      assert Genuine(x, rows, s.captured);
      EachAlone(s.store.messages, group, up, embed, i);
    }
    forall i | 0 <= i < |rows| && rows[i].sent
      ensures rows[i].rec.uuid in now && now[rows[i].rec.uuid].content == last[i]
    {
      NotWritten(group, rows, i);
      Untouched(s.store.messages, group, up, embed, rows[i].rec.uuid);
    }
  }

  lemma OwnUuids(group: seq<Snap>, rows: Table)
    requires AllStanding(group, rows) && Distinct(group) && Unique(rows)
    ensures OwnIds(group)
  {
    forall i, j | 0 <= i < j < |group|
      ensures group[i].row.rec.uuid != group[j].row.rec.uuid
    {
      assert group[i] in group && group[j] in group;
    }
  }

  lemma NotWritten(group: seq<Snap>, rows: Table, i: nat)
    requires AllStanding(group, rows) && Unique(rows) && i < |rows| && rows[i].sent
    ensures !Writes(group, rows[i].rec.uuid)
  {
    forall k | 0 <= k < |group|
      ensures group[k].row.rec.uuid != rows[i].rec.uuid
    {
      assert Standing(group[k], rows);
    }
  }

  lemma SentCurrent(s: State, step: Step, last: seq<string>, embed: string -> Vector)
    requires Inv(s, embed) && Enabled(s, step) && step.Sent? && Current(s, last)
    ensures var t := Apply(s, step, embed); Current(t, Noted(last, t.outbox))
  {
    hide Noted, Distinct, AllDescribe, MarkSent, Inv, Groupwise;
    var drain := s.drains[step.d];
    var written, rows := drain.written, s.outbox;
    var t := Apply(s, step, embed);
    var now := t.outbox;
    MarkSentRows(rows, written);
    forall g | g in drain.todo
      ensures AllStanding(g, now)
    {
      StillStanding(g, written, rows);
    }
    SentTexts(written, rows, s.store.messages, last);
    NothingWritten(now, t.store.messages);
  }

  lemma StillStanding(g: seq<Snap>, written: seq<Snap>, rows: Table)
    requires AllStanding(g, rows) && Apart(written, g)
    ensures AllStanding(g, MarkSent(rows, written))
  {
    hide MarkSent, Unchanged;
    MarkSentRows(rows, written);
    forall y | y in g
      ensures Standing(y, MarkSent(rows, written))
    {
      assert !HeldAs(written, y.id, rows[y.id]);
    }
  }

  lemma SentTexts(written: seq<Snap>, rows: Table, messages: map<string, Message>, last: seq<string>)
    requires AllStanding(written, rows) && InStore(written, messages) && TextsCurrent(rows, messages, last)
    ensures var now := MarkSent(rows, written); TextsCurrent(now, messages, Noted(last, now))
  {
    hide MarkSent, Noted;
    MarkSentRows(rows, written);
    var now := MarkSent(rows, written);
    forall i | 0 <= i < |now| && now[i].sent
      ensures now[i].rec.uuid in messages && messages[now[i].rec.uuid].content == last[i]
    {
      if !rows[i].sent {
        var x :| x in written && x.id == i && Unchanged(rows[i], x);
      }
    }
  }

  lemma FailedCurrent(s: State, step: Step, last: seq<string>, embed: string -> Vector)
    requires Inv(s, embed) && Enabled(s, step) && step.Failed? && Current(s, last)
    ensures var t := Apply(s, step, embed); Current(t, Noted(last, t.outbox))
  {
    hide Noted, Distinct, AllDescribe, MarkFailed, Inv, Groupwise;
    MarkFailedRows(s.outbox, s.drains[step.d].refused);
    SameStanding(s.outbox, MarkFailed(s.outbox, s.drains[step.d].refused));
    var t := Apply(s, step, embed);
    FailedTexts(s.outbox, t.outbox, s.store.messages, last);
  }

  lemma SameStanding(rows: Table, now: Table)
    requires |now| == |rows| && forall i :: 0 <= i < |rows| ==> now[i].rec == rows[i].rec && now[i].sent == rows[i].sent
    ensures forall x :: Standing(x, rows) ==> Standing(x, now)
  {
  }

  lemma FailedTexts(rows: Table, now: Table, messages: map<string, Message>, last: seq<string>)
    requires |now| == |rows| && forall i :: 0 <= i < |rows| ==> now[i].rec == rows[i].rec && now[i].sent == rows[i].sent
    requires TextsCurrent(rows, messages, last)
    ensures TextsCurrent(now, messages, Noted(last, now))
  {
  }

  lemma StepCurrent(s: State, step: Step, last: seq<string>, embed: string -> Vector)
    requires Inv(s, embed) && Enabled(s, step) && (step.Start? ==> s.drains == map[]) && Current(s, last)
    ensures var t := Apply(s, step, embed); Current(t, Noted(last, t.outbox))
  {
    match step {
      case Hook(_, _, _, _) => HookCurrent(s, step, last, embed);
      case Start(_, _, _) => StartCurrent(s, step, last, embed);
      case Write(_, _, _) => WriteCurrent(s, step, last, embed);
      case Sent(_) => SentCurrent(s, step, last, embed);
      case Failed(_) => FailedCurrent(s, step, last, embed);
      case Die(_) => SameTexts(s.outbox, s.store.messages, last);
    }
  }

  lemma {:induction false} RunCurrent(s: State, steps: seq<Step>, last: seq<string>, embed: string -> Vector)
    requires Inv(s, embed) && CanRun(s, steps, embed) && OneAtATime(s, steps, embed) && Current(s, last)
    ensures Current(Run(s, steps, embed), LastQueued(s, steps, last, embed))
    decreases |steps|
  {
    hide Inv, Current, Apply, Enabled, Noted;
    if steps != [] {
      var next := Apply(s, steps[0], embed);
      StepKeeps(s, steps[0], embed);
      StepCurrent(s, steps[0], last, embed);
      RunCurrent(next, steps[1..], Noted(last, next.outbox), embed);
    }
  }

  // With one drain at a time, whatever fails, dies or loses its reply: the text last queued for a message waits
  // in the table, or is the one Postgres holds.
  lemma LatestText(steps: seq<Step>, embed: string -> Vector, i: nat)
    requires CanRun(EMPTY, steps, embed) && OneAtATime(EMPTY, steps, embed) && i < |Run(EMPTY, steps, embed).outbox|
    ensures var t, last := Run(EMPTY, steps, embed), LastQueued(EMPTY, steps, [], embed);
      var row := t.outbox[i];
      && |last| == |t.outbox|
      && if row.sent then row.rec.uuid in t.store.messages && t.store.messages[row.rec.uuid].content == last[i]
         else row.rec.content == last[i]
  {
    hide CanRun, Run, LastQueued, OneAtATime, Inv;
    EmptyHolds(embed);
    assert Current(EMPTY, []);
    RunCurrent(EMPTY, steps, [], embed);
  }

  // ---- two drains at a time ------------------------------------------------------------------------------------

  const OLD: Record := Record("u", "s", None, None, None, "user", "martin", None, None, "old", 0)

  // The same message, read again with another text.
  const NEW: Record := OLD.(content := "new")

  const WAS: Snap := Snap(0, Row(OLD, false, 0))

  const AGAIN: Snap := Snap(0, Row(NEW.(name := Some("t")), false, 0))

  // Two drains take the row; one delivers it, the message is queued again for its new title with its new text,
  // and that is delivered; then the other drain writes the old text.
  const OVERLAP: seq<Step> := [
    Hook([OLD], "s", None, None), Start(0, 1, true), Start(1, 1, true), Write(1, [true], Committed), Step.Sent(1),
    Hook([NEW], "s", Some("t"), None), Die(1), Start(1, 1, true), Write(1, [true], Committed), Step.Sent(1),
    Write(0, [true], Committed)]

  // The steps from s on can be taken, and end in t, with these texts last queued.
  ghost predicate Goes(s: State, steps: seq<Step>, last: seq<string>, t: State, later: seq<string>, embed: string -> Vector) {
    CanRun(s, steps, embed) && Run(s, steps, embed) == t && LastQueued(s, steps, last, embed) == later
  }

  lemma Goes0(s: State, last: seq<string>, embed: string -> Vector)
    ensures Goes(s, [], last, s, last, embed)
  {
  }

  lemma GoesOn(s: State, steps: seq<Step>, last: seq<string>, t: State, later: seq<string>, embed: string -> Vector)
    requires steps != [] && Enabled(s, steps[0])
    requires var next := Apply(s, steps[0], embed); Goes(next, steps[1..], Noted(last, next.outbox), t, later, embed)
    ensures Goes(s, steps, last, t, later, embed)
  {
    hide Apply, Noted, Enabled;
  }

  // The drain takes the one row.
  lemma Takes(s: State, d: nat, x: Snap, embed: string -> Vector)
    requires s.outbox == [x.row] && x.id == 0 && !x.row.sent && d !in s.drains
    ensures Apply(s, Start(d, 1, true), embed) == s.(drains := s.drains[d := Drain([[x]], [], [])])
  {
    hide Groups;
    QueueIsPending(s.outbox);
    assert s.outbox[..0] == [];
    assert Queue(s.outbox) == [x];
    OneGroup(x);
  }

  lemma Writes1(s: State, d: nat, x: Snap, embed: string -> Vector)
    requires d in s.drains && s.drains[d] == Drain([[x]], [], []) && x.row.rec.content != ""
    ensures var t := Apply(s, Write(d, [true], Committed), embed);
      && t.outbox == s.outbox && t.drains == s.drains[d := Drain([], [x], [])]
      && InStore([x], t.store.messages)
  {
    hide UpsertAll, UpsertConversation, EmbeddingFor;
    assert [[x]][1..] == [];
    EachAlone(s.store.messages, [x], [true], embed, 0);
  }

  lemma Marks(s: State, d: nat, x: Snap, embed: string -> Vector)
    requires s.outbox == [x.row] && x.id == 0 && !x.row.sent && d in s.drains && s.drains[d] == Drain([], [x], [])
    ensures Apply(s, Step.Sent(d), embed) == s.(outbox := [Tombstone(x.row)], drains := s.drains[d := Drain([], [], [])])
  {
    assert [x][..0] == [];
    assert MarkSent(s.outbox, [x]) == MarkOne(s.outbox, x);
  }

  lemma Hooks(embed: string -> Vector)
    ensures AppendToOutbox([], [OLD], "s", None, None) == [WAS.row]
    ensures AppendToOutbox([Tombstone(WAS.row)], [NEW], "s", Some("t"), None) == [AGAIN.row]
  {
    assert [OLD][1..] == [] && [NEW][1..] == [];
    assert InsertAll([], [OLD]) == [WAS.row];
    var rows := [Tombstone(WAS.row)];
    assert rows[0].rec.uuid == NEW.uuid;
    assert InsertAll(rows, [NEW]) == rows;
    assert rows[..0] == [];
  }

  lemma NotedOne(last: seq<string>, row: Row)
    ensures Noted(last, [row]) == [if !row.sent then row.rec.content else if 0 < |last| then last[0] else ""]
  {
  }

  // What Postgres holds of the message is not the text last queued, which is nowhere any more.
  lemma OverlapRegresses(embed: string -> Vector)
    ensures CanRun(EMPTY, OVERLAP, embed)
    ensures var t := Run(EMPTY, OVERLAP, embed);
      && t.outbox == [Tombstone(AGAIN.row)] && LastQueued(EMPTY, OVERLAP, [], embed) == ["new"]
      && "u" in t.store.messages && t.store.messages["u"].content == "old"
  {
    hide Noted, AppendToOutbox, Batch, Groups, MarkSent, WriteSession, CanRun, Run, LastQueued;
    Hooks(embed);
    var s1 := Apply(EMPTY, OVERLAP[0], embed);
    Takes(s1, 0, WAS, embed);
    var s2 := Apply(s1, OVERLAP[1], embed);
    Takes(s2, 1, WAS, embed);
    var s3 := Apply(s2, OVERLAP[2], embed);
    Writes1(s3, 1, WAS, embed);
    var s4 := Apply(s3, OVERLAP[3], embed);
    Marks(s4, 1, WAS, embed);
    var s5 := Apply(s4, OVERLAP[4], embed);
    SecondHalf(s5, embed);
    var t :| Goes(s5, OVERLAP[5..], ["old"], t, ["new"], embed) && Ends(t);
    NotedOne([], WAS.row);
    NotedOne(["old"], WAS.row);
    NotedOne(["old"], Tombstone(WAS.row));
    GoesOn(s4, OVERLAP[4..], ["old"], t, ["new"], embed);
    GoesOn(s3, OVERLAP[3..], ["old"], t, ["new"], embed);
    GoesOn(s2, OVERLAP[2..], ["old"], t, ["new"], embed);
    GoesOn(s1, OVERLAP[1..], ["old"], t, ["new"], embed);
    GoesOn(EMPTY, OVERLAP, [], t, ["new"], embed);
  }

  ghost predicate Ends(t: State) {
    t.outbox == [Tombstone(AGAIN.row)] && "u" in t.store.messages && t.store.messages["u"].content == "old"
  }

  lemma SecondHalf(s: State, embed: string -> Vector)
    requires s.outbox == [Tombstone(WAS.row)] && s.drains == map[0 := Drain([[WAS]], [], []), 1 := Drain([], [], [])]
    ensures exists t :: Goes(s, OVERLAP[5..], ["old"], t, ["new"], embed) && Ends(t)
  {
    hide Noted, AppendToOutbox, Batch, Groups, MarkSent, WriteSession, CanRun, Run, LastQueued, Goes;
    Hooks(embed);
    var s6 := Apply(s, OVERLAP[5], embed);
    var s7 := Apply(s6, OVERLAP[6], embed);
    assert s7.drains == map[0 := Drain([[WAS]], [], [])];
    Takes(s7, 1, AGAIN, embed);
    var s8 := Apply(s7, OVERLAP[7], embed);
    Writes1(s8, 1, AGAIN, embed);
    var s9 := Apply(s8, OVERLAP[8], embed);
    Marks(s9, 1, AGAIN, embed);
    var s10 := Apply(s9, OVERLAP[9], embed);
    Writes1(s10, 0, WAS, embed);
    var t := Apply(s10, OVERLAP[10], embed);
    assert WAS in [WAS];
    NotedOne(["old"], AGAIN.row);
    NotedOne(["new"], AGAIN.row);
    NotedOne(["new"], Tombstone(AGAIN.row));
    assert OVERLAP[11..] == [];
    Goes0(t, ["new"], embed);
    GoesOn(s10, OVERLAP[10..], ["new"], t, ["new"], embed);
    GoesOn(s9, OVERLAP[9..], ["new"], t, ["new"], embed);
    GoesOn(s8, OVERLAP[8..], ["new"], t, ["new"], embed);
    GoesOn(s7, OVERLAP[7..], ["new"], t, ["new"], embed);
    GoesOn(s6, OVERLAP[6..], ["new"], t, ["new"], embed);
    GoesOn(s, OVERLAP[5..], ["old"], t, ["new"], embed);
  }
}
