// The hook's outbox (hook/hook/record.py) and what the drain does to it (hook/hook/drain.py): one
// table of rows, each of which is pending (with its text) or a tombstone (sent, its text blanked).
module OutboxTable {
  import opened Bytes

  datatype Record = Record(uuid: string, session: string, name: Option<string>, aiTitle: Option<string>,
                           host: Option<string>, role: string, author: string, toolName: Option<string>,
                           model: Option<string>, content: string, seqNum: int)

  // A row of the table: what a run of the hook recorded, and how far its delivery has got. Rows are
  // never deleted, so a row's id is its place in the table.
  datatype Row = Row(rec: Record, sent: bool, attempts: nat)

  // A row as a drain read it.
  datatype Snap = Snap(id: nat, row: Row)

  type Table = seq<Row>

  // ---- the hook: _append_to_outbox and _carry_titles -----------------------------------------------

  predicate HasUuid(rows: Table, uuid: string) {
    exists i :: 0 <= i < |rows| && rows[i].rec.uuid == uuid
  }

  // INSERT OR IGNORE against the UNIQUE message_uuid.
  function InsertAll(rows: Table, records: seq<Record>): Table
    decreases |records|
  {
    if records == [] then rows
    else
      var r := records[0];
      InsertAll(if HasUuid(rows, r.uuid) then rows else rows + [Row(r, false, 0)], records[1..])
  }

  function Coalesce<T>(a: Option<T>, b: Option<T>): Option<T> {
    if a.Some? then a else b
  }

  function Titled(row: Row, name: Option<string>, aiTitle: Option<string>): Row {
    row.(rec := row.rec.(name := Coalesce(name, row.rec.name), aiTitle := Coalesce(aiTitle, row.rec.aiTitle)))
  }

  predicate PendingIn(row: Row, session: string) {
    row.rec.session == session && !row.sent
  }

  predicate AnyPending(rows: Table, session: string) {
    exists i :: 0 <= i < |rows| && PendingIn(rows[i], session)
  }

  // Every pending row of the session takes the titles.
  function TitlePending(rows: Table, session: string, name: Option<string>, aiTitle: Option<string>): (r: Table)
    ensures |r| == |rows|
    ensures forall i :: 0 <= i < |rows| ==>
      r[i] == if PendingIn(rows[i], session) then Titled(rows[i], name, aiTitle) else rows[i]
  {
    if rows == [] then []
    else
      var last := rows[|rows| - 1];
      TitlePending(rows[..|rows| - 1], session, name, aiTitle)
        + [if PendingIn(last, session) then Titled(last, name, aiTitle) else last]
  }

  // ORDER BY sequence_num DESC, id DESC LIMIT 1
  function Latest(rows: Table, session: string): (r: Option<nat>)
    ensures r.Some? ==> r.value < |rows| && rows[r.value].rec.session == session
    ensures r.Some? ==> forall i :: 0 <= i < |rows| && rows[i].rec.session == session ==>
      rows[i].rec.seqNum <= rows[r.value].rec.seqNum &&
      (rows[i].rec.seqNum == rows[r.value].rec.seqNum ==> i <= r.value)
    ensures r.None? ==> forall i :: 0 <= i < |rows| ==> rows[i].rec.session != session
  {
    if rows == [] then None
    else
      var n := |rows| - 1;
      var before := Latest(rows[..n], session);
      if rows[n].rec.session == session &&
        (before.None? || rows[before.value].rec.seqNum <= rows[n].rec.seqNum) then Some(n) else before
  }

  function FindRecord(records: seq<Record>, uuid: string): (r: Option<Record>)
    ensures r.Some? ==> r.value in records && r.value.uuid == uuid
  {
    if records == [] then None
    else if records[0].uuid == uuid then Some(records[0])
    else FindRecord(records[1..], uuid)
  }

  // A title worth carrying: neither missing nor empty.
  predicate Truthy(title: Option<string>) {
    title.Some? && title.value != ""
  }

  predicate Stale(title: Option<string>, sentTitle: Option<string>) {
    Truthy(title) && title != sentTitle
  }

  // A new title with nothing to ride on: the session's newest row is queued again, its text refilled
  // from the transcript, or left alone.
  function Requeue(rows: Table, records: seq<Record>, session: string, name: Option<string>, aiTitle: Option<string>): (r: Table)
    ensures |r| == |rows|
  {
    var latest := Latest(rows, session);
    if latest.None? then rows
    else
      var row := rows[latest.value];
      var rec := FindRecord(records, row.rec.uuid);
      if (Stale(name, row.rec.name) || Stale(aiTitle, row.rec.aiTitle)) && rec.Some? then
        rows[latest.value :=
          Row(Titled(row, name, aiTitle).rec.(content := rec.value.content), false, 0)]
      else rows
  }

  function CarryTitles(rows: Table, records: seq<Record>, session: string, name: Option<string>, aiTitle: Option<string>): Table {
    if AnyPending(rows, session) then TitlePending(rows, session, name, aiTitle)
    else Requeue(rows, records, session, name, aiTitle)
  }

  function AppendToOutbox(rows: Table, records: seq<Record>, session: string, name: Option<string>, aiTitle: Option<string>): Table {
    var inserted := InsertAll(rows, records);
    if Truthy(name) || Truthy(aiTitle) then CarryTitles(inserted, records, session, name, aiTitle) else inserted
  }

  // ---- the drain's statements: _mark_sent, _mark_failed --------------------------------------------

  predicate Unchanged(row: Row, snap: Snap) {
    && !row.sent
    && row.rec.content == snap.row.rec.content
    && row.rec.name == snap.row.rec.name
    && row.rec.aiTitle == snap.row.rec.aiTitle
  }

  function Tombstone(row: Row): Row {
    Row(row.rec.(content := ""), true, row.attempts)
  }

  function MarkOne(rows: Table, snap: Snap): (r: Table)
    ensures |r| == |rows|
  {
    if snap.id < |rows| && Unchanged(rows[snap.id], snap) then rows[snap.id := Tombstone(rows[snap.id])] else rows
  }

  function MarkSent(rows: Table, snaps: seq<Snap>): (r: Table)
    ensures |r| == |rows|
  {
    if snaps == [] then rows else MarkOne(MarkSent(rows, snaps[..|snaps| - 1]), snaps[|snaps| - 1])
  }

  function MarkFailed(rows: Table, snaps: seq<Snap>): (r: Table)
    ensures |r| == |rows|
  {
    if snaps == [] then rows
    else
      var before := MarkFailed(rows, snaps[..|snaps| - 1]);
      var id := snaps[|snaps| - 1].id;
      if id < |before| then before[id := before[id].(attempts := before[id].attempts + 1)] else before
  }

  // ---- the drain's read: _pending ----------------------------------------------------------------------

  // What goes first: fewer failed attempts, then the lower id.
  predicate Ahead(a: Snap, b: Snap) {
    a.row.attempts < b.row.attempts || (a.row.attempts == b.row.attempts && a.id < b.id)
  }

  function InsertSorted(snaps: seq<Snap>, s: Snap): (r: seq<Snap>)
    ensures multiset(r) == multiset(snaps) + multiset{s}
  {
    if snaps == [] then [s]
    else if Ahead(snaps[|snaps| - 1], s) then snaps + [s]
    else
      var front, last := snaps[..|snaps| - 1], snaps[|snaps| - 1];
      assert snaps == front + [last];
      InsertSorted(front, s) + [last]
  }

  function Queue(rows: Table): seq<Snap> {
    if rows == [] then []
    else
      var n := |rows| - 1;
      if rows[n].sent then Queue(rows[..n]) else InsertSorted(Queue(rows[..n]), Snap(n, rows[n]))
  }

  function Batch(rows: Table, limit: nat): seq<Snap> {
    var q := Queue(rows);
    if |q| <= limit then q else q[..limit]
  }

  ghost predicate Sorted(snaps: seq<Snap>) {
    forall i, j :: 0 <= i < j < |snaps| ==> Ahead(snaps[i], snaps[j])
  }

  lemma InsertSortedHas(snaps: seq<Snap>, s: Snap)
    ensures forall x :: x in InsertSorted(snaps, s) <==> x in snaps || x == s
  {
    hide InsertSorted;
    var r := InsertSorted(snaps, s);
    assert forall x :: x in r <==> x in multiset(r);
    assert forall x :: x in snaps <==> x in multiset(snaps);
  }

  lemma {:induction false} InsertSortedSorts(snaps: seq<Snap>, s: Snap)
    requires Sorted(snaps) && forall i :: 0 <= i < |snaps| ==> snaps[i].id != s.id
    ensures Sorted(InsertSorted(snaps, s))
    decreases |snaps|
  {
    if snaps != [] {
      var front, last := snaps[..|snaps| - 1], snaps[|snaps| - 1];
      if !Ahead(last, s) {
        InsertSortedSorts(front, s);
        InsertSortedHas(front, s);
        var r := InsertSorted(front, s);
        forall i | 0 <= i < |r|
          ensures Ahead(r[i], last)
        {
          assert r[i] in r;
          if r[i] != s {
            var j :| 0 <= j < |front| && front[j] == r[i];
            assert snaps[j] == front[j];
          }
        }
      }
    }
  }

  // The queue is exactly the pending rows as they stand, in order.
  lemma {:induction false} QueueIsPending(rows: Table)
    ensures Sorted(Queue(rows))
    ensures forall s :: s in Queue(rows) <==> s.id < |rows| && s.row == rows[s.id] && !rows[s.id].sent
    decreases |rows|
  {
    if rows != [] {
      var n := |rows| - 1;
      QueueIsPending(rows[..n]);
      var q := Queue(rows[..n]);
      if !rows[n].sent {
        forall i | 0 <= i < |q|
          ensures q[i].id != n
        {
          assert q[i] in q;
        }
        InsertSortedSorts(q, Snap(n, rows[n]));
        InsertSortedHas(q, Snap(n, rows[n]));
      }
    }
  }

  // A batch holds pending rows as they stand, and leaves out only rows that come after all it holds.
  lemma BatchTakesTheFirst(rows: Table, limit: nat)
    ensures var b := Batch(rows, limit);
      && |b| <= limit && Sorted(b)
      && (forall s :: s in b ==> s.id < |rows| && s.row == rows[s.id] && !rows[s.id].sent)
      && (forall i :: 0 <= i < |rows| && !rows[i].sent && Snap(i, rows[i]) !in b ==>
        |b| == limit && forall s :: s in b ==> Ahead(s, Snap(i, rows[i])))
  {
    hide Queue;
    QueueIsPending(rows);
    var q, b := Queue(rows), Batch(rows, limit);
    assert forall s :: s in b ==> s in q;
    forall i | 0 <= i < |rows| && !rows[i].sent && Snap(i, rows[i]) !in b
      ensures |b| == limit && forall s :: s in b ==> Ahead(s, Snap(i, rows[i]))
    {
      var x := Snap(i, rows[i]);
      assert x in q;
      var j :| 0 <= j < |q| && q[j] == x;
    }
  }

  // ---- the drain's groups: _group_by_session -------------------------------------------------------------

  function OfSession(snaps: seq<Snap>, session: string, yes: bool): (r: seq<Snap>)
    ensures |r| <= |snaps|
    ensures forall s :: s in r <==> s in snaps && (s.row.rec.session == session) == yes
  {
    if snaps == [] then []
    else
      var s := snaps[0];
      (if (s.row.rec.session == session) == yes then [s] else []) + OfSession(snaps[1..], session, yes)
  }

  // One group a session, in the order the sessions first appear, each in the order of the batch.
  function Groups(snaps: seq<Snap>): seq<seq<Snap>>
    decreases |snaps|
  {
    if snaps == [] then []
    else
      var session := snaps[0].row.rec.session;
      [OfSession(snaps, session, true)] + Groups(OfSession(snaps[1..], session, false))
  }
}
