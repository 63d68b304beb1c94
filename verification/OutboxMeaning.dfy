// What the statements of hook and drain make of a row, column by column (hook/hook/record.py:593-680,
// hook/hook/drain.py:80-144).
module OutboxMeaning {
  import opened Bytes
  import opened OutboxTable
  import opened OutboxProtocol
  import opened OutboxDrain

  // ---- the hook ----------------------------------------------------------------------------------------------

  // One more record is a new row, waiting, unless some row has its id.
  lemma {:induction false} InsertOneMore(rows: Table, records: seq<Record>, r: Record)
    ensures var t := InsertAll(rows, records);
      InsertAll(rows, records + [r]) == if exists i :: 0 <= i < |t| && t[i].rec.uuid == r.uuid then t else t + [Row(r, false, 0)]
    decreases |records|
  {
    if records == [] {
      assert ([] + [r])[1..] == [];
    } else {
      assert (records + [r])[1..] == records[1..] + [r];
      InsertOneMore(if HasUuid(rows, records[0].uuid) then rows else rows + [Row(records[0], false, 0)], records[1..], r);
    }
  }

  predicate Given(title: Option<string>) { title.Some? && title.value != "" }

  // The row as it was, but for the titles there are.
  function Carrying(row: Row, name: Option<string>, aiTitle: Option<string>): Row {
    Row(Record(row.rec.uuid, row.rec.session, if name.Some? then name else row.rec.name,
               if aiTitle.Some? then aiTitle else row.rec.aiTitle, row.rec.host, row.rec.role, row.rec.author,
               row.rec.toolName, row.rec.model, row.rec.content, row.rec.seqNum), row.sent, row.attempts)
  }

  // With no title to carry, or none of the session's rows waiting and no row of it at all, nothing more happens. With
  // rows of the session waiting, just those carry the titles.
  lemma TitlesMean(rows: Table, records: seq<Record>, session: string, name: Option<string>, aiTitle: Option<string>)
    ensures var was, now := InsertAll(rows, records), AppendToOutbox(rows, records, session, name, aiTitle);
      && (!Given(name) && !Given(aiTitle) ==> now == was)
      && ((forall i :: 0 <= i < |was| ==> was[i].rec.session != session) ==> now == was)
      && ((Given(name) || Given(aiTitle)) && (exists i :: 0 <= i < |was| && was[i].rec.session == session && !was[i].sent) ==>
            && |now| == |was|
            && forall i :: 0 <= i < |was| ==>
                 now[i] == if was[i].rec.session == session && !was[i].sent then Carrying(was[i], name, aiTitle) else was[i])
  {
    hide InsertAll, TitlePending, Latest, FindRecord;
    var was := InsertAll(rows, records);
    if exists i :: 0 <= i < |was| && was[i].rec.session == session && !was[i].sent {
      assert AnyPending(was, session);
    }
    if forall i :: 0 <= i < |was| ==> was[i].rec.session != session {
      NothingOfIt(was, session);
    }
  }

  lemma NothingOfIt(rows: Table, session: string)
    requires forall i :: 0 <= i < |rows| ==> rows[i].rec.session != session
    ensures Latest(rows, session) == None && !AnyPending(rows, session)
  {
    hide Latest;
  }

  // With none waiting, the session's newest row l is queued again if a title is news to it and the transcript still has
  // its message, the k-th record; with that one's text, the titles, and no failures. Else nothing happens, and no other
  // row is ever touched.
  lemma RequeueMeans(rows: Table, records: seq<Record>, session: string, name: Option<string>, aiTitle: Option<string>, l: nat)
    requires Given(name) || Given(aiTitle)
    requires var was := InsertAll(rows, records);
      && l < |was| && was[l].rec.session == session
      && (forall i :: 0 <= i < |was| && was[i].rec.session == session ==>
            was[i].sent && (was[i].rec.seqNum < was[l].rec.seqNum || (was[i].rec.seqNum == was[l].rec.seqNum && i <= l)))
    ensures var was, now := InsertAll(rows, records), AppendToOutbox(rows, records, session, name, aiTitle);
      var row := was[l];
      var news := (Given(name) && name != row.rec.name) || (Given(aiTitle) && aiTitle != row.rec.aiTitle);
      && |now| == |was| && (forall i :: 0 <= i < |was| && i != l ==> now[i] == was[i])
      && (!news || (forall k :: 0 <= k < |records| ==> records[k].uuid != row.rec.uuid) ==> now[l] == row)
      && (forall k :: news && FirstWith(records, row.rec.uuid, k) ==>
            now[l] == Carrying(Row(row.rec.(content := records[k].content), false, 0), name, aiTitle))
  {
    hide InsertAll, TitlePending, Latest, FindRecord, AnyPending;
    var was := InsertAll(rows, records);
    NoneWaits(was, session);
    NewestIs(was, session, l);
    FirstRecord(records, was[l].rec.uuid);
  }

  predicate FirstWith(records: seq<Record>, uuid: string, k: int) {
    0 <= k < |records| && records[k].uuid == uuid && forall i :: 0 <= i < k ==> records[i].uuid != uuid
  }

  lemma NoneWaits(rows: Table, session: string)
    requires forall i :: 0 <= i < |rows| && rows[i].rec.session == session ==> rows[i].sent
    ensures !AnyPending(rows, session)
  {
  }

  lemma NewestIs(rows: Table, session: string, l: nat)
    requires l < |rows| && rows[l].rec.session == session
    requires forall i :: 0 <= i < |rows| && rows[i].rec.session == session ==>
      rows[i].rec.seqNum < rows[l].rec.seqNum || (rows[i].rec.seqNum == rows[l].rec.seqNum && i <= l)
    ensures Latest(rows, session) == Some(l)
  {
    hide Latest;
    var r := Latest(rows, session);
    assert r.Some? && rows[l].rec.seqNum <= rows[r.value].rec.seqNum;
  }

  lemma {:induction false} FirstRecord(records: seq<Record>, uuid: string)
    ensures (forall k :: 0 <= k < |records| ==> records[k].uuid != uuid) ==> FindRecord(records, uuid) == None
    ensures forall k :: FirstWith(records, uuid, k) ==> FindRecord(records, uuid) == Some(records[k])
    decreases |records|
  {
    if records != [] && records[0].uuid != uuid {
      var rest := records[1..];
      FirstRecord(rest, uuid);
      assert forall k :: 1 <= k < |records| ==> records[k] == rest[k - 1];
      forall k | FirstWith(records, uuid, k)
        ensures FindRecord(records, uuid) == Some(records[k])
      {
        assert FirstWith(rest, uuid, k - 1);
      }
    }
  }

  // ---- the drain --------------------------------------------------------------------------------------------------

  // The queue: fewer failures first, and of equal ones the lower id.
  lemma QueueMeans(rows: Table)
    ensures var q := Queue(rows);
      forall a, b :: 0 <= a < b < |q| ==>
        q[a].row.attempts < q[b].row.attempts || (q[a].row.attempts == q[b].row.attempts && q[a].id < q[b].id)
  {
    hide Queue;
    QueueIsPending(rows);
  }

  // A row is a tombstone afterwards, its text gone and nothing else, if it still waits with the text and the titles it was
  // written with; and is else as it was.
  lemma {:induction false} SentMeans(rows: Table, snaps: seq<Snap>)
    ensures |MarkSent(rows, snaps)| == |rows|
    ensures forall i :: 0 <= i < |rows| ==>
      MarkSent(rows, snaps)[i] == if AsWritten(rows[i], i, snaps) then Row(rows[i].rec.(content := ""), true, rows[i].attempts) else rows[i]
    decreases |snaps|
  {
    if snaps != [] {
      var n := |snaps| - 1;
      var front, last := snaps[..n], snaps[n];
      SentMeans(rows, front);
      assert snaps == front + [last];
      forall i | 0 <= i < |rows|
        ensures AsWritten(rows[i], i, snaps) <==> AsWritten(rows[i], i, front) || AsWritten(rows[i], i, [last])
      {
        WrittenMore(rows[i], i, front, last);
      }
    }
  }

  ghost predicate AsWritten(row: Row, i: nat, snaps: seq<Snap>) {
    exists x :: x in snaps && x.id == i && !row.sent && row.rec.content == x.row.rec.content
      && row.rec.name == x.row.rec.name && row.rec.aiTitle == x.row.rec.aiTitle
  }

  lemma WrittenMore(row: Row, i: nat, front: seq<Snap>, last: Snap)
    ensures AsWritten(row, i, front + [last]) <==> AsWritten(row, i, front) || AsWritten(row, i, [last])
  {
    if AsWritten(row, i, front) {
      var x :| x in front && x.id == i && !row.sent && row.rec.content == x.row.rec.content
        && row.rec.name == x.row.rec.name && row.rec.aiTitle == x.row.rec.aiTitle;
      assert x in front + [last];
    }
    assert last in [last] && last in front + [last];
  }

  // Each row of the batch has failed once more, and nothing else is different.
  lemma {:induction false} FailedMeans(rows: Table, snaps: seq<Snap>)
    requires Distinct(snaps)
    ensures |MarkFailed(rows, snaps)| == |rows|
    ensures forall i :: 0 <= i < |rows| ==>
      MarkFailed(rows, snaps)[i] ==
        Row(rows[i].rec, rows[i].sent, rows[i].attempts + if exists x :: x in snaps && x.id == i then 1 else 0)
    decreases |snaps|
  {
    if snaps != [] {
      var n := |snaps| - 1;
      FailedMeans(rows, snaps[..n]);
      forall i | 0 <= i < |rows|
        ensures MarkFailed(rows, snaps)[i] ==
          Row(rows[i].rec, rows[i].sent, rows[i].attempts + if exists x :: x in snaps && x.id == i then 1 else 0)
      {
        InBatch(snaps, i);
      }
    }
  }

  lemma InBatch(snaps: seq<Snap>, i: nat)
    requires Distinct(snaps) && snaps != []
    ensures var n := |snaps| - 1;
      (exists x :: x in snaps && x.id == i) <==> (exists x :: x in snaps[..n] && x.id == i) || snaps[n].id == i
    ensures snaps[|snaps| - 1].id == i ==> !exists x :: x in snaps[..|snaps| - 1] && x.id == i
  {
    hide Distinct;
    var front, last := snaps[..|snaps| - 1], snaps[|snaps| - 1];
    LastDiffers(snaps);
    assert snaps == front + [last];
    assert forall x :: x in snaps <==> x in front || x == last;
  }

  lemma LastDiffers(snaps: seq<Snap>)
    requires Distinct(snaps) && snaps != []
    ensures forall x :: x in snaps[..|snaps| - 1] ==> x.id != snaps[|snaps| - 1].id
  {
    var n := |snaps| - 1;
    forall x | x in snaps[..n]
      ensures x.id != snaps[n].id
    {
      var k :| 0 <= k < n && snaps[..n][k] == x;
      assert snaps[k] == x;
    }
  }

  // One more row of a batch joins the end of its session's group, or is a group of its own behind the others.
  lemma GroupedOneMore(snaps: seq<Snap>, s: Snap)
    requires Distinct(snaps)
    ensures var gs, now := Groups(snaps), Groups(snaps + [s]);
      && (forall j :: 0 <= j < |gs| ==> gs[j] != [])
      && ((forall j :: 0 <= j < |gs| ==> gs[j][0].row.rec.session != s.row.rec.session) ==> now == gs + [[s]])
      && (forall j :: 0 <= j < |gs| && gs[j][0].row.rec.session == s.row.rec.session ==> now == gs[j := gs[j] + [s]])
  {
    hide Groups, AddTo;
    GroupsSnoc(snaps, s);
    var gs: seq<seq<Snap>> := Groups(snaps);
    GroupsBySession(snaps);
    if forall j :: 0 <= j < |gs| ==> gs[j][0].row.rec.session != s.row.rec.session {
      JoinsNone(gs, s);
    }
    forall j | 0 <= j < |gs| && gs[j][0].row.rec.session == s.row.rec.session
      ensures AddTo(gs, s) == gs[j := gs[j] + [s]]
    {
      forall i | 0 <= i < j
        ensures gs[i][0].row.rec.session != s.row.rec.session
      {
        assert gs[i][0] in gs[i] && gs[j][0] in gs[j];
      }
      JoinsAt(gs, s, j);
    }
  }

  lemma {:induction false} JoinsNone(gs: seq<seq<Snap>>, s: Snap)
    requires forall j :: 0 <= j < |gs| ==> gs[j] != [] && gs[j][0].row.rec.session != s.row.rec.session
    ensures AddTo(gs, s) == gs + [[s]]
    decreases |gs|
  {
    if gs != [] {
      JoinsNone(gs[1..], s);
      assert gs == [gs[0]] + gs[1..];
    }
  }

  lemma {:induction false} JoinsAt(gs: seq<seq<Snap>>, s: Snap, j: nat)
    requires j < |gs| && forall i :: 0 <= i < |gs| ==> gs[i] != []
    requires gs[j][0].row.rec.session == s.row.rec.session && forall i :: 0 <= i < j ==> gs[i][0].row.rec.session != s.row.rec.session
    ensures AddTo(gs, s) == gs[j := gs[j] + [s]]
    decreases |gs|
  {
    if j > 0 {
      JoinsAt(gs[1..], s, j - 1);
      assert gs == [gs[0]] + gs[1..];
    }
  }
}
