// The programs of the outbox, statement by statement: the hook's append (hook/hook/record.py:593-680)
// and the drain (hook/hook/drain.py:114-368). Every run of theirs is a run of OutboxProtocol.
module OutboxDrain {
  import opened Bytes
  import opened OutboxTable
  import opened Postgres
  import opened OutboxProtocol

  function Waiting(rows: Table): nat {
    if rows == [] then 0 else Waiting(rows[..|rows| - 1]) + if rows[|rows| - 1].sent then 0 else 1
  }

  // Titles are written: onto pending rows, or onto the newest one, queued again.
  predicate Carries(rows: Table, records: seq<Record>, session: string, name: Option<string>, aiTitle: Option<string>) {
    AnyPending(rows, session) || Requeue(rows, records, session, name, aiTitle) != rows
  }

  class Outbox {
    var rows: Table

    constructor ()
      ensures rows == []
    {
      rows := [];
    }

    // _append_to_outbox: one transaction. It says that it changed the table exactly when it inserted a row,
    // wrote titles onto pending rows, be they the same, or queued one again.
    method Append(records: seq<Record>, session: string, name: Option<string>, aiTitle: Option<string>)
      returns (changed: bool)
      modifies this
      ensures rows == AppendToOutbox(old(rows), records, session, name, aiTitle)
      ensures changed <==> (
        || InsertAll(old(rows), records) != old(rows)
        || ((Truthy(name) || Truthy(aiTitle)) && Carries(InsertAll(old(rows), records), records, session, name, aiTitle)))
      ensures rows != old(rows) ==> changed
    {
      hide AppendToOutbox, CarryTitles, InsertAll, Carries;
      changed := Insert(records);
      AppendIs(old(rows), rows, records, session, name, aiTitle);
      if Truthy(name) || Truthy(aiTitle) {
        var more := Carry(records, session, name, aiTitle);
        changed := changed || more;
      }
    }

    // INSERT OR IGNORE for each record: the ignored ones change nothing.
    method Insert(records: seq<Record>) returns (changed: bool)
      modifies this
      ensures rows == InsertAll(old(rows), records)
      ensures changed <==> rows != old(rows)
    {
      changed := false;
      var k := 0;
      while k < |records|
        invariant 0 <= k <= |records|
        invariant InsertAll(rows, records[k..]) == InsertAll(old(rows), records)
        invariant |old(rows)| <= |rows| && (changed <==> |rows| > |old(rows)|) && (!changed ==> rows == old(rows))
      {
        var r := records[k];
        assert records[k..][1..] == records[k + 1..];
        if !HasUuid(rows, r.uuid) {
          rows := rows + [Row(r, false, 0)];
          changed := true;
        }
        k := k + 1;
      }
    }

    // _carry_titles
    method Carry(records: seq<Record>, session: string, name: Option<string>, aiTitle: Option<string>)
      returns (changed: bool)
      modifies this
      ensures rows == CarryTitles(old(rows), records, session, name, aiTitle)
      ensures changed <==> Carries(old(rows), records, session, name, aiTitle)
      ensures rows != old(rows) ==> changed
    {
      hide Latest, FindRecord;
      changed := false;
      var k := 0;
      while k < |rows|
        invariant 0 <= k <= |rows| == |old(rows)|
        invariant forall i :: 0 <= i < |rows| ==>
          rows[i] == if i < k && PendingIn(old(rows)[i], session) then Titled(old(rows)[i], name, aiTitle) else old(rows)[i]
        invariant changed <==> exists i :: 0 <= i < k && PendingIn(old(rows)[i], session)
      {
        if PendingIn(rows[k], session) {
          rows := rows[k := Titled(rows[k], name, aiTitle)];
          changed := true;
        }
        k := k + 1;
      }
      if changed {
        assert rows == TitlePending(old(rows), session, name, aiTitle);
        return;
      }
      assert rows == old(rows);
      var latest := Latest(rows, session);
      if latest.None? { return; }
      var row := rows[latest.value];
      if !Stale(name, row.rec.name) && !Stale(aiTitle, row.rec.aiTitle) { return; }
      var record := FindRecord(records, row.rec.uuid);
      if record.None? { return; }
      rows := rows[latest.value := Row(Titled(row, name, aiTitle).rec.(content := record.value.content), false, 0)];
      changed := true;
    }

    // _mark_sent: the count is of the rows it made tombstones.
    method MarkSent(snaps: seq<Snap>) returns (marked: nat)
      modifies this
      ensures rows == OutboxTable.MarkSent(old(rows), snaps)
      ensures marked == Waiting(old(rows)) - Waiting(rows) && marked <= |snaps|
    {
      hide Waiting;
      marked := 0;
      var k := 0;
      while k < |snaps|
        invariant 0 <= k <= |snaps|
        invariant rows == OutboxTable.MarkSent(old(rows), snaps[..k])
        invariant marked == Waiting(old(rows)) - Waiting(rows) && marked <= k
      {
        var s := snaps[k];
        assert snaps[..k + 1][..k] == snaps[..k];
        if s.id < |rows| && Unchanged(rows[s.id], s) {
          OneFewer(rows, s.id);
          rows := rows[s.id := Tombstone(rows[s.id])];
          marked := marked + 1;
        }
        k := k + 1;
      }
      assert snaps[..k] == snaps;
    }

    // _mark_failed
    method MarkFailed(snaps: seq<Snap>)
      modifies this
      ensures rows == OutboxTable.MarkFailed(old(rows), snaps)
    {
      var k := 0;
      while k < |snaps|
        invariant 0 <= k <= |snaps|
        invariant rows == OutboxTable.MarkFailed(old(rows), snaps[..k])
      {
        var id := snaps[k].id;
        assert snaps[..k + 1][..k] == snaps[..k];
        if id < |rows| {
          rows := rows[id := rows[id].(attempts := rows[id].attempts + 1)];
        }
        k := k + 1;
      }
      assert snaps[..k] == snaps;
    }
  }

  lemma AppendIs(rows: Table, inserted: Table, records: seq<Record>, session: string, name: Option<string>, aiTitle: Option<string>)
    requires inserted == InsertAll(rows, records)
    ensures AppendToOutbox(rows, records, session, name, aiTitle)
      == if Truthy(name) || Truthy(aiTitle) then CarryTitles(inserted, records, session, name, aiTitle) else inserted
  {
  }

  lemma {:induction false} OneFewer(rows: Table, i: nat)
    requires i < |rows| && !rows[i].sent
    ensures Waiting(rows[i := Tombstone(rows[i])]) == Waiting(rows) - 1
    decreases |rows|
  {
    var n := |rows| - 1;
    var now := rows[i := Tombstone(rows[i])];
    if i < n {
      OneFewer(rows[..n], i);
      assert now[..n] == rows[..n][i := Tombstone(rows[i])];
    } else {
      assert now[..n] == rows[..n];
    }
  }

  // ---- _group_by_session -------------------------------------------------------------------------------

  // setdefault(session, []).append(row)
  function AddTo(groups: seq<seq<Snap>>, s: Snap): seq<seq<Snap>>
    requires forall i :: 0 <= i < |groups| ==> groups[i] != []
  {
    if groups == [] then [[s]]
    else if groups[0][0].row.rec.session == s.row.rec.session then [groups[0] + [s]] + groups[1..]
    else [groups[0]] + AddTo(groups[1..], s)
  }

  lemma {:induction false} OfSessionSnoc(snaps: seq<Snap>, s: Snap, session: string, yes: bool)
    ensures OfSession(snaps + [s], session, yes)
      == OfSession(snaps, session, yes) + if (s.row.rec.session == session) == yes then [s] else []
    decreases |snaps|
  {
    if snaps != [] {
      assert (snaps + [s])[1..] == snaps[1..] + [s];
      OfSessionSnoc(snaps[1..], s, session, yes);
    } else {
      assert (snaps + [s])[1..] == [];
    }
  }

  lemma {:induction false} GroupsSnoc(snaps: seq<Snap>, s: Snap)
    ensures forall i :: 0 <= i < |Groups(snaps)| ==> Groups(snaps)[i] != []
    ensures Groups(snaps + [s]) == AddTo(Groups(snaps), s)
    decreases |snaps|
  {
    hide OfSession, Groups, AddTo;
    if snaps == [] {
      NoGroups();
      OneGroup(s);
      AddToNone(s);
      assert [] + [s] == [s];
    } else {
      var session := snaps[0].row.rec.session;
      var mine, others := OfSession(snaps, session, true), OfSession(snaps[1..], session, false);
      FirstOf(snaps);
      GroupsOn(snaps);
      GroupsSnoc(others, s);
      GroupsOn(snaps + [s]);
      OfSessionSnoc(snaps, s, session, true);
      OfSessionSnoc(snaps[1..], s, session, false);
      assert (snaps + [s])[1..] == snaps[1..] + [s];
      assert others + [] == others && mine + [] == mine;
      AddToFirst(mine, Groups(others), s);
    }
  }

  lemma GroupsOn(snaps: seq<Snap>)
    requires snaps != []
    ensures var session := snaps[0].row.rec.session;
      Groups(snaps) == [OfSession(snaps, session, true)] + Groups(OfSession(snaps[1..], session, false))
  {
    hide OfSession;
  }

  lemma AddToNone(s: Snap)
    ensures AddTo([], s) == [[s]]
  {
  }

  lemma AddToFirst(mine: seq<Snap>, rest: seq<seq<Snap>>, s: Snap)
    requires mine != [] && forall i :: 0 <= i < |rest| ==> rest[i] != []
    ensures forall i :: 0 <= i < |[mine] + rest| ==> ([mine] + rest)[i] != []
    ensures AddTo([mine] + rest, s)
      == if mine[0].row.rec.session == s.row.rec.session then [mine + [s]] + rest else [mine] + AddTo(rest, s)
  {
    assert ([mine] + rest)[1..] == rest;
  }

  lemma OneGroup(s: Snap)
    ensures Groups([s]) == [[s]]
  {
    assert [s][1..] == [];
    assert OfSession([s], s.row.rec.session, true) == [s];
  }

  lemma NoGroups()
    ensures Groups([]) == []
  {
  }

  lemma FirstOf(snaps: seq<Snap>)
    requires snaps != []
    ensures var mine := OfSession(snaps, snaps[0].row.rec.session, true); mine != [] && mine[0] == snaps[0]
  {
  }

  lemma NoneEmpty(snaps: seq<Snap>)
    ensures forall i :: 0 <= i < |Groups(snaps)| ==> Groups(snaps)[i] != []
  {
    hide Groups;
    GroupsHold(snaps);
    var groups := Groups(snaps);
    assert forall i :: 0 <= i < |groups| ==> groups[i] in groups;
  }

  method GroupBySession(rows: seq<Snap>) returns (groups: seq<seq<Snap>>)
    ensures groups == Groups(rows)
  {
    hide Groups, AddTo;
    NoGroups();
    groups := [];
    var k := 0;
    while k < |rows|
      invariant 0 <= k <= |rows|
      invariant groups == Groups(rows[..k])
      invariant forall i :: 0 <= i < |groups| ==> groups[i] != []
    {
      assert rows[..k + 1] == rows[..k] + [rows[k]];
      GroupsSnoc(rows[..k], rows[k]);
      NoneEmpty(rows[..k + 1]);
      groups := AddTo(groups, rows[k]);
      k := k + 1;
    }
    assert rows[..k] == rows;
  }

  function Total(groups: seq<seq<Snap>>): nat {
    if groups == [] then 0 else |groups[0]| + Total(groups[1..])
  }

  // All the rows of the groups, as often as they are there.
  function Members(groups: seq<seq<Snap>>): multiset<Snap> {
    if groups == [] then multiset{} else multiset(groups[0]) + Members(groups[1..])
  }

  lemma {:induction false} OfSessionParts(snaps: seq<Snap>, session: string)
    ensures multiset(OfSession(snaps, session, true)) + multiset(OfSession(snaps, session, false)) == multiset(snaps)
    decreases |snaps|
  {
    if snaps != [] {
      var rest := snaps[1..];
      OfSessionParts(rest, session);
      assert snaps == [snaps[0]] + rest;
    }
  }

  // The groups hold each row of the batch exactly as often as the batch does.
  lemma {:induction false} GroupsLoseNothing(snaps: seq<Snap>)
    ensures Members(Groups(snaps)) == multiset(snaps)
    decreases |snaps|
  {
    if snaps != [] {
      hide OfSession;
      var session := snaps[0].row.rec.session;
      var mine, others := OfSession(snaps, session, true), OfSession(snaps[1..], session, false);
      FirstIn(snaps);
      OfSessionParts(snaps, session);
      GroupsLoseNothing(others);
      assert ([mine] + Groups(others))[1..] == Groups(others);
    }
  }

  lemma FirstIn(snaps: seq<Snap>)
    requires snaps != []
    ensures var session := snaps[0].row.rec.session; OfSession(snaps, session, false) == OfSession(snaps[1..], session, false)
  {
  }

  lemma {:induction false} MembersTotal(groups: seq<seq<Snap>>)
    ensures |Members(groups)| == Total(groups)
    decreases |groups|
  {
    if groups != [] {
      MembersTotal(groups[1..]);
    }
  }

  // One session a group, and no session in two.
  ghost predicate BySession(groups: seq<seq<Snap>>) {
    && (forall i, x, y :: 0 <= i < |groups| && x in groups[i] && y in groups[i] ==> x.row.rec.session == y.row.rec.session)
    && (forall i, j, x, y :: 0 <= i < j < |groups| && x in groups[i] && y in groups[j] ==> x.row.rec.session != y.row.rec.session)
  }

  ghost predicate Distinct(snaps: seq<Snap>) {
    forall i, j :: 0 <= i < j < |snaps| ==> snaps[i].id != snaps[j].id
  }

  lemma {:induction false} OfSessionDistinct(snaps: seq<Snap>, session: string, yes: bool)
    requires Distinct(snaps)
    ensures Distinct(OfSession(snaps, session, yes))
    decreases |snaps|
  {
    if snaps != [] {
      OfSessionDistinct(snaps[1..], session, yes);
      var rest := OfSession(snaps[1..], session, yes);
      forall j | 0 <= j < |rest|
        ensures rest[j].id != snaps[0].id
      {
        assert rest[j] in rest;
        assert rest[j] in snaps[1..];
      }
    }
  }

  lemma {:induction false} GroupsBySession(snaps: seq<Snap>)
    requires Distinct(snaps)
    ensures BySession(Groups(snaps)) && forall i :: 0 <= i < |Groups(snaps)| ==> Distinct(Groups(snaps)[i])
    decreases |snaps|
  {
    hide OfSession;
    if snaps != [] {
      var session := snaps[0].row.rec.session;
      var others := OfSession(snaps[1..], session, false);
      OfSessionDistinct(snaps, session, true);
      OfSessionDistinct(snaps[1..], session, false);
      GroupsBySession(others);
      GroupsHold(others);
      var rest := Groups(others);
      assert forall i :: 0 <= i < |rest| ==> rest[i] in rest;
      ConsBySession(OfSession(snaps, session, true), Groups(others), session);
    }
  }

  lemma ConsBySession(group: seq<Snap>, rest: seq<seq<Snap>>, session: string)
    requires BySession(rest) && forall x :: x in group ==> x.row.rec.session == session
    requires forall i, x :: 0 <= i < |rest| && x in rest[i] ==> x.row.rec.session != session
    ensures BySession([group] + rest)
  {
    var all := [group] + rest;
    assert forall i :: 1 <= i < |all| ==> all[i] == rest[i - 1];
    forall i, j, x: Snap, y: Snap | 0 <= i < j < |all| && x in all[i] && y in all[j]
      ensures x.row.rec.session != y.row.rec.session
    {
      if i == 0 {
        assert y in rest[j - 1];
      } else {
        assert x in rest[i - 1] && y in rest[j - 1];
      }
    }
  }

  // ---- rows nobody has touched since they were read ---------------------------------------------------

  ghost predicate Fresh(snaps: seq<Snap>, rows: Table) {
    forall s :: s in snaps ==> s.id < |rows| && rows[s.id] == s.row && !s.row.sent
  }

  lemma {:induction false} FreshAllMarked(rows: Table, snaps: seq<Snap>)
    requires Fresh(snaps, rows) && Distinct(snaps)
    ensures Waiting(OutboxTable.MarkSent(rows, snaps)) + |snaps| == Waiting(rows)
    decreases |snaps|
  {
    hide Waiting;
    if snaps != [] {
      var n := |snaps| - 1;
      var front, last := snaps[..n], snaps[n];
      assert forall s :: s in front ==> s in snaps;
      FreshAllMarked(rows, front);
      MarkSentRows(rows, front);
      var before := OutboxTable.MarkSent(rows, front);
      assert forall x :: x in front ==> x.id != last.id;
      assert before[last.id] == rows[last.id];
      assert last in snaps;
      OneFewer(before, last.id);
    }
  }

  // A session's group marked, either way, leaves the rows of the groups after it as they were.
  lemma StillFresh(rows: Table, now: Table, group: seq<Snap>, later: seq<Snap>)
    requires Fresh(later, rows) && |now| == |rows|
    requires forall i :: 0 <= i < |rows| && now[i] != rows[i] ==> exists x :: x in group && x.id == i
    requires Fresh(group, rows)
    requires forall x, y :: x in group && y in later ==> x.row.rec.session != y.row.rec.session
    ensures Fresh(later, now)
  {
  }

  lemma QuietSent(rows: Table, groups: seq<seq<Snap>>, k: nat)
    requires k < |groups| && BySession(groups) && Distinct(groups[k])
    requires forall j :: k <= j < |groups| ==> Fresh(groups[j], rows)
    ensures var now := OutboxTable.MarkSent(rows, groups[k]);
      && Waiting(now) + |groups[k]| == Waiting(rows)
      && forall j :: k < j < |groups| ==> Fresh(groups[j], now)
  {
    hide Waiting, Fresh, Distinct, OutboxTable.MarkSent, Unchanged;
    FreshAllMarked(rows, groups[k]);
    MarkSentRows(rows, groups[k]);
    forall j | k < j < |groups|
      ensures Fresh(groups[j], OutboxTable.MarkSent(rows, groups[k]))
    {
      StillFresh(rows, OutboxTable.MarkSent(rows, groups[k]), groups[k], groups[j]);
    }
  }

  lemma {:induction false} SameWaiting(rows: Table, now: Table)
    requires |now| == |rows| && forall i :: 0 <= i < |rows| ==> now[i].sent == rows[i].sent
    ensures Waiting(now) == Waiting(rows)
    decreases |rows|
  {
    if rows != [] {
      SameWaiting(rows[..|rows| - 1], now[..|rows| - 1]);
    }
  }

  lemma QuietFailed(rows: Table, groups: seq<seq<Snap>>, k: nat)
    requires k < |groups| && BySession(groups)
    requires forall j :: k <= j < |groups| ==> Fresh(groups[j], rows)
    ensures var now := OutboxTable.MarkFailed(rows, groups[k]);
      && Waiting(now) == Waiting(rows)
      && forall j :: k < j < |groups| ==> Fresh(groups[j], now)
  {
    hide Waiting, Fresh, OutboxTable.MarkFailed;
    MarkFailedRows(rows, groups[k]);
    FailedOnly(rows, groups[k]);
    SameWaiting(rows, OutboxTable.MarkFailed(rows, groups[k]));
    forall j | k < j < |groups|
      ensures Fresh(groups[j], OutboxTable.MarkFailed(rows, groups[k]))
    {
      StillFresh(rows, OutboxTable.MarkFailed(rows, groups[k]), groups[k], groups[j]);
    }
  }

  lemma BatchHolds(rows: Table, limit: nat, i: nat)
    requires i < |rows| && !rows[i].sent && limit > 0
    ensures Batch(rows, limit) != []
  {
    hide Batch;
    BatchTakesTheFirst(rows, limit);
    if Snap(i, rows[i]) !in Batch(rows, limit) {
      assert |Batch(rows, limit)| == limit;
    }
  }

  lemma BatchIsFresh(rows: Table, limit: nat)
    ensures Fresh(Batch(rows, limit), rows) && Distinct(Batch(rows, limit))
    ensures limit > 0 && Batch(rows, limit) == [] ==> Waiting(rows) == 0
  {
    hide Batch;
    BatchTakesTheFirst(rows, limit);
    var b := Batch(rows, limit);
    if limit > 0 && b == [] {
      forall i | 0 <= i < |rows|
        ensures rows[i].sent
      {
        if !rows[i].sent {
          BatchHolds(rows, limit, i);
        }
      }
      NoneWaiting(rows);
    }
  }

  lemma {:induction false} NoneWaiting(rows: Table)
    requires forall i :: 0 <= i < |rows| ==> rows[i].sent
    ensures Waiting(rows) == 0
    decreases |rows|
  {
    if rows != [] {
      NoneWaiting(rows[..|rows| - 1]);
    }
  }

  // ---- the system ---------------------------------------------------------------------------------------

  // Postgres, one transaction at a time.
  class Server {
    var store: Store

    constructor ()
      ensures store == Store(map[], map[])
    {
      store := Store(map[], map[]);
    }

    // _write_session, and the commit
    method WriteSession(rows: seq<Snap>, up: seq<bool>, embed: string -> Vector)
      requires rows != [] && |up| == |rows|
      modifies this
      ensures store == Postgres.WriteSession(old(store), rows, up, embed)
    {
      hide UpsertAll, Upsert;
      var first := rows[0].row.rec;
      var name := FindName(rows);
      var aiTitle := FindAiTitle(rows);
      var cs := store.conversations;
      if first.session !in cs {
        cs := cs[first.session := Conversation(name, aiTitle, first.host)];
      } else {
        var was := cs[first.session];
        cs := cs[first.session := Conversation(Coalesce(name, was.name), Coalesce(aiTitle, was.aiTitle),
                                               Coalesce(was.host, first.host))];
      }
      var embedded := store.messages;
      var messages := embedded;
      NoneUpserted(embedded, embed);
      assert rows[..0] == [] && up[..0] == [];
      var k := 0;
      while k < |rows|
        invariant 0 <= k <= |rows|
        invariant messages == UpsertAll(embedded, rows[..k], up[..k], embed)
      {
        var r := rows[k].row.rec;
        assert rows[..k + 1][..k] == rows[..k] && up[..k + 1][..k] == up[..k];
        LastUpserted(embedded, rows[..k + 1], up[..k + 1], embed);
        if r.content != "" {
          var embedding := None;
          if !(r.uuid in embedded && embedded[r.uuid].embedding.Some? && embedded[r.uuid].content == r.content) {
            if up[k] {
              embedding := Some(embed(r.content));
            }
          }
          messages := Upsert(messages, r, embedding);
        }
        k := k + 1;
      }
      assert rows[..k] == rows && up[..k] == up;
      store := Store(cs, messages);
    }
  }

  // The last title in the group that says anything.
  method FindName(rows: seq<Snap>) returns (name: Option<string>)
    ensures name == LastName(rows)
    ensures name.Some? <==> exists s :: s in rows && Truthy(s.row.rec.name)
  {
    var k := |rows|;
    assert rows[..k] == rows;
    while k > 0
      invariant 0 <= k <= |rows|
      invariant LastName(rows) == LastName(rows[..k])
      invariant forall s :: s in rows[k..] ==> !Truthy(s.row.rec.name)
    {
      k := k - 1;
      assert rows[..k + 1][..k] == rows[..k];
      if Truthy(rows[k].row.rec.name) {
        assert rows[k] in rows;
        return rows[k].row.rec.name;
      }
      assert rows[k..] == [rows[k]] + rows[k + 1..];
    }
    assert rows[0..] == rows;
    return None;
  }

  method FindAiTitle(rows: seq<Snap>) returns (aiTitle: Option<string>)
    ensures aiTitle == LastAiTitle(rows)
    ensures aiTitle.Some? <==> exists s :: s in rows && Truthy(s.row.rec.aiTitle)
  {
    var k := |rows|;
    assert rows[..k] == rows;
    while k > 0
      invariant 0 <= k <= |rows|
      invariant LastAiTitle(rows) == LastAiTitle(rows[..k])
      invariant forall s :: s in rows[k..] ==> !Truthy(s.row.rec.aiTitle)
    {
      k := k - 1;
      assert rows[..k + 1][..k] == rows[..k];
      if Truthy(rows[k].row.rec.aiTitle) {
        assert rows[k] in rows;
        return rows[k].row.rec.aiTitle;
      }
      assert rows[k..] == [rows[k]] + rows[k + 1..];
    }
    assert rows[0..] == rows;
    return None;
  }

  // The step is one of drain me's own.
  predicate Touches(step: Step, me: nat) {
    match step
    case Hook(_, _, _, _) => false
    case Start(d, _, _) => d == me
    case Write(d, _, _) => d == me
    case Sent(d) => d == me
    case Failed(d) => d == me
    case Die(d) => d == me
  }

  lemma {:induction false} RunSnoc(s: State, steps: seq<Step>, step: Step, embed: string -> Vector)
    requires CanRun(s, steps, embed) && Enabled(Run(s, steps, embed), step)
    ensures CanRun(s, steps + [step], embed)
    ensures Run(s, steps + [step], embed) == Apply(Run(s, steps, embed), step, embed)
    decreases |steps|
  {
    hide Apply, Enabled;
    if steps == [] {
      assert [step][1..] == [];
      assert steps + [step] == [step];
    } else {
      assert (steps + [step])[1..] == steps[1..] + [step];
      RunSnoc(Apply(s, steps[0], embed), steps[1..], step, embed);
    }
  }

  // The table, Postgres, and where every drain stands. The trace is every statement so far.
  class System {
    const outbox: Outbox
    const pg: Server
    const embed: string -> Vector
    var drains: map<nat, Drain>
    ghost var captured: set<(string, string)>
    ghost var delivered: set<Snap>
    ghost var trace: seq<Step>

    ghost function Now(): State
      reads this, outbox, pg
    {
      State(outbox.rows, pg.store, drains, captured, delivered)
    }

    ghost predicate Valid()
      reads this, outbox, pg
    {
      CanRun(EMPTY, trace, embed) && Run(EMPTY, trace, embed) == Now()
    }

    constructor (embed: string -> Vector)
      ensures Valid() && trace == [] && fresh(outbox) && fresh(pg)
    {
      this.embed := embed;
      var o := new Outbox();
      var p := new Server();
      outbox, pg := o, p;
      drains := map[];
      captured, delivered, trace := {}, {}, [];
    }

    method Hook(records: seq<Record>, session: string, name: Option<string>, aiTitle: Option<string>)
      requires Valid() && AllHaveText(records)
      modifies this, outbox, pg
      ensures Valid() && drains == old(drains) && trace == old(trace) + [Step.Hook(records, session, name, aiTitle)]
    {
      hide Run, CanRun, AppendToOutbox;
      RunSnoc(EMPTY, trace, Step.Hook(records, session, name, aiTitle), embed);
      var _ := outbox.Append(records, session, name, aiTitle);
      captured := captured + Texts(records);
      trace := trace + [Step.Hook(records, session, name, aiTitle)];
    }

    // _pending, and whether Postgres then answers
    method Start(d: nat, limit: nat, connected: bool) returns (rows: seq<Snap>)
      requires Valid() && d !in drains
      modifies this
      ensures Valid() && trace == old(trace) + [Step.Start(d, limit, connected)]
      ensures rows == Batch(outbox.rows, limit)
      ensures drains == old(drains)[d := if connected then Drain(Groups(rows), [], []) else Drain([], [], rows)]
    {
      hide Run, CanRun, Batch, Groups;
      RunSnoc(EMPTY, trace, Step.Start(d, limit, connected), embed);
      rows := Batch(outbox.rows, limit);
      drains := drains[d := if connected then Drain(Groups(rows), [], []) else Drain([], [], rows)];
      trace := trace + [Step.Start(d, limit, connected)];
    }

    method Write(d: nat, up: seq<bool>, outcome: Outcome)
      requires Valid() && Enabled(Now(), Step.Write(d, up, outcome))
      modifies this, pg
      ensures Valid() && trace == old(trace) + [Step.Write(d, up, outcome)]
      ensures var was := old(drains)[d];
        drains == old(drains)[d := if outcome == Committed then Drain(was.todo[1..], was.todo[0], [])
                                   else Drain(was.todo[1..], [], was.todo[0])]
    {
      hide Run, CanRun, Postgres.WriteSession;
      RunSnoc(EMPTY, trace, Step.Write(d, up, outcome), embed);
      var group, rest := drains[d].todo[0], drains[d].todo[1..];
      if outcome != RolledBack {
        pg.WriteSession(group, up, embed);
        delivered := delivered + Elements(group);
      }
      drains := drains[d := if outcome == Committed then Drain(rest, group, []) else Drain(rest, [], group)];
      trace := trace + [Step.Write(d, up, outcome)];
    }

    method Sent(d: nat) returns (marked: nat)
      requires Valid() && Enabled(Now(), Step.Sent(d))
      modifies this, outbox
      ensures Valid() && trace == old(trace) + [Step.Sent(d)]
      ensures drains == old(drains)[d := old(drains)[d].(written := [])]
      ensures outbox.rows == OutboxTable.MarkSent(old(outbox.rows), old(drains)[d].written)
      ensures marked == Waiting(old(outbox.rows)) - Waiting(outbox.rows) && marked <= |old(drains)[d].written|
    {
      hide Run, CanRun, OutboxTable.MarkSent, Waiting;
      RunSnoc(EMPTY, trace, Step.Sent(d), embed);
      marked := outbox.MarkSent(drains[d].written);
      drains := drains[d := drains[d].(written := [])];
      trace := trace + [Step.Sent(d)];
    }

    method Failed(d: nat)
      requires Valid() && Enabled(Now(), Step.Failed(d))
      modifies this, outbox
      ensures Valid() && trace == old(trace) + [Step.Failed(d)]
      ensures drains == old(drains)[d := old(drains)[d].(refused := [])]
      ensures outbox.rows == OutboxTable.MarkFailed(old(outbox.rows), old(drains)[d].refused)
    {
      hide Run, CanRun, OutboxTable.MarkFailed;
      RunSnoc(EMPTY, trace, Step.Failed(d), embed);
      outbox.MarkFailed(drains[d].refused);
      drains := drains[d := drains[d].(refused := [])];
      trace := trace + [Step.Failed(d)];
    }

    method Die(d: nat)
      requires Valid() && d in drains
      modifies this
      ensures Valid() && trace == old(trace) + [Step.Die(d)] && drains == old(drains) - {d}
    {
      hide Run, CanRun;
      RunSnoc(EMPTY, trace, Step.Die(d), embed);
      drains := drains - {d};
      trace := trace + [Step.Die(d)];
    }

    // Whatever the hook and the other drains get done between two statements of drain me; nothing, if it
    // is quiet.
    method Others(me: nat, quiet: bool)
      requires Valid()
      modifies this, outbox, pg
      ensures Valid() && old(trace) <= trace
      ensures me in drains <==> me in old(drains)
      ensures me in drains ==> drains[me] == old(drains)[me]
      ensures quiet ==> Now() == old(Now())
    {
      hide Valid;
      var n: nat :| 0 <= n;
      while !quiet && n > 0
        invariant Valid() && old(trace) <= trace
        invariant me in drains <==> me in old(drains)
        invariant me in drains ==> drains[me] == old(drains)[me]
        invariant quiet ==> Now() == old(Now())
      {
        var step: Step := *;
        if Ready(drains, step) && !Touches(step, me) {
          Other(step);
        }
        n := n - 1;
      }
    }

    method Other(step: Step)
      requires Valid() && Ready(drains, step)
      modifies this, outbox, pg
      ensures Valid() && trace == old(trace) + [step]
      ensures forall me: nat :: !Touches(step, me) ==>
        (me in drains <==> me in old(drains)) && (me in drains ==> drains[me] == old(drains)[me])
    {
      hide Valid;
      match step {
        case Hook(records, session, name, aiTitle) => Hook(records, session, name, aiTitle);
        case Start(d, limit, connected) => var _ := Start(d, limit, connected);
        case Write(d, up, outcome) => Write(d, up, outcome);
        case Sent(d) => var _ := Sent(d);
        case Failed(d) => Failed(d);
        case Die(d) => Die(d);
      }
    }

    // One session of a pass: written and committed, then marked sent; or rolled back, then marked failed.
    // In good health Postgres commits it.
    method Deliver(me: nat, quiet: bool, healthy: bool) returns (ok: bool, marked: nat)
      requires Valid() && me in drains && drains[me].written == [] && drains[me].refused == []
      requires drains[me].todo != [] && drains[me].todo[0] != []
      modifies this, outbox, pg
      ensures Valid() && old(trace) <= trace
      ensures me in drains && drains[me] == Drain(old(drains)[me].todo[1..], [], [])
      ensures marked <= |old(drains)[me].todo[0]| && (!ok ==> marked == 0) && (healthy ==> ok)
      ensures quiet ==> outbox.rows == (if ok then OutboxTable.MarkSent(old(outbox.rows), old(drains)[me].todo[0])
                                        else OutboxTable.MarkFailed(old(outbox.rows), old(drains)[me].todo[0]))
      ensures quiet && ok ==> marked == Waiting(old(outbox.rows)) - Waiting(outbox.rows)
    {
      hide Valid, Waiting, OutboxTable.MarkSent, OutboxTable.MarkFailed;
      Others(me, quiet);
      var outcome: Outcome := *;
      if healthy { outcome := Committed; }
      var up: seq<bool> := *;
      if |up| != |drains[me].todo[0]| {
        up := seq(|drains[me].todo[0]|, _ => false);
      }
      Write(me, up, outcome);
      Others(me, quiet);
      marked := 0;
      ok := outcome == Committed;
      if ok {
        marked := Sent(me);
      } else {
        Failed(me);
      }
    }

    // _drain_pass. Every row of the batch is counted once; with nothing else at work none is counted as
    // changed, and what is counted as written is what is no longer waiting.
    method DrainPass(me: nat, rows: seq<Snap>, quiet: bool, healthy: bool) returns (written: nat, failed: nat, changed: nat)
      requires Valid() && me in drains && drains[me] == Drain(Groups(rows), [], [])
      requires quiet ==> Fresh(rows, outbox.rows) && Distinct(rows)
      modifies this, outbox, pg
      ensures Valid() && old(trace) <= trace
      ensures me in drains && drains[me] == Drain([], [], [])
      ensures written + failed + changed == |rows| && (healthy ==> failed == 0)
      ensures quiet ==> changed == 0 && Waiting(outbox.rows) + written == Waiting(old(outbox.rows))
    {
      hide Valid, Waiting, OutboxTable.MarkSent, OutboxTable.MarkFailed, Groups, Fresh, Distinct, BySession, Total, Members;
      written, failed, changed := 0, 0, 0;
      var groups := GroupBySession(rows);
      NoneEmpty(rows);
      GroupsLoseNothing(rows);
      MembersTotal(groups);
      if quiet {
        PassFresh(rows, outbox.rows);
      }
      var k := 0;
      while k < |groups|
        invariant 0 <= k <= |groups|
        invariant Valid() && old(trace) <= trace
        invariant me in drains && drains[me] == Drain(groups[k..], [], [])
        invariant written + failed + changed + Total(groups[k..]) == |rows| && (healthy ==> failed == 0)
        invariant quiet ==> forall j :: k <= j < |groups| ==> Fresh(groups[j], outbox.rows)
        invariant quiet ==> changed == 0 && Waiting(outbox.rows) + written == Waiting(old(outbox.rows))
      {
        ghost var was := outbox.rows;
        TotalFrom(groups, k);
        assert groups[k..][1..] == groups[k + 1..];
        var ok, marked := Deliver(me, quiet, healthy);
        if quiet {
          QuietSent(was, groups, k);
          QuietFailed(was, groups, k);
        }
        if ok {
          written, changed := written + marked, changed + |groups[k]| - marked;
        } else {
          failed := failed + |groups[k]|;
        }
        k := k + 1;
      }
      TotalEnd(groups);
    }

    // Postgres does not answer: every row of the batch has failed once more, and the drain is over.
    method Refuse(me: nat, rows: seq<Snap>, quiet: bool)
      requires Valid() && me in drains && drains[me] == Drain([], [], rows) && rows != []
      modifies this, outbox, pg
      ensures Valid() && old(trace) <= trace && me !in drains
      ensures quiet ==> outbox.rows == OutboxTable.MarkFailed(old(outbox.rows), rows)
      ensures quiet ==> Waiting(outbox.rows) == Waiting(old(outbox.rows))
    {
      hide Valid, Waiting, OutboxTable.MarkFailed;
      Others(me, quiet);
      MarkFailedRows(outbox.rows, rows);
      SameWaiting(outbox.rows, OutboxTable.MarkFailed(outbox.rows, rows));
      Failed(me);
      Die(me);
    }

    // _drain_locked. Unless it dies first, it ends because a look found nothing to take or because a pass
    // delivered nothing and found nothing changed; with nothing else at work it does end, and then
    // everything is delivered or the last pass failed on all it took; in good health, everything.
    method DrainLocked(me: nat, limit: nat, quiet: bool, healthy: bool) returns (written: nat, failed: nat, died: bool, stuck: bool)
      requires Valid() && me !in drains && 0 < limit
      modifies this, outbox, pg
      ensures Valid() && old(trace) <= trace && me !in drains
      ensures quiet ==> !died && Waiting(outbox.rows) + written == Waiting(old(outbox.rows))
      ensures quiet && !stuck ==> Waiting(outbox.rows) == 0
      ensures stuck ==> 0 < failed
      ensures quiet && healthy ==> !stuck && failed == 0
    {
      hide Valid, Waiting, Groups, Batch, Fresh, Distinct;
      written, failed, died, stuck := 0, 0, false, false;
      Others(me, quiet);
      var connected: bool := *;
      connected := connected || healthy;
      var rows := Start(me, limit, connected);
      BatchIsFresh(outbox.rows, limit);
      if rows == [] {
        Die(me);
        return;
      }
      if !connected {
        Refuse(me, rows, quiet);
        failed, stuck := |rows|, true;
        return;
      }
      var patience: nat :| 0 <= patience;
      while rows != []
        invariant Valid() && old(trace) <= trace
        invariant me in drains && drains[me] == Drain(Groups(rows), [], [])
        invariant quiet ==> Fresh(rows, outbox.rows) && Distinct(rows)
        invariant quiet ==> Waiting(outbox.rows) + written == Waiting(old(outbox.rows))
        invariant healthy ==> failed == 0
        invariant quiet && rows == [] ==> Waiting(outbox.rows) == 0
        decreases if quiet then Waiting(outbox.rows) else patience
      {
        if !quiet && patience == 0 {
          Die(me);
          died := true;
          return;
        }
        var w, f, c := DrainPass(me, rows, quiet, healthy);
        written, failed := written + w, failed + f;
        Others(me, quiet);
        Die(me);
        if w == 0 && c == 0 {
          stuck := true;
          return;
        }
        Others(me, quiet);
        rows := Start(me, limit, true);
        BatchIsFresh(outbox.rows, limit);
        patience := if quiet then patience else patience - 1;
      }
      Die(me);
    }
  }

  lemma PassFresh(rows: seq<Snap>, table: Table)
    requires Fresh(rows, table) && Distinct(rows)
    ensures BySession(Groups(rows))
    ensures forall j :: 0 <= j < |Groups(rows)| ==> Fresh(Groups(rows)[j], table) && Distinct(Groups(rows)[j])
  {
    hide Groups, BySession, Distinct;
    GroupsBySession(rows);
    GroupsHold(rows);
    var groups := Groups(rows);
    assert forall i :: 0 <= i < |groups| ==> groups[i] in groups;
  }

  lemma TotalFrom(groups: seq<seq<Snap>>, k: nat)
    requires k < |groups|
    ensures Total(groups[k..]) == |groups[k]| + Total(groups[k + 1..])
    ensures k == 0 ==> groups[k..] == groups
  {
    assert groups[k..][1..] == groups[k + 1..];
  }

  lemma TotalEnd(groups: seq<seq<Snap>>)
    ensures Total(groups[|groups|..]) == 0 && groups[|groups|..] == []
  {
  }
}
