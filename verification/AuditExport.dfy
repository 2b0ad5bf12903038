/** The incremental export of the append-only audit log, by the newest timestamp already exported. */
module AuditExport {
  import opened Ordering
  import opened Prelude

  datatype AuditRow = AuditRow(id: string, payload: string, createdAt: int)

  datatype Event = Inserted(row: AuditRow) | Exported

  /** The rows of the log that are visible, and the exported table in the order it was appended to. */
  datatype State = State(log: seq<AuditRow>, table: seq<AuditRow>)

  // ---------------------------------------------------------------- one export

  /** The newest timestamp in the table. */
  function Watermark(table: seq<AuditRow>): (w: Option<int>)
    ensures w.None? <==> table == []
    ensures w.Some? ==> exists r | r in table :: r.createdAt == w.value
    ensures w.Some? ==> forall r | r in table :: r.createdAt <= w.value
  {
    if table == [] then None
    else
      var before, last := Watermark(table[..|table| - 1]), table[|table| - 1];
      assert table == table[..|table| - 1] + [last];
      if before.None? || before.value <= last.createdAt then Some(last.createdAt) else before
  }

  predicate Newer(r: AuditRow, since: Option<int>) {
    since.None? || r.createdAt > since.value
  }

  function Select(log: seq<AuditRow>, since: Option<int>): seq<AuditRow> {
    if log == [] then []
    else
      var last := log[|log| - 1];
      Select(log[..|log| - 1], since) + if Newer(last, since) then [last] else []
  }

  /** Sorting by this in descending order is `order_by(created_at)`. */
  function Age(r: AuditRow): real {
    0.0 - r.createdAt as real
  }

  function Batch(st: State): seq<AuditRow> {
    SortDesc(Select(st.log, Watermark(st.table)), Age)
  }

  function Apply(st: State, e: Event): State {
    match e
    case Inserted(row) => st.(log := st.log + [row])
    case Exported => st.(table := st.table + Batch(st))
  }

  function Run(events: seq<Event>): State {
    if events == [] then State([], [])
    else Apply(Run(events[..|events| - 1]), events[|events| - 1])
  }

  class AuditTable {
    var log: seq<AuditRow>
    var table: seq<AuditRow>
    ghost var history: seq<Event>

    ghost predicate Valid()
      reads this
    {
      Run(history) == State(log, table)
    }

    constructor ()
      ensures Valid() && history == []
    {
      log, table, history := [], [], [];
    }

    method Insert(row: AuditRow)
      requires Valid()
      modifies this
      ensures Valid() && history == old(history) + [Inserted(row)]
    {
      assert (history + [Inserted(row)])[..|history|] == history;
      log := log + [row];
      history := history + [Inserted(row)];
    }

    method Export() returns (exported: nat)
      requires Valid()
      modifies this
      ensures Valid() && history == old(history) + [Exported]
      ensures |table| == old(|table|) + exported
    {
      assert (history + [Exported])[..|history|] == history;
      var since := Watermark(table);
      var rows := SortDesc(Select(log, since), Age);
      history := history + [Exported];
      if rows == [] {
        return 0;
      }
      table := table + rows;
      return |rows|;
    }
  }

  // ---------------------------------------------------------------- runs

  /** The rows that became visible when an export had already passed their timestamp. */
  function Late(events: seq<Event>): seq<AuditRow> {
    if events == [] then []
    else
      var before, last := events[..|events| - 1], events[|events| - 1];
      Late(before) +
      if last.Inserted? && !Newer(last.row, Watermark(Run(before).table)) then [last.row] else []
  }

  function Pending(st: State): seq<AuditRow> {
    Select(st.log, Watermark(st.table))
  }

  lemma {:induction false} SelectMembers(log: seq<AuditRow>, since: Option<int>, r: AuditRow)
    ensures r in Select(log, since) <==> r in log && Newer(r, since)
  {
    if log != [] {
      SelectMembers(log[..|log| - 1], since, r);
      assert log == log[..|log| - 1] + [log[|log| - 1]];
    }
  }

  /** The table stays in the order of the timestamps. */
  ghost predicate InOrder(table: seq<AuditRow>) {
    forall i, j | 0 <= i < j < |table| :: table[i].createdAt <= table[j].createdAt
  }

  lemma BatchIs(st: State)
    ensures InOrder(Batch(st)) && multiset(Batch(st)) == multiset(Pending(st))
    ensures forall r | r in Batch(st) :: r in st.log && Newer(r, Watermark(st.table))
    ensures forall r | r in st.log && Newer(r, Watermark(st.table)) :: r in Batch(st)
  {
    SortDescCorrect(Pending(st), Age, 0.0);
    SortDescMembers(Pending(st), Age);
    var batch := Batch(st);
    forall i, j | 0 <= i < j < |batch| ensures batch[i].createdAt <= batch[j].createdAt {
      assert Age(batch[i]) >= Age(batch[j]);
    }
    forall r ensures r in Pending(st) <==> r in st.log && Newer(r, Watermark(st.table)) {
      SelectMembers(st.log, Watermark(st.table), r);
    }
  }

  /** After an export nothing is pending. */
  lemma ExportSettles(st: State)
    ensures Pending(Apply(st, Exported)) == []
  {
    var next := Apply(st, Exported);
    BatchIs(st);
    WatermarkGrows(st.table, Batch(st));
    assert forall r | r in Batch(st) :: r in next.table;
    if Pending(next) != [] {
      var r := Pending(next)[0];
      assert r in Pending(next);
      SelectMembers(next.log, Watermark(next.table), r);
    }
  }

  lemma WatermarkGrows(table: seq<AuditRow>, batch: seq<AuditRow>)
    ensures forall r | Newer(r, Watermark(table + batch)) :: Newer(r, Watermark(table))
  {
    if table != [] {
      var t :| t in table && t.createdAt == Watermark(table).value;
      assert t in table + batch;
    }
  }

  lemma ExportKeepsOrder(table: seq<AuditRow>, batch: seq<AuditRow>)
    requires InOrder(table) && InOrder(batch) && forall r | r in batch :: Newer(r, Watermark(table))
    ensures InOrder(table + batch)
  {
    var all := table + batch;
    forall i, j | 0 <= i < j < |all| ensures all[i].createdAt <= all[j].createdAt {
      if i < |table| <= j {
        assert table[i] in table && batch[j - |table|] in batch;
      }
    }
  }

  lemma InsertPends(st: State, row: AuditRow)
    ensures Pending(Apply(st, Inserted(row))) == Pending(st) + if Newer(row, Watermark(st.table)) then [row] else []
  {
    assert (st.log + [row])[..|st.log|] == st.log;
  }

  /**
   In every run each row of the log is exported once, waiting for the next export, or
   late. So a row is never exported more often than it was inserted, and the table is
   in the order of the timestamps.
   */
  lemma {:induction false} EveryRunConserves(events: seq<Event>)
    ensures var st := Run(events);
      && multiset(st.log) == multiset(st.table) + multiset(Pending(st)) + multiset(Late(events))
      && InOrder(st.table)
  {
    if events != [] {
      var before, last := events[..|events| - 1], events[|events| - 1];
      EveryRunConserves(before);
      var st := Run(before);
      match last {
        case Inserted(row) => InsertPends(st, row);
        case Exported =>
          ExportSettles(st);
          BatchIs(st);
          ExportKeepsOrder(st.table, Batch(st));
      }
    }
  }

  /** With one row per id in the log, no row is exported twice, whatever the timestamps. */
  lemma NoRowTwice(events: seq<Event>, i: nat, j: nat)
    requires var st := Run(events);
      && (forall a, b | 0 <= a < b < |st.log| :: st.log[a].id != st.log[b].id)
      && i < j < |st.table|
    ensures Run(events).table[i].id != Run(events).table[j].id
  {
    var st := Run(events);
    EveryRunConserves(events);
    if st.table[i].id == st.table[j].id {
      var a := InLog(st, i);
      var b := InLog(st, j);
      assert a == b;
      CountedTwice(st.table, i, j);
      Once(st.log, a);
      assert false;
    }
  }

  /** Where the log holds an exported row; the table does not hold it more often. */
  lemma InLog(st: State, i: nat) returns (a: nat)
    requires multiset(st.table) <= multiset(st.log) && i < |st.table|
    ensures a < |st.log| && st.log[a] == st.table[i]
    ensures multiset(st.table)[st.table[i]] <= multiset(st.log)[st.table[i]]
  {
    assert st.table[i] in multiset(st.table);
    assert st.table[i] in multiset(st.log);
    a :| a < |st.log| && st.log[a] == st.table[i];
  }

  lemma Once(s: seq<AuditRow>, i: nat)
    requires i < |s| && forall a, b | 0 <= a < b < |s| :: s[a].id != s[b].id
    ensures multiset(s)[s[i]] == 1
  {
    assert s == s[..i] + [s[i]] + s[i + 1..];
    assert s[i] !in s[..i] && s[i] !in s[i + 1..];
    assert multiset(s) == multiset(s[..i]) + multiset{s[i]} + multiset(s[i + 1..]);
  }

  /** After an export the table holds the whole log exactly when no row ever came late. */
  lemma ExportCompleteIff(events: seq<Event>)
    ensures var st := Run(events + [Exported]);
      multiset(st.table) == multiset(st.log) <==> Late(events) == []
  {
    var all := events + [Exported];
    assert all[..|events|] == events;
    EveryRunConserves(events);
    EveryRunConserves(all);
    ExportSettles(Run(events));
    var st := Run(all);
    assert Late(all) == Late(events);
    if multiset(st.table) == multiset(st.log) {
      assert |multiset(Late(events))| == 0;
    }
  }

  lemma {:induction false} LateGrows(events: seq<Event>, n: nat)
    requires n <= |events|
    ensures Late(events[..n]) <= Late(events)
  {
    if n == |events| {
      assert events[..n] == events;
    } else {
      var front := events[..|events| - 1];
      LateGrows(front, n);
      assert front[..n] == events[..n];
    }
  }

  /** A late row is never made up for: it stays missing in every continuation of the run. */
  lemma LateStaysLate(events: seq<Event>, more: seq<Event>)
    ensures Late(events) <= Late(events + more)
  {
    LateGrows(events + more, |events|);
    assert (events + more)[..|events|] == events;
  }

  /** Timestamps above all those visible at the last export are enough. */
  lemma {:induction false} InTimeNeverLate(events: seq<Event>)
    requires forall i | 0 <= i < |events| && events[i].Inserted? :: AboveTable(events, i)
    ensures Late(events) == []
  {
    if events != [] {
      var n := |events| - 1;
      forall i | 0 <= i < n && events[..n][i].Inserted? ensures AboveTable(events[..n], i) {
        assert AboveTable(events, i) && events[..n][..i] == events[..i];
      }
      InTimeNeverLate(events[..n]);
      if events[n].Inserted? { assert AboveTable(events, n); }
    }
  }

  /** The row inserted at `i` is newer than everything exported by then. */
  ghost predicate AboveTable(events: seq<Event>, i: nat)
    requires i < |events| && events[i].Inserted?
  {
    forall r | r in Run(events[..i]).table :: events[i].row.createdAt > r.createdAt
  }

  /** A row stamped before, but visible after, the newest exported one is missed by the next export. */
  lemma StaleRowIsMissed(events: seq<Event>, row: AuditRow)
    requires !Newer(row, Watermark(Run(events).table))
    ensures var st := Run(events + [Inserted(row)] + [Exported]); multiset(st.table) != multiset(st.log)
  {
    var more := events + [Inserted(row)];
    assert more[..|events|] == events;
    assert Late(more) == Late(events) + [row];
    ExportCompleteIff(more);
  }

  lemma FirstExport(row: AuditRow)
    ensures Watermark(Run([Inserted(row)] + [Exported]).table) == Some(row.createdAt)
  {
    var first := [Inserted(row)];
    assert first[..0] == [] && Late(first) == [];
    ExportCompleteIff(first);
    var st := Run(first + [Exported]);
    assert (first + [Exported])[..1] == first;
    assert st.log == [row];
    assert forall r :: r in multiset(st.table) <==> r in multiset([row]);
    assert row in multiset([row]) && row in st.table;
  }

  /** Such runs exist: two rows, the newer one exported first. */
  lemma ExportCanMiss()
    ensures exists events :: var st := Run(events + [Exported]); multiset(st.table) != multiset(st.log)
  {
    var newer, older := AuditRow("aud_2", "{}", 2), AuditRow("aud_1", "{}", 1);
    var first := [Inserted(newer)] + [Exported];
    FirstExport(newer);
    StaleRowIsMissed(first, older);
    Missed(first + [Inserted(older)]);
  }

  lemma Missed(events: seq<Event>)
    requires multiset(Run(events + [Exported]).table) != multiset(Run(events + [Exported]).log)
    ensures exists events :: var st := Run(events + [Exported]); multiset(st.table) != multiset(st.log)
  {
  }
}
