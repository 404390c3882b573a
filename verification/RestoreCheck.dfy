/** The row counts a restore verifies, and the mismatches it reports. */
module RestoreCheck {
  import opened Prelude
  import opened Batching
  import opened Dump
  import opened DumpRestore

  /** Counted exactly after a restore; every other table is judged by the statistics estimate. */
  const VERIFY_TABLES: set<string> := {
    "users", "advisor_students", "weekly_plans", "plan_days", "activities", "assignments",
    "plan_files", "access_requests", "audit_logs", "bot_settings", "alembic_version"}

  predicate IsCounted(name: string) { name in VERIFY_TABLES }

  /** The counts the dumper records for the archive. */
  function ArchiveCounts(tables: seq<Table>, d: Database): map<string, nat>
    requires Conforms(tables, d)
  {
    assert forall t <- tables :: t.name in Names(tables);
    map n | n in Names(tables) && FindTable(tables, n).Some? :: n := |DumpedRowsOf(tables, d, n)|
  }

  function DumpedRowsOf(tables: seq<Table>, d: Database, name: string): seq<Row> {
    match FindTable(tables, name)
    case None => []
    case Some(t) => if t.name in d.rows then DumpedRows(t, d) else []
  }

  /** After the load: one settings row if there is none, and the audit rows the restore itself writes. */
  function AfterLoad(db: Database, settingsRow: Row, auditRows: seq<Row>): Database {
    var withSettings :=
      if "bot_settings" in db.rows && db.rows["bot_settings"] == [] then db.rows["bot_settings" := [settingsRow]]
      else db.rows;
    db.(rows := if "audit_logs" in withSettings
                then withSettings["audit_logs" := withSettings["audit_logs"] + auditRows] else withSettings)
  }

  /** Exact counts override the statistics estimates. */
  function Verified(db: Database, estimates: map<string, nat>): map<string, nat> {
    estimates + map n | n in db.rows && IsCounted(n) :: |db.rows[n]|
  }

  function Mismatches(expected: map<string, nat>, verified: map<string, nat>): set<string> {
    set n | n in expected && n in verified
            && verified[n] != expected[n]
            && !(n == "audit_logs" && verified[n] > expected[n])
            && !(n == "bot_settings" && verified[n] == 1)
  }

  lemma {:induction false} FindTableIn(tables: seq<Table>, t: Table)
    requires t in tables && DistinctNames(tables)
    ensures FindTable(tables, t.name) == Some(t)
  {
    var i :| 0 <= i < |tables| && tables[i] == t;
    FindsTable(tables, i);
  }

  /** A restored table holds as many rows as the archive recorded for it. */
  lemma CountsAgree(tables: seq<Table>, d: Database, db: Database, n: string)
    requires WellFormed(tables) && Conforms(tables, d) && n in ArchiveCounts(tables, d)
    ensures n in Restored(tables, d, db).rows && |Restored(tables, d, db).rows[n]| == ArchiveCounts(tables, d)[n]
  {
    RestoredRows(tables, d, db);
    var t :| t in tables && t.name == n;
    FindTableIn(tables, t);
  }

  /** The archive records the rows of every table but `backup_logs` and tables without columns, which count as empty. */
  lemma ArchiveCountsRows(tables: seq<Table>, d: Database)
    requires WellFormed(tables) && Conforms(tables, d)
    ensures ArchiveCounts(tables, d).Keys == Names(tables)
    ensures forall t <- tables ::
              && t.name in d.rows && t.name in ArchiveCounts(tables, d)
              && ArchiveCounts(tables, d)[t.name] ==
                 (if t.name == "backup_logs" || t.columns == [] then 0 else |d.rows[t.name]|)
  {
    forall t | t in tables ensures t.name in Names(tables) && FindTable(tables, t.name) == Some(t) {
      FindTableIn(tables, t);
    }
  }

  /** The tables that are counted exactly. */
  predicate CountsExactly(n: string) {
    n in {"users", "advisor_students", "weekly_plans", "plan_days", "activities", "assignments", "plan_files",
          "access_requests", "audit_logs", "bot_settings", "alembic_version"}
  }

  /**
   After any load: a table is reported exactly when the number found differs from the archive's, except for audit rows
   beyond the archive's and a single settings row. What is found is the number of rows where it is counted, and
   the estimate, if there is one, everywhere else.
   */
  lemma ReportedExactly(expected: map<string, nat>, after: Database, estimates: map<string, nat>, n: string)
    requires n in expected
    ensures var found := if CountsExactly(n) && n in after.rows then Some(|after.rows[n]|)
                         else if n in estimates then Some(estimates[n]) else None;
            n in Mismatches(expected, Verified(after, estimates)) <==>
              && found.Some? && found.value != expected[n]
              && !(n == "audit_logs" && found.value > expected[n])
              && !(n == "bot_settings" && found.value == 1)
  {
    CountedOnes(n);
    hide IsCounted, CountsExactly;
    var verified := Verified(after, estimates);
    assert n in verified <==> (IsCounted(n) && n in after.rows) || n in estimates;
    assert n in verified ==>
        verified[n] == if IsCounted(n) && n in after.rows then |after.rows[n]| else estimates[n];
    hide Verified;
  }

  lemma CountedOnes(n: string)
    ensures IsCounted(n) <==> CountsExactly(n)
  {}

  lemma AfterLoadCounts(db: Database, settingsRow: Row, auditRows: seq<Row>, n: string)
    requires n in db.rows
    ensures var after := AfterLoad(db, settingsRow, auditRows);
            && n in after.rows
            && (|after.rows[n]| == |db.rows[n]|
                || (n == "audit_logs" && |after.rows[n]| > |db.rows[n]|)
                || (n == "bot_settings" && |after.rows[n]| == 1))
  {}

  /**
   After a successful load no exactly counted table is ever reported, whatever the restore itself wrote; the
   report is empty exactly when the estimates of the remaining tables agree with the archive.
   */
  lemma RestoreReportsNothing(
    tables: seq<Table>, d: Database, db: Database, settingsRow: Row, auditRows: seq<Row>, estimates: map<string, nat>)
    requires WellFormed(tables) && Conforms(tables, d)
    ensures var expected := ArchiveCounts(tables, d);
            var verified := Verified(AfterLoad(Restored(tables, d, db), settingsRow, auditRows), estimates);
            && (forall n <- Mismatches(expected, verified) :: !CountsExactly(n))
            && (Mismatches(expected, verified) == {} <==>
                forall n | n in expected && !CountsExactly(n) && n in estimates :: estimates[n] == expected[n])
  {
    hide Restored, WellFormed, CountsExactly;
    var restored := Restored(tables, d, db);
    var after := AfterLoad(restored, settingsRow, auditRows);
    var expected := ArchiveCounts(tables, d);
    var verified := Verified(after, estimates);
    hide Verified, Mismatches;
    forall n | n in expected
      ensures n in Mismatches(expected, verified) <==>
              !CountsExactly(n) && n in estimates && estimates[n] != expected[n]
    {
      CountsAgree(tables, d, db, n);
      AfterLoadCounts(restored, settingsRow, auditRows, n);
      ReportedExactly(expected, after, estimates, n);
      SpecialTables();
    }
    OnlyExpected(expected, verified);
  }

  lemma SpecialTables()
    ensures CountsExactly("audit_logs") && CountsExactly("bot_settings")
  {}

  lemma OnlyExpected(expected: map<string, nat>, verified: map<string, nat>)
    ensures forall n <- Mismatches(expected, verified) :: n in expected
  {}
}
