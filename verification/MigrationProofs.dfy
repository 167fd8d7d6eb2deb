/** What `_migrate_db` keeps and promises: nothing is lost, a second run changes nothing, and the
    two dialects agree on the announcements. */
module MigrationProofs {
  import opened Text
  import opened Schema
  import opened Migration

  // ── helpers about statements ───────────────────────────────────────────────

  lemma ExecCons(db: Db, s: Statement, rest: seq<Statement>)
    ensures ExecAll(db, [s] + rest) == (match Exec(db, s) case None => None case Some(next) => ExecAll(next, rest))
  {
    assert ([s] + rest)[1..] == rest;
  }

  lemma ExecOne(db: Db, s: Statement)
    ensures ExecAll(db, [s]) == Exec(db, s)
  {
    ExecCons(db, s, []);
    assert [s] + [] == [s];
  }

  lemma {:induction false} SelectedAll(rows: seq<Row>, project: Row -> Row, keep: Row -> bool)
    requires forall i :: 0 <= i < |rows| ==> keep(rows[i])
    ensures |Selected(rows, project, keep)| == |rows|
    ensures forall i :: 0 <= i < |rows| ==> Selected(rows, project, keep)[i] == project(rows[i])
  {
    if rows != [] { SelectedAll(rows[1..], project, keep); }
  }

  /** Only table `name` may differ. */
  ghost predicate SameElsewhere(a: Db, b: Db, name: string)
  {
    a.Keys == b.Keys && forall t :: t in a && t != name ==> b[t] == a[t]
  }

  /** Same number of rows, with the same values in the given columns. */
  ghost predicate KeepsValues(a: Table, b: Table, columns: set<string>)
  {
    |b.rows| == |a.rows| && columns <= b.columns &&
    forall i, c :: 0 <= i < |a.rows| && c in columns ==> Get(b.rows[i], c) == Get(a.rows[i], c)
  }

  // ── the column loop ────────────────────────────────────────────────────────

  /** More columns, nothing else. */
  ghost predicate Widened(a: Table, b: Table)
  {
    && KeepsValues(a, b, a.columns)
    && b.uniques == a.uniques && b.checks == a.checks && b.partials == a.partials && b.indexes == a.indexes
  }

  /** One turn of the column loop. */
  lemma AddMissingStep(db: Db, missing: seq<Missing>, d: Db) returns (next: Db)
    requires missing != [] && AddMissing(db, missing) == Some(d)
    ensures AddMissing(next, missing[1..]) == Some(d) && SameElsewhere(db, next, missing[0].table)
    ensures forall t :: t in db ==> Widened(db[t], next[t])
    ensures HasColumn(next, missing[0].table, missing[0].column)
    ensures forall t, c :: HasColumn(next, t, c) ==> HasColumn(db, t, c) || (t == missing[0].table && c == missing[0].column)
    ensures !HasColumn(db, missing[0].table, missing[0].column) ==>
              var t := missing[0].table;
              forall i :: 0 <= i < |next[t].rows| ==> Get(next[t].rows[i], missing[0].column) == missing[0].default
  {
    var m := missing[0];
    next := if HasColumn(db, m.table, m.column) then db else Exec(db, AddColumn(m.table, m.column, m.default, m.isNotNull)).value;
  }

  lemma {:induction false} AddMissingWidens(db: Db, missing: seq<Missing>, d: Db)
    requires AddMissing(db, missing) == Some(d)
    ensures d.Keys == db.Keys && forall t :: t in db ==> Widened(db[t], d[t])
    ensures forall k :: 0 <= k < |missing| ==> HasColumn(d, missing[k].table, missing[k].column)
    decreases |missing|
  {
    if missing != [] {
      var next := AddMissingStep(db, missing, d);
      AddMissingWidens(next, missing[1..], d);
      forall k | 0 <= k < |missing| ensures HasColumn(d, missing[k].table, missing[k].column) {
        if k > 0 { assert missing[k] == missing[1..][k - 1]; } else { assert Widened(next[missing[0].table], d[missing[0].table]); }
      }
    }
  }

  lemma {:induction false} UnlistedTablesStay(db: Db, missing: seq<Missing>, d: Db, t: string)
    requires AddMissing(db, missing) == Some(d) && t in db
    requires forall k :: 0 <= k < |missing| ==> missing[k].table != t
    ensures t in d && d[t] == db[t]
    decreases |missing|
  {
    if missing != [] {
      var next := AddMissingStep(db, missing, d);
      assert forall k :: 0 <= k < |missing| - 1 ==> missing[1..][k] == missing[k + 1];
      UnlistedTablesStay(next, missing[1..], d, t);
    }
  }

  /** A column that was not there gets the default of its first listing in every row. */
  lemma {:induction false} NewColumnHasDefault(db: Db, missing: seq<Missing>, d: Db, k: nat, m: Missing, i: nat)
    requires AddMissing(db, missing) == Some(d) && k < |missing| && missing[k] == m
    requires m.table in db && i < |db[m.table].rows| && !HasColumn(db, m.table, m.column)
    requires forall j :: 0 <= j < k ==> !(missing[j].table == m.table && missing[j].column == m.column)
    ensures m.table in d && i < |d[m.table].rows| && Get(d[m.table].rows[i], m.column) == m.default
    decreases |missing|
  {
    var next := AddMissingStep(db, missing, d);
    assert Widened(db[m.table], next[m.table]);
    if k == 0 {
      LaterColumnsKeep(next, missing[1..], d, m.table, m.column, i);
    } else {
      assert missing[0] != m;
      NewColumnHasDefault(next, missing[1..], d, k - 1, m, i);
    }
  }

  lemma LaterColumnsKeep(db: Db, missing: seq<Missing>, d: Db, t: string, c: string, i: nat)
    requires AddMissing(db, missing) == Some(d) && HasColumn(db, t, c) && i < |db[t].rows|
    ensures t in d && i < |d[t].rows| && Get(d[t].rows[i], c) == Get(db[t].rows[i], c)
  {
    AddMissingWidens(db, missing, d);
    assert Widened(db[t], d[t]);
  }

  lemma {:induction false} NothingMissing(db: Db, missing: seq<Missing>)
    requires forall k :: 0 <= k < |missing| ==> HasColumn(db, missing[k].table, missing[k].column)
    ensures AddMissing(db, missing) == Some(db)
    decreases |missing|
  {
    if missing != [] {
      assert forall k :: 0 <= k < |missing| - 1 ==> missing[1..][k] == missing[k + 1];
      NothingMissing(db, missing[1..]);
    }
  }

  // ── announcements ──────────────────────────────────────────────────────────

  /** What a type means as a severity: an error is critical, a warning stays one, and everything
      else, NULL included, is information. */
  predicate Means(type_: Value, severity: Value)
  {
    && (type_ == Str("error") ==> severity == Str("critical"))
    && (type_ == Str("warn") ==> severity == Str("warn"))
    && (type_ != Str("error") && type_ != Str("warn") ==> severity == Str("info"))
  }

  lemma MeaningIsUnique(t: Value, severity: Value)
    requires Means(t, severity)
    ensures severity == SeverityOf(t)
  {
  }

  lemma SeverityMeans(t: Value)
    ensures Means(t, SeverityOf(t)) && SeverityOf(t).Str? && SeverityOf(t).s in SEVERITIES
  {
  }

  /** Every row's type became the severity it means, of the allowed set. */
  ghost predicate SeverityReplacesType(was: Table, now: Table)
  {
    && "severity" in now.columns && "type" !in now.columns && |now.rows| == |was.rows|
    && forall i :: 0 <= i < |was.rows| ==>
         && Means(Get(was.rows[i], "type"), Get(now.rows[i], "severity"))
         && Get(now.rows[i], "severity").Str? && Get(now.rows[i], "severity").s in SEVERITIES
  }

  /** A rebuild followed by index creation: the shape of the result, or failure. */
  lemma RebuildThenIndex(db: Db, name: string, blank: Table, needed: set<string>, project: Row -> Row, keep: Row -> bool,
                         indexes: seq<Statement>, d: Db)
    requires name in db && blank.rows == [] && blank.indexes == {}
    requires forall k :: 0 <= k < |indexes| ==> indexes[k].CreateIndexIfNotExists? && indexes[k].table == name
    requires ExecAll(db, RebuildStatements(name, blank, needed, project, keep) + indexes) == Some(d)
    ensures SameElsewhere(db, d, name) && needed <= db[name].columns
    ensures d[name] == blank.(rows := Selected(db[name].rows, project, keep), indexes := d[name].indexes)
    ensures Satisfied(blank.(rows := Selected(db[name].rows, project, keep)))
  {
    var ss := RebuildStatements(name, blank, needed, project, keep);
    ExecAllConcat(db, ss, indexes);
    RebuildResult(db, name, blank, needed, project, keep);
    OnlyIndexes(ExecAll(db, ss).value, name, indexes, d);
  }

  lemma {:induction false} OnlyIndexes(db: Db, name: string, indexes: seq<Statement>, d: Db)
    requires name in db && ExecAll(db, indexes) == Some(d)
    requires forall k :: 0 <= k < |indexes| ==> indexes[k].CreateIndexIfNotExists? && indexes[k].table == name
    ensures SameElsewhere(db, d, name) && d[name] == db[name].(indexes := d[name].indexes)
    decreases |indexes|
  {
    if |indexes| > 0 {
      assert indexes[0].CreateIndexIfNotExists?;
      assert forall k :: 0 <= k < |indexes| - 1 ==> indexes[1..][k] == indexes[k + 1];
      OnlyIndexes(Exec(db, indexes[0]).value, name, indexes[1..], d);
    }
  }

  lemma SqliteAnnouncements(db: Db, d: Db)
    requires AnnouncementsNeedMigration(db) && RunBlock(Sqlite, Some(db), Announcements) == Some(d)
    ensures SameElsewhere(db, d, ANNOUNCEMENTS)
    ensures d[ANNOUNCEMENTS].columns == NEW_ANNOUNCEMENTS.columns && |d[ANNOUNCEMENTS].rows| == |db[ANNOUNCEMENTS].rows|
    ensures forall i :: 0 <= i < |db[ANNOUNCEMENTS].rows| ==> d[ANNOUNCEMENTS].rows[i] == NewAnnouncement(db[ANNOUNCEMENTS].rows[i])
  {
    RebuildThenIndex(db, ANNOUNCEMENTS, NEW_ANNOUNCEMENTS, SHARED_ANNOUNCEMENT_COLUMNS + {"type"}, NewAnnouncement, KeepAll,
                     [CreateIndexIfNotExists(ANNOUNCEMENTS, "idx_announcements_active")], d);
    SelectedAll(db[ANNOUNCEMENTS].rows, NewAnnouncement, KeepAll);
  }

  lemma NewAnnouncementsReplaceType(a: Table, b: Table)
    requires b.columns == NEW_ANNOUNCEMENTS.columns && |b.rows| == |a.rows|
    requires forall i :: 0 <= i < |a.rows| ==> b.rows[i] == NewAnnouncement(a.rows[i])
    ensures SeverityReplacesType(a, b) && KeepsValues(a, b, SHARED_ANNOUNCEMENT_COLUMNS)
  {
    forall i | 0 <= i < |a.rows|
      ensures Get(b.rows[i], "severity") == SeverityOf(Get(a.rows[i], "type"))
      ensures Means(Get(a.rows[i], "type"), Get(b.rows[i], "severity"))
      ensures Get(b.rows[i], "severity").Str? && Get(b.rows[i], "severity").s in SEVERITIES
      ensures forall c :: c in SHARED_ANNOUNCEMENT_COLUMNS ==> Get(b.rows[i], c) == Get(a.rows[i], c)
    {
      SeverityMeans(Get(a.rows[i], "type"));
    }
  }

  /** The PostgreSQL branch, row by row. */
  function AlteredAnnouncement(r: Row): Row
  {
    r["severity" := TypeToSeverity(r["severity" := Str("info")])] - {"type"}
  }

  lemma AlteredAnnouncementRow(r: Row)
    ensures Get(AlteredAnnouncement(r), "severity") == SeverityOf(Get(r, "type"))
    ensures forall c :: c != "type" && c != "severity" ==> Get(AlteredAnnouncement(r), c) == Get(r, c)
    ensures AlteredAnnouncement(r) == (r["severity" := Str("info")]["severity" := TypeToSeverity(r["severity" := Str("info")])]) - {"type"}
  {
    assert "type" != "severity";
  }

  lemma DropColumnResult(db: Db, s: Statement, d: Db)
    requires s.DropColumn? && Exec(db, s) == Some(d)
    ensures s.table in db && SameElsewhere(db, d, s.table) && d[s.table].columns == db[s.table].columns - {s.column}
    ensures |d[s.table].rows| == |db[s.table].rows|
    ensures forall i :: 0 <= i < |db[s.table].rows| ==> d[s.table].rows[i] == db[s.table].rows[i] - {s.column}
  {
  }

  lemma PostgresAnnouncements(db: Db, d: Db)
    requires AnnouncementsNeedMigration(db) && RunBlock(Postgres, Some(db), Announcements) == Some(d)
    ensures SameElsewhere(db, d, ANNOUNCEMENTS)
    ensures d[ANNOUNCEMENTS].columns == db[ANNOUNCEMENTS].columns + {"severity"} - {"type"}
    ensures |d[ANNOUNCEMENTS].rows| == |db[ANNOUNCEMENTS].rows|
    ensures forall i :: 0 <= i < |db[ANNOUNCEMENTS].rows| ==>
              d[ANNOUNCEMENTS].rows[i] == AlteredAnnouncement(db[ANNOUNCEMENTS].rows[i])
  {
    var s0 := AddColumn(ANNOUNCEMENTS, "severity", Str("info"), true);
    var s1 := UpdateColumn(ANNOUNCEMENTS, "severity", TypeToSeverity);
    var s2 := DropColumn(ANNOUNCEMENTS, "type");
    var s3 := CreateIndexIfNotExists(ANNOUNCEMENTS, "idx_announcements_active");
    var was := db[ANNOUNCEMENTS].rows;
    assert AnnouncementStatements(Postgres, db) == [s0] + ([s1] + ([s2] + [s3]));
    ExecCons(db, s0, [s1] + ([s2] + [s3]));
    var db1 := Exec(db, s0).value;
    ExecCons(db1, s1, [s2] + [s3]);
    var db2 := Exec(db1, s1).value;
    ExecCons(db2, s2, [s3]);
    var db3 := Exec(db2, s2).value;
    DropColumnResult(db2, s2, db3);
    OnlyIndexes(db3, ANNOUNCEMENTS, [s3], d);
    forall i | 0 <= i < |was| ensures d[ANNOUNCEMENTS].rows[i] == AlteredAnnouncement(was[i]) {
      AlteredAnnouncementRow(was[i]);
    }
  }

  lemma AlteredAnnouncementsReplaceType(a: Table, b: Table)
    requires b.columns == a.columns + {"severity"} - {"type"} && |b.rows| == |a.rows|
    requires forall i :: 0 <= i < |a.rows| ==> b.rows[i] == AlteredAnnouncement(a.rows[i])
    ensures SeverityReplacesType(a, b)
    ensures "severity" !in a.columns ==> KeepsValues(a, b, a.columns - {"type"})
  {
    assert "type" != "severity";
    forall i | 0 <= i < |a.rows|
      ensures Means(Get(a.rows[i], "type"), Get(b.rows[i], "severity"))
      ensures Get(b.rows[i], "severity").Str? && Get(b.rows[i], "severity").s in SEVERITIES
      ensures forall c :: c != "type" && c != "severity" ==> Get(b.rows[i], c) == Get(a.rows[i], c)
    {
      AlteredAnnouncementRow(a.rows[i]);
      SeverityMeans(Get(a.rows[i], "type"));
    }
  }

  lemma SameRowEitherWay(r: Row)
    requires r.Keys == SHARED_ANNOUNCEMENT_COLUMNS + {"type"}
    ensures NewAnnouncement(r) == AlteredAnnouncement(r)
  {
    assert "type" !in SHARED_ANNOUNCEMENT_COLUMNS && "severity" !in SHARED_ANNOUNCEMENT_COLUMNS && "type" != "severity";
    AlteredAnnouncementRow(r);
    var x, y := NewAnnouncement(r), AlteredAnnouncement(r);
    assert x.Keys == y.Keys;
    forall c | c in x ensures x[c] == y[c] { assert x[c] == Get(x, c) && y[c] == Get(y, c); }
  }

  /** Where both branches succeed they give the same rows and columns if and only if the old table
      had exactly the columns of the original schema: SQLite's copy drops any other. */
  lemma DialectsAgreeIff(db: Db, lite: Db, pg: Db)
    requires AnnouncementsNeedMigration(db) && Rectangular(db[ANNOUNCEMENTS])
    requires RunBlock(Sqlite, Some(db), Announcements) == Some(lite)
    requires RunBlock(Postgres, Some(db), Announcements) == Some(pg)
    ensures ANNOUNCEMENTS in lite && ANNOUNCEMENTS in pg
    ensures lite[ANNOUNCEMENTS].rows == pg[ANNOUNCEMENTS].rows && lite[ANNOUNCEMENTS].columns == pg[ANNOUNCEMENTS].columns
            <==> db[ANNOUNCEMENTS].columns == SHARED_ANNOUNCEMENT_COLUMNS + {"type"}
  {
    SqliteAnnouncements(db, lite);
    SqliteNeedsColumns(db, lite);
    PostgresAnnouncements(db, pg);
    var was := db[ANNOUNCEMENTS];
    assert "type" !in SHARED_ANNOUNCEMENT_COLUMNS && "severity" !in SHARED_ANNOUNCEMENT_COLUMNS;
    if was.columns == SHARED_ANNOUNCEMENT_COLUMNS + {"type"} {
      forall i | 0 <= i < |was.rows| ensures lite[ANNOUNCEMENTS].rows[i] == pg[ANNOUNCEMENTS].rows[i] {
        SameRowEitherWay(was.rows[i]);
      }
    }
    if lite[ANNOUNCEMENTS].columns == pg[ANNOUNCEMENTS].columns {
      forall c | c in was.columns ensures c in SHARED_ANNOUNCEMENT_COLUMNS + {"type"} {
        assert c == "type" || c in pg[ANNOUNCEMENTS].columns;
      }
    }
  }

  lemma SqliteNeedsColumns(db: Db, d: Db)
    requires AnnouncementsNeedMigration(db) && RunBlock(Sqlite, Some(db), Announcements) == Some(d)
    ensures SHARED_ANNOUNCEMENT_COLUMNS <= db[ANNOUNCEMENTS].columns
  {
    RebuildThenIndex(db, ANNOUNCEMENTS, NEW_ANNOUNCEMENTS, SHARED_ANNOUNCEMENT_COLUMNS + {"type"}, NewAnnouncement, KeepAll,
                     [CreateIndexIfNotExists(ANNOUNCEMENTS, "idx_announcements_active")], d);
  }

  /** The block as a whole: it touches one table, and leaves nothing for a second run. */
  lemma AnnouncementBlock(dialect: Dialect, db: Db, d: Db)
    requires RunBlock(dialect, Some(db), Announcements) == Some(d)
    ensures SameElsewhere(db, d, ANNOUNCEMENTS) && !AnnouncementsNeedMigration(d)
    ensures !AnnouncementsNeedMigration(db) ==> d == db
  {
    if AnnouncementsNeedMigration(db) {
      if dialect == Sqlite { SqliteAnnouncements(db, d); } else { PostgresAnnouncements(db, d); }
    }
  }

  /** The type becomes the severity on both dialects.  PostgreSQL keeps all other columns; SQLite
      keeps the known ones, and needs them all. */
  lemma AnnouncementBlockKeeps(dialect: Dialect, db: Db, d: Db)
    requires AnnouncementsNeedMigration(db) && RunBlock(dialect, Some(db), Announcements) == Some(d)
    ensures ANNOUNCEMENTS in d && SeverityReplacesType(db[ANNOUNCEMENTS], d[ANNOUNCEMENTS])
    ensures KeepsValues(db[ANNOUNCEMENTS], d[ANNOUNCEMENTS],
                        if dialect == Sqlite then SHARED_ANNOUNCEMENT_COLUMNS else db[ANNOUNCEMENTS].columns - {"type"})
    ensures dialect == Sqlite ==>
              SHARED_ANNOUNCEMENT_COLUMNS <= db[ANNOUNCEMENTS].columns && d[ANNOUNCEMENTS].columns == NEW_ANNOUNCEMENTS.columns
  {
    if dialect == Sqlite {
      SqliteAnnouncements(db, d);
      SqliteNeedsColumns(db, d);
      NewAnnouncementsReplaceType(db[ANNOUNCEMENTS], d[ANNOUNCEMENTS]);
    } else {
      PostgresAnnouncements(db, d);
      AlteredAnnouncementsReplaceType(db[ANNOUNCEMENTS], d[ANNOUNCEMENTS]);
    }
  }

  // ── resource_assignments ───────────────────────────────────────────────────

  /** What running the assignments block again cannot change. */
  ghost predicate AssignmentsSettled(dialect: Dialect, db: Db)
  {
    AssignmentsNeedMigration(db) ==>
      && dialect == Postgres && UQ_ASSIGNMENTS in db[ASSIGNMENTS].uniques && db[ASSIGNMENTS].uniques[UQ_ASSIGNMENTS] == NEW_KEY
      && UQ_ASSIGNMENTS !in db[ASSIGNMENTS].checks && UniqueHolds(db[ASSIGNMENTS].rows, NEW_KEY)
  }

  lemma ProjectRow(columns: set<string>, r: Row)
    ensures forall c :: c in columns ==> Get(Project(columns, r), c) == Get(r, c)
  {
  }

  lemma SqliteAssignments(db: Db, d: Db)
    requires AssignmentsNeedMigration(db) && RunBlock(Sqlite, Some(db), Assignments) == Some(d)
    ensures SameElsewhere(db, d, ASSIGNMENTS) && KeepsValues(db[ASSIGNMENTS], d[ASSIGNMENTS], ASSIGNMENT_COLUMNS)
    ensures d[ASSIGNMENTS].uniques == NEW_ASSIGNMENTS.uniques && d[ASSIGNMENTS].columns == ASSIGNMENT_COLUMNS
    ensures d[ASSIGNMENTS].partials == map[]
  {
    var index := [ CreateIndexIfNotExists(ASSIGNMENTS, "idx_resource_assignments_user_id"),
                   CreateIndexIfNotExists(ASSIGNMENTS, "idx_resource_assignments_preset_id") ];
    RebuildThenIndex(db, ASSIGNMENTS, NEW_ASSIGNMENTS, ASSIGNMENT_COLUMNS, NewAssignment, KeepAll, index, d);
    SelectedAll(db[ASSIGNMENTS].rows, NewAssignment, KeepAll);
    forall i | 0 <= i < |db[ASSIGNMENTS].rows|
      ensures forall c :: c in ASSIGNMENT_COLUMNS ==> Get(d[ASSIGNMENTS].rows[i], c) == Get(db[ASSIGNMENTS].rows[i], c)
    {
      ProjectRow(ASSIGNMENT_COLUMNS, db[ASSIGNMENTS].rows[i]);
    }
  }

  lemma PostgresAssignments(db: Db, d: Db)
    requires AssignmentsNeedMigration(db) && RunBlock(Postgres, Some(db), Assignments) == Some(d)
    ensures var t := db[ASSIGNMENTS];
            && UniqueHolds(t.rows, NEW_KEY)
            && d == db[ASSIGNMENTS := t.(uniques := (t.uniques - {UQ_ASSIGNMENTS})[UQ_ASSIGNMENTS := NEW_KEY],
                                         checks := t.checks - {UQ_ASSIGNMENTS})]
  {
    var s0, s1 := DropConstraintIfExists(ASSIGNMENTS, UQ_ASSIGNMENTS), AddUnique(ASSIGNMENTS, UQ_ASSIGNMENTS, NEW_KEY);
    assert AssignmentStatements(Postgres, db) == [s0] + [s1];
    ExecCons(db, s0, [s1]);
    ExecOne(Exec(db, s0).value, s1);
  }

  lemma AssignmentBlock(dialect: Dialect, db: Db, d: Db)
    requires RunBlock(dialect, Some(db), Assignments) == Some(d)
    ensures SameElsewhere(db, d, ASSIGNMENTS) && AssignmentsSettled(dialect, d)
    ensures AssignmentsNeedMigration(db) ==>
              KeepsValues(db[ASSIGNMENTS], d[ASSIGNMENTS], if dialect == Sqlite then ASSIGNMENT_COLUMNS else db[ASSIGNMENTS].columns)
    ensures AssignmentsNeedMigration(db) && dialect == Sqlite ==> d[ASSIGNMENTS].columns == ASSIGNMENT_COLUMNS
    ensures !AssignmentsNeedMigration(db) ==> d == db
  {
    if AssignmentsNeedMigration(db) {
      if dialect == Sqlite {
        SqliteAssignments(db, d);
        assert NEW_KEY != OLD_KEY by { assert "portal_node_id" in NEW_KEY && "portal_node_id" !in OLD_KEY; }
        assert {"id"} != OLD_KEY by { assert "user_id" in OLD_KEY && "user_id" !in {"id"}; }
      } else {
        PostgresAssignments(db, d);
      }
    }
  }

  lemma AssignmentsStaySettled(dialect: Dialect, db: Db)
    requires AssignmentsSettled(dialect, db)
    ensures RunBlock(dialect, Some(db), Assignments) == Some(db)
  {
    if AssignmentsNeedMigration(db) {
      var t := db[ASSIGNMENTS];
      var s0, s1 := DropConstraintIfExists(ASSIGNMENTS, UQ_ASSIGNMENTS), AddUnique(ASSIGNMENTS, UQ_ASSIGNMENTS, NEW_KEY);
      assert AssignmentStatements(Postgres, db) == [s0] + [s1];
      ExecCons(db, s0, [s1]);
      var db1 := Exec(db, s0).value;
      ExecOne(db1, s1);
      assert t.checks - {UQ_ASSIGNMENTS} == t.checks;
      assert (t.uniques - {UQ_ASSIGNMENTS})[UQ_ASSIGNMENTS := NEW_KEY] == t.uniques;
      assert db1[ASSIGNMENTS := t] == db;
    }
  }

  // ── the partial index ──────────────────────────────────────────────────────

  lemma PartialIndexBlock(dialect: Dialect, db: Db, d: Db)
    requires RunBlock(dialect, Some(db), PartialIndex) == Some(d)
    ensures SameElsewhere(db, d, ASSIGNMENTS) && ASSIGNMENTS in d && UQ_NO_NODE in d[ASSIGNMENTS].partials
    ensures d[ASSIGNMENTS] == db[ASSIGNMENTS].(partials := d[ASSIGNMENTS].partials)
    ensures UQ_NO_NODE !in db[ASSIGNMENTS].partials ==>
              PartialHolds(db[ASSIGNMENTS].rows, NO_NODE) && d[ASSIGNMENTS].partials == db[ASSIGNMENTS].partials[UQ_NO_NODE := NO_NODE]
    ensures UQ_NO_NODE in db[ASSIGNMENTS].partials ==> d == db
  {
    ExecOne(db, PartialIndexStatements()[0]);
  }

  lemma PartialIndexStays(dialect: Dialect, db: Db)
    requires ASSIGNMENTS in db && UQ_NO_NODE in db[ASSIGNMENTS].partials
    ensures RunBlock(dialect, Some(db), PartialIndex) == Some(db)
  {
    ExecOne(db, PartialIndexStatements()[0]);
  }

  // ── sidebar pins ───────────────────────────────────────────────────────────

  lemma SqlitePins(db: Db, d: Db)
    requires PinsNeedMigration(Sqlite, db) && RunBlock(Sqlite, Some(db), Pins) == Some(d)
    ensures SameElsewhere(db, d, PINS)
    ensures d[PINS] == NEW_PINS.(rows := Selected(db[PINS].rows, NewPin, OldPinKind))
  {
    RebuildResult(db, PINS, NEW_PINS, PIN_COLUMNS, NewPin, OldPinKind);
  }

  lemma PostgresPins(db: Db, d: Db)
    requires PinsNeedMigration(Postgres, db) && RunBlock(Postgres, Some(db), Pins) == Some(d)
    ensures var t := db[PINS];
            && CheckHolds(t.rows, Check("pin_kind", PIN_KINDS))
            && d == db[PINS := t.(uniques := t.uniques - {CK_PINS},
                                  checks := (t.checks - {CK_PINS})[CK_PINS := Check("pin_kind", PIN_KINDS)])]
  {
    var s0, s1 := DropConstraintIfExists(PINS, CK_PINS), AddCheck(PINS, CK_PINS, Check("pin_kind", PIN_KINDS));
    assert PinStatements(Postgres, db) == [s0] + [s1];
    ExecCons(db, s0, [s1]);
    ExecOne(Exec(db, s0).value, s1);
  }

  predicate AllOldPins(t: Table) { forall i :: 0 <= i < |t.rows| ==> OldPinKind(t.rows[i]) }

  lemma PinBlock(dialect: Dialect, db: Db, d: Db)
    requires RunBlock(dialect, Some(db), Pins) == Some(d)
    ensures SameElsewhere(db, d, PINS) && !PinsNeedMigration(dialect, d)
    ensures !PinsNeedMigration(dialect, db) ==> d == db
  {
    if PinsNeedMigration(dialect, db) {
      if dialect == Sqlite {
        SqlitePins(db, d);
        assert CK_PINS in d[PINS].checks && "node_tab" in d[PINS].checks[CK_PINS].allowed;
      } else {
        PostgresPins(db, d);
      }
    }
  }

  lemma {:induction false} SelectedSome(rows: seq<Row>, project: Row -> Row, keep: Row -> bool)
    requires |Selected(rows, project, keep)| == |rows|
    ensures forall i :: 0 <= i < |rows| ==> keep(rows[i])
  {
    if rows != [] { SelectedSome(rows[1..], project, keep); }
  }

  /** PostgreSQL keeps every pin; SQLite's copy keeps them all exactly when the table holds only
      known columns and old kinds. */
  lemma PinsKeptIff(dialect: Dialect, db: Db, d: Db)
    requires PinsNeedMigration(dialect, db) && RunBlock(dialect, Some(db), Pins) == Some(d)
    ensures PINS in d
    ensures KeepsValues(db[PINS], d[PINS], db[PINS].columns) <==>
            (dialect == Sqlite ==> db[PINS].columns <= PIN_COLUMNS && AllOldPins(db[PINS]))
  {
    if dialect == Sqlite {
      SqlitePins(db, d);
      if AllOldPins(db[PINS]) {
        SelectedAll(db[PINS].rows, NewPin, OldPinKind);
        forall i | 0 <= i < |db[PINS].rows|
          ensures forall c :: c in PIN_COLUMNS ==> Get(d[PINS].rows[i], c) == Get(db[PINS].rows[i], c)
        {
          ProjectRow(PIN_COLUMNS, db[PINS].rows[i]);
        }
      } else if |d[PINS].rows| == |db[PINS].rows| {
        SelectedSome(db[PINS].rows, NewPin, OldPinKind);
      }
    } else {
      PostgresPins(db, d);
    }
  }

  lemma {:induction false} SelectedKeeps(rows: seq<Row>, project: Row -> Row, keep: Row -> bool, i: nat)
    requires i < |rows| && keep(rows[i])
    ensures project(rows[i]) in Selected(rows, project, keep)
  {
    if i > 0 { SelectedKeeps(rows[1..], project, keep, i - 1); }
  }

  /** No pin whose kind passes the old check is lost, whatever else the table holds. */
  lemma OldPinsSurvive(dialect: Dialect, db: Db, d: Db, i: nat)
    requires RunBlock(dialect, Some(db), Pins) == Some(d) && PINS in db
    requires i < |db[PINS].rows| && OldPinKind(db[PINS].rows[i])
    ensures PINS in d
    ensures exists r :: r in d[PINS].rows && forall c :: c in PIN_COLUMNS ==> Get(r, c) == Get(db[PINS].rows[i], c)
  {
    var r := db[PINS].rows[i];
    if !PinsNeedMigration(dialect, db) {
      assert d == db && r in d[PINS].rows;
    } else if dialect == Sqlite {
      SqlitePins(db, d);
      SelectedKeeps(db[PINS].rows, NewPin, OldPinKind, i);
      ProjectRow(PIN_COLUMNS, r);
      assert NewPin(r) in d[PINS].rows;
    } else {
      PostgresPins(db, d);
      assert r in d[PINS].rows;
    }
  }

  // ── the whole migration ────────────────────────────────────────────────────

  predicate AllFit(missing: seq<Missing>) { forall k :: 0 <= k < |missing| ==> Fits(missing[k]) }

  /** The databases between the blocks of a successful migration. */
  datatype Stages = Stages(db: Db, d1: Db, d2: Db, d3: Db, d4: Db, d: Db)

  function StagesOf(dialect: Dialect, missing: seq<Missing>, db: Db): Stages
    requires Migrate(dialect, missing, db).Some?
  {
    var d1 := AddMissing(db, missing);
    var d2 := RunBlock(dialect, d1, Announcements);
    var d3 := RunBlock(dialect, d2, Assignments);
    var d4 := RunBlock(dialect, d3, PartialIndex);
    Stages(db, d1.value, d2.value, d3.value, d4.value, RunBlock(dialect, d4, Pins).value)
  }

  /** The database before and after each step. */
  predicate Runs(dialect: Dialect, missing: seq<Missing>, s: Stages)
  {
    && AddMissing(s.db, missing) == Some(s.d1)
    && RunBlock(dialect, Some(s.d1), Announcements) == Some(s.d2)
    && RunBlock(dialect, Some(s.d2), Assignments) == Some(s.d3)
    && RunBlock(dialect, Some(s.d3), PartialIndex) == Some(s.d4)
    && RunBlock(dialect, Some(s.d4), Pins) == Some(s.d)
  }

  lemma StagesRun(dialect: Dialect, missing: seq<Missing>, db: Db, d: Db) returns (s: Stages)
    requires Migrate(dialect, missing, db) == Some(d)
    ensures Runs(dialect, missing, s) && s.db == db && s.d == d
  {
    s := StagesOf(dialect, missing, db);
  }

  lemma TablesStay(dialect: Dialect, missing: seq<Missing>, s: Stages)
    requires Runs(dialect, missing, s)
    ensures s.d1.Keys == s.db.Keys && s.d2.Keys == s.db.Keys && s.d3.Keys == s.db.Keys && s.d4.Keys == s.db.Keys
    ensures s.d.Keys == s.db.Keys && ASSIGNMENTS in s.db
  {
    AddMissingWidens(s.db, missing, s.d1);
    AnnouncementBlock(dialect, s.d1, s.d2);
    AssignmentBlock(dialect, s.d2, s.d3);
    PartialIndexBlock(dialect, s.d3, s.d4);
    PinBlock(dialect, s.d4, s.d);
  }

  /** The column list names neither the announcements nor the pins. */
  lemma NotWidened(db: Db, missing: seq<Missing>, d1: Db, t: string)
    requires AllFit(missing) && AddMissing(db, missing) == Some(d1) && t in db && (t == ANNOUNCEMENTS || t == PINS)
    ensures t in d1 && d1[t] == db[t]
  {
    forall k | 0 <= k < |missing| ensures missing[k].table != t { assert Fits(missing[k]); }
    UnlistedTablesStay(db, missing, d1, t);
  }

  /** Each table is touched by one block only: its history in a successful migration. */
  lemma TableHistory(dialect: Dialect, missing: seq<Missing>, s: Stages, t: string)
    requires Runs(dialect, missing, s) && t in s.db
    ensures t in s.d1 && t in s.d2 && t in s.d3 && t in s.d4 && t in s.d
    ensures t != ANNOUNCEMENTS ==> s.d2[t] == s.d1[t]
    ensures t != ASSIGNMENTS ==> s.d4[t] == s.d3[t] == s.d2[t]
    ensures t == ASSIGNMENTS ==> s.d4[t] == s.d3[t].(partials := s.d4[t].partials)
    ensures t != PINS ==> s.d[t] == s.d4[t]
  {
    AddMissingWidens(s.db, missing, s.d1);
    AnnouncementBlock(dialect, s.d1, s.d2);
    AssignmentBlock(dialect, s.d2, s.d3);
    PartialIndexBlock(dialect, s.d3, s.d4);
    PinBlock(dialect, s.d4, s.d);
  }

  lemma DistinctTables()
    ensures ANNOUNCEMENTS != ASSIGNMENTS && ANNOUNCEMENTS != PINS && ASSIGNMENTS != PINS
  {
  }

  // ── a second run ───────────────────────────────────────────────────────────

  lemma NothingToDo(dialect: Dialect, missing: seq<Missing>, d: Db)
    requires forall k :: 0 <= k < |missing| ==> HasColumn(d, missing[k].table, missing[k].column)
    requires !AnnouncementsNeedMigration(d) && AssignmentsSettled(dialect, d) && !PinsNeedMigration(dialect, d)
    requires ASSIGNMENTS in d && UQ_NO_NODE in d[ASSIGNMENTS].partials
    ensures Migrate(dialect, missing, d) == Some(d)
  {
    NothingMissing(d, missing);
    assert RunBlock(dialect, Some(d), Announcements) == Some(d);
    AssignmentsStaySettled(dialect, d);
    PartialIndexStays(dialect, d);
  }

  /** A second run of a successful migration succeeds and changes nothing, on both dialects. */
  lemma SecondRunChangesNothing(dialect: Dialect, missing: seq<Missing>, db: Db, d: Db)
    requires AllFit(missing) && Migrate(dialect, missing, db) == Some(d)
    ensures Migrate(dialect, missing, d) == Some(d)
  {
    var s := StagesRun(dialect, missing, db, d);
    forall k | 0 <= k < |missing| ensures HasColumn(d, missing[k].table, missing[k].column) {
      ColumnSurvives(dialect, missing, s, missing[k]);
    }
    AnnouncementsSettle(dialect, missing, s);
    AssignmentsSettle(dialect, missing, s);
    PinBlock(dialect, s.d4, d);
    NothingToDo(dialect, missing, d);
  }

  lemma AnnouncementsSettle(dialect: Dialect, missing: seq<Missing>, s: Stages)
    requires Runs(dialect, missing, s)
    ensures !AnnouncementsNeedMigration(s.d)
  {
    TablesStay(dialect, missing, s);
    AnnouncementBlock(dialect, s.d1, s.d2);
    DistinctTables();
    if ANNOUNCEMENTS in s.db { TableHistory(dialect, missing, s, ANNOUNCEMENTS); }
  }

  lemma AssignmentsSettle(dialect: Dialect, missing: seq<Missing>, s: Stages)
    requires Runs(dialect, missing, s)
    ensures AssignmentsSettled(dialect, s.d) && ASSIGNMENTS in s.d && UQ_NO_NODE in s.d[ASSIGNMENTS].partials
  {
    TablesStay(dialect, missing, s);
    DistinctTables();
    TableHistory(dialect, missing, s, ASSIGNMENTS);
    AssignmentBlock(dialect, s.d2, s.d3);
    PartialIndexBlock(dialect, s.d3, s.d4);
  }

  lemma ColumnSurvives(dialect: Dialect, missing: seq<Missing>, s: Stages, m: Missing)
    requires AllFit(missing) && Runs(dialect, missing, s) && m in missing
    ensures HasColumn(s.d, m.table, m.column)
  {
    AddMissingWidens(s.db, missing, s.d1);
    assert Fits(m) && HasColumn(s.d1, m.table, m.column);
    TableHistory(dialect, missing, s, m.table);
    if m.table == ASSIGNMENTS { AssignmentBlock(dialect, s.d2, s.d3); }
  }

  lemma ListFits(missing: seq<FittingColumn>)
    ensures AllFit(missing)
  {
  }

  /** The portal's own column list: a second run changes nothing. */
  lemma PortalSecondRun(dialect: Dialect, db: Db, d: Db)
    requires Migrate(dialect, MISSING, db) == Some(d)
    ensures Migrate(dialect, MISSING, d) == Some(d)
  {
    ListFits(MISSING);
    SecondRunChangesNothing(dialect, MISSING, db, d);
  }

  // ── what the first run loses ───────────────────────────────────────────────

  /** The shape SQLite's copies were written for: the copied tables have no column the copy would
      drop, and the pins pass the old kind check.  PostgreSQL takes any shape. */
  predicate KnownShape(dialect: Dialect, db: Db)
  {
    dialect == Sqlite ==>
      && (AnnouncementsNeedMigration(db) ==> db[ANNOUNCEMENTS].columns <= SHARED_ANNOUNCEMENT_COLUMNS + {"type"})
      && (AssignmentsNeedMigration(db) ==> db[ASSIGNMENTS].columns <= ASSIGNMENT_COLUMNS)
      && (PinsNeedMigration(dialect, db) ==> db[PINS].columns <= PIN_COLUMNS && AllOldPins(db[PINS]))
  }

  /** The columns of a table that must come through: all but the announcement type. */
  function MustKeep(db: Db, t: string): set<string>
    requires t in db
  {
    if t == ANNOUNCEMENTS && AnnouncementsNeedMigration(db) then db[t].columns - {"type"} else db[t].columns
  }

  ghost predicate Kept(db: Db, d: Db, t: string)
    requires t in db
  {
    t in d && KeepsValues(db[t], d[t], MustKeep(db, t))
  }

  /** Every table, row and value of `db` is in `d`, but the announcement type, which became its severity. */
  ghost predicate Lossless(db: Db, d: Db)
  {
    && (forall t :: t in db ==> Kept(db, d, t))
    && (AnnouncementsNeedMigration(db) && ANNOUNCEMENTS in d ==> SeverityReplacesType(db[ANNOUNCEMENTS], d[ANNOUNCEMENTS]))
  }

  lemma AnnouncementsKeptIff(dialect: Dialect, db: Db, d: Db)
    requires AnnouncementsNeedMigration(db) && RunBlock(dialect, Some(db), Announcements) == Some(d)
    ensures ANNOUNCEMENTS in d && SeverityReplacesType(db[ANNOUNCEMENTS], d[ANNOUNCEMENTS])
    ensures KeepsValues(db[ANNOUNCEMENTS], d[ANNOUNCEMENTS], db[ANNOUNCEMENTS].columns - {"type"}) <==>
            (dialect == Sqlite ==> db[ANNOUNCEMENTS].columns <= SHARED_ANNOUNCEMENT_COLUMNS + {"type"})
  {
    AnnouncementBlockKeeps(dialect, db, d);
  }

  lemma AssignmentsKeptIff(dialect: Dialect, db: Db, d: Db, columns: set<string>)
    requires AssignmentsNeedMigration(db) && RunBlock(dialect, Some(db), Assignments) == Some(d)
    requires columns <= db[ASSIGNMENTS].columns
    ensures ASSIGNMENTS in d
    ensures KeepsValues(db[ASSIGNMENTS], d[ASSIGNMENTS], columns) <==> (dialect == Sqlite ==> columns <= ASSIGNMENT_COLUMNS)
  {
    AssignmentBlock(dialect, db, d);
  }

  lemma KeptThrough(a: Table, b: Table, c: Table, columns: set<string>)
    requires KeepsValues(a, b, columns)
    ensures KeepsValues(a, c, columns) <==> KeepsValues(b, c, columns)
  {
  }

  lemma AnnouncementsInRun(dialect: Dialect, missing: seq<Missing>, s: Stages)
    requires AllFit(missing) && Runs(dialect, missing, s) && ANNOUNCEMENTS in s.db
    ensures AnnouncementsNeedMigration(s.db) ==>
              ANNOUNCEMENTS in s.d && SeverityReplacesType(s.db[ANNOUNCEMENTS], s.d[ANNOUNCEMENTS])
    ensures Kept(s.db, s.d, ANNOUNCEMENTS) <==>
            (dialect == Sqlite && AnnouncementsNeedMigration(s.db) ==>
               s.db[ANNOUNCEMENTS].columns <= SHARED_ANNOUNCEMENT_COLUMNS + {"type"})
  {
    DistinctTables();
    NotWidened(s.db, missing, s.d1, ANNOUNCEMENTS);
    TableHistory(dialect, missing, s, ANNOUNCEMENTS);
    if AnnouncementsNeedMigration(s.d1) {
      AnnouncementsKeptIff(dialect, s.d1, s.d2);
    } else {
      AnnouncementBlock(dialect, s.d1, s.d2);
    }
  }

  lemma PinsInRun(dialect: Dialect, missing: seq<Missing>, s: Stages)
    requires AllFit(missing) && Runs(dialect, missing, s) && PINS in s.db
    ensures Kept(s.db, s.d, PINS) <==>
            (dialect == Sqlite && PinsNeedMigration(dialect, s.db) ==> s.db[PINS].columns <= PIN_COLUMNS && AllOldPins(s.db[PINS]))
  {
    DistinctTables();
    NotWidened(s.db, missing, s.d1, PINS);
    TableHistory(dialect, missing, s, PINS);
    if PinsNeedMigration(dialect, s.d4) { PinsKeptIff(dialect, s.d4, s.d); } else { PinBlock(dialect, s.d4, s.d); }
  }

  lemma AssignmentsInRun(dialect: Dialect, missing: seq<Missing>, s: Stages)
    requires Runs(dialect, missing, s) && ASSIGNMENTS in s.db
    ensures Kept(s.db, s.d, ASSIGNMENTS) <==>
            (dialect == Sqlite && AssignmentsNeedMigration(s.db) ==> s.db[ASSIGNMENTS].columns <= ASSIGNMENT_COLUMNS)
  {
    DistinctTables();
    TableHistory(dialect, missing, s, ASSIGNMENTS);
    AddMissingWidens(s.db, missing, s.d1);
    var a, b, c, columns := s.db[ASSIGNMENTS], s.d2[ASSIGNMENTS], s.d[ASSIGNMENTS], s.db[ASSIGNMENTS].columns;
    assert Widened(a, b);
    KeptThrough(a, b, c, columns);
    if AssignmentsNeedMigration(s.d2) {
      AssignmentsKeptIff(dialect, s.d2, s.d3, columns);
    } else {
      AssignmentBlock(dialect, s.d2, s.d3);
    }
  }

  lemma OthersInRun(dialect: Dialect, missing: seq<Missing>, s: Stages, t: string)
    requires Runs(dialect, missing, s) && t in s.db && t != ANNOUNCEMENTS && t != PINS && t != ASSIGNMENTS
    ensures Kept(s.db, s.d, t)
  {
    TableHistory(dialect, missing, s, t);
    AddMissingWidens(s.db, missing, s.d1);
    assert Widened(s.db[t], s.d1[t]);
  }

  /** The special tables decide. */
  lemma LosslessByTable(db: Db, d: Db)
    requires forall t :: t in db && t != ANNOUNCEMENTS && t != PINS && t != ASSIGNMENTS ==> Kept(db, d, t)
    requires AnnouncementsNeedMigration(db) && ANNOUNCEMENTS in d ==> SeverityReplacesType(db[ANNOUNCEMENTS], d[ANNOUNCEMENTS])
    ensures Lossless(db, d) <==>
            && (ANNOUNCEMENTS in db ==> Kept(db, d, ANNOUNCEMENTS))
            && (PINS in db ==> Kept(db, d, PINS))
            && (ASSIGNMENTS in db ==> Kept(db, d, ASSIGNMENTS))
  {
  }

  /** The first run of a migration that succeeds loses nothing if and only if the database had a
      known shape. */
  lemma FirstRunLosslessIff(dialect: Dialect, missing: seq<Missing>, db: Db, d: Db)
    requires AllFit(missing) && Migrate(dialect, missing, db) == Some(d)
    ensures Lossless(db, d) <==> KnownShape(dialect, db)
  {
    var s := StagesRun(dialect, missing, db, d);
    if ASSIGNMENTS in db { AssignmentsInRun(dialect, missing, s); }
    if ANNOUNCEMENTS in db { AnnouncementsInRun(dialect, missing, s); }
    if PINS in db { PinsInRun(dialect, missing, s); }
    forall t | t in db && t != ANNOUNCEMENTS && t != PINS && t != ASSIGNMENTS ensures Kept(db, d, t) {
      OthersInRun(dialect, missing, s, t);
    }
    LosslessByTable(db, d);
  }

  // ── uniqueness of assignments ──────────────────────────────────────────────

  /** Equal keys, with NULL as a value like any other. */
  predicate SameKey(a: Row, b: Row)
  {
    && Get(a, "user_id") == Get(b, "user_id") && Get(a, "resource_type") == Get(b, "resource_type")
    && Get(a, "portal_node_id") == Get(b, "portal_node_id") && Get(a, "resource_id") == Get(b, "resource_id")
  }

  predicate NoDuplicates(rows: seq<Row>)
  {
    forall i, j :: 0 <= i < j < |rows| ==> !SameKey(rows[i], rows[j])
  }

  /** The four-column constraint and the partial index together say that no two assignments share
      user, type, node and resource, NULL counting as a value. */
  lemma ConstraintsMeanNoDuplicates(rows: seq<Row>)
    requires NotNullHolds(rows, OLD_KEY)
    ensures UniqueHolds(rows, NEW_KEY) && PartialHolds(rows, NO_NODE) <==> NoDuplicates(rows)
  {
    assert NEW_KEY == OLD_KEY + {"portal_node_id"};
    forall i, j | 0 <= i < j < |rows|
      ensures SameKey(rows[i], rows[j]) <==>
              (Collide(rows[i], rows[j], NEW_KEY) ||
               (Get(rows[i], "portal_node_id") == Null && Get(rows[j], "portal_node_id") == Null && Collide(rows[i], rows[j], OLD_KEY)))
    {
    }
  }

  /** The old three-column uniqueness implies both new ones, so neither the rebuild nor the index
      creation can fail on uniqueness. */
  lemma OldUniquenessSuffices(rows: seq<Row>)
    requires UniqueHolds(rows, OLD_KEY)
    ensures UniqueHolds(rows, NEW_KEY) && PartialHolds(rows, NO_NODE)
  {
    assert OLD_KEY <= NEW_KEY;
    forall i, j | 0 <= i < j < |rows| ensures !Collide(rows[i], rows[j], NEW_KEY) {
      assert !Collide(rows[i], rows[j], OLD_KEY);
    }
  }
}
