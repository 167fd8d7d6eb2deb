/** When `_migrate_db` succeeds: on every database of the original shape whose constraints hold, on
    both dialects. */
module MigrationSuccess {
  import opened Text
  import opened Schema
  import opened Migration
  import opened MigrationProofs

  /** Constraints speak of the table's own columns. */
  ghost predicate Scoped(t: Table)
  {
    && t.notNull <= t.columns
    && (forall n :: n in t.uniques ==> t.uniques[n] <= t.columns)
    && (forall n :: n in t.checks ==> t.checks[n].column in t.columns)
    && (forall n :: n in t.partials ==> t.partials[n].columns <= t.columns && t.partials[n].whenNull in t.columns)
  }

  ghost predicate Sound(t: Table) { Satisfied(t) && Scoped(t) }

  /** Constraints only look at the columns they name. */
  lemma ConstraintsCarryOver(a: seq<Row>, b: seq<Row>, columns: set<string>)
    requires |a| == |b| && forall i, c :: 0 <= i < |a| && c in columns ==> Get(b[i], c) == Get(a[i], c)
    ensures forall cols :: cols <= columns && UniqueHolds(a, cols) ==> UniqueHolds(b, cols)
    ensures forall cols :: cols <= columns && NotNullHolds(a, cols) ==> NotNullHolds(b, cols)
    ensures forall ck: Check :: ck.column in columns && CheckHolds(a, ck) ==> CheckHolds(b, ck)
    ensures forall p: Partial :: p.columns <= columns && p.whenNull in columns && PartialHolds(a, p) ==> PartialHolds(b, p)
  {
    forall i, j, cols | 0 <= i < j < |a| && cols <= columns ensures Collide(b[i], b[j], cols) ==> Collide(a[i], a[j], cols) {
      if Collide(b[i], b[j], cols) {
        forall c | c in cols ensures Get(a[i], c) == Get(a[j], c) && Get(a[i], c) != Null { assert Get(b[i], c) == Get(a[i], c); }
      }
    }
  }

  lemma SatisfiedCarriesOver(t: Table, rows: seq<Row>)
    requires Sound(t) && |rows| == |t.rows|
    requires forall i, c :: 0 <= i < |rows| && c in t.columns ==> Get(rows[i], c) == Get(t.rows[i], c)
    ensures Satisfied(t.(rows := rows))
  {
    ConstraintsCarryOver(t.rows, rows, t.columns);
  }

  // ── the column loop ────────────────────────────────────────────────────────

  lemma AddColumnSucceeds(db: Db, s: Statement)
    requires s.AddColumn? && s.table in db && Sound(db[s.table]) && s.column !in db[s.table].columns
    requires s.isNotNull ==> s.default != Null
    ensures Exec(db, s).Some? && Sound(Exec(db, s).value[s.table]) && SameElsewhere(db, Exec(db, s).value, s.table)
    ensures Exec(db, s).value[s.table].columns == db[s.table].columns + {s.column}
  {
    var t := db[s.table];
    var rows := MapRows(t.rows, (r: Row) => r[s.column := s.default]);
    SatisfiedCarriesOver(t, rows);
    assert NotNullHolds(rows, if s.isNotNull then t.notNull + {s.column} else t.notNull);
  }

  ghost predicate AllSound(db: Db) { forall t :: t in db ==> Sound(db[t]) }

  predicate TablesThere(db: Db, missing: seq<Missing>)
  {
    forall k :: 0 <= k < |missing| ==> missing[k].table in db
  }

  lemma {:induction false} AddMissingSucceeds(db: Db, missing: seq<Missing>)
    requires AllFit(missing) && AllSound(db) && TablesThere(db, missing)
    ensures AddMissing(db, missing).Some? && AllSound(AddMissing(db, missing).value)
    decreases |missing|
  {
    if missing != [] {
      var m := missing[0];
      assert Fits(m);
      assert forall k :: 0 <= k < |missing| - 1 ==> missing[1..][k] == missing[k + 1];
      if HasColumn(db, m.table, m.column) {
        AddMissingSucceeds(db, missing[1..]);
      } else {
        var s := AddColumn(m.table, m.column, m.default, m.isNotNull);
        AddColumnSucceeds(db, s);
        AddMissingSucceeds(Exec(db, s).value, missing[1..]);
      }
    }
  }

  // ── announcements ──────────────────────────────────────────────────────────

  /** What SQLite's copy of the announcements needs. */
  predicate OriginalAnnouncements(dialect: Dialect, db: Db)
  {
    AnnouncementsNeedMigration(db) && dialect == Sqlite ==>
      && ANNOUNCEMENTS + "_new" !in db && SHARED_ANNOUNCEMENT_COLUMNS <= db[ANNOUNCEMENTS].columns
      && UniqueHolds(db[ANNOUNCEMENTS].rows, {"id"})
      && NotNullHolds(db[ANNOUNCEMENTS].rows, NEW_ANNOUNCEMENTS.notNull - {"severity"})
  }

  lemma CopiedSeveritiesHold(rows: seq<Row>, copied: seq<Row>)
    requires |copied| == |rows| && forall i :: 0 <= i < |rows| ==> copied[i] == NewAnnouncement(rows[i])
    ensures NotNullHolds(copied, {"severity"}) && CheckHolds(copied, Check("severity", SEVERITIES))
  {
  }

  lemma NotNullUnion(rows: seq<Row>, a: set<string>, b: set<string>, all: set<string>)
    requires NotNullHolds(rows, a) && NotNullHolds(rows, b) && all <= a + b
    ensures NotNullHolds(rows, all)
  {
  }

  /** One uniqueness and one NOT NULL constraint on columns that stay. */
  lemma KeyCarriesOver(a: seq<Row>, b: seq<Row>, columns: set<string>, unique: set<string>, notNull: set<string>)
    requires |a| == |b| && forall i, c :: 0 <= i < |a| && c in columns ==> Get(b[i], c) == Get(a[i], c)
    requires unique <= columns && notNull <= columns && UniqueHolds(a, unique) && NotNullHolds(a, notNull)
    ensures UniqueHolds(b, unique) && NotNullHolds(b, notNull)
  {
    ConstraintsCarryOver(a, b, columns);
  }

  lemma CopiedAnnouncementsHold(rows: seq<Row>, copied: seq<Row>)
    requires UniqueHolds(rows, {"id"}) && NotNullHolds(rows, NEW_ANNOUNCEMENTS.notNull - {"severity"})
    requires |copied| == |rows| && forall i :: 0 <= i < |rows| ==> copied[i] == NewAnnouncement(rows[i])
    ensures UniqueHolds(copied, {"id"}) && NotNullHolds(copied, NEW_ANNOUNCEMENTS.notNull - {"severity"})
  {
    assert NEW_ANNOUNCEMENTS.notNull - {"severity"} <= SHARED_ANNOUNCEMENT_COLUMNS && {"id"} <= SHARED_ANNOUNCEMENT_COLUMNS;
    KeyCarriesOver(rows, copied, SHARED_ANNOUNCEMENT_COLUMNS, {"id"}, NEW_ANNOUNCEMENTS.notNull - {"severity"});
  }

  lemma IndexAlone(db: Db, table: string, name: string)
    requires table in db
    ensures ExecAll(db, [CreateIndexIfNotExists(table, name)]).Some?
  {
    ExecOne(db, CreateIndexIfNotExists(table, name));
  }

  lemma SqliteAnnouncementsMigrate(db: Db)
    requires AnnouncementsNeedMigration(db) && OriginalAnnouncements(Sqlite, db)
    ensures RunBlock(Sqlite, Some(db), Announcements).Some?
  {
    var t := db[ANNOUNCEMENTS];
    var needed := SHARED_ANNOUNCEMENT_COLUMNS + {"type"};
    var copy := NEW_ANNOUNCEMENTS.(rows := Selected(t.rows, NewAnnouncement, KeepAll));
    SelectedAll(t.rows, NewAnnouncement, KeepAll);
    CopiedAnnouncementsHold(t.rows, copy.rows);
    CopiedSeveritiesHold(t.rows, copy.rows);
    NotNullUnion(copy.rows, NEW_ANNOUNCEMENTS.notNull - {"severity"}, {"severity"}, NEW_ANNOUNCEMENTS.notNull);
    RebuildResult(db, ANNOUNCEMENTS, NEW_ANNOUNCEMENTS, needed, NewAnnouncement, KeepAll);
    var ss := RebuildStatements(ANNOUNCEMENTS, NEW_ANNOUNCEMENTS, needed, NewAnnouncement, KeepAll);
    ExecAllConcat(db, ss, [CreateIndexIfNotExists(ANNOUNCEMENTS, "idx_announcements_active")]);
    IndexAlone(ExecAll(db, ss).value, ANNOUNCEMENTS, "idx_announcements_active");
  }

  /** Setting a new column to values that are not NULL breaks no constraint: only its own NOT NULL
      speaks of it. */
  lemma UpdateSucceeds(db: Db, s: Statement, was: Table)
    requires s.UpdateColumn? && s.table in db && Satisfied(db[s.table]) && s.column in db[s.table].columns
    requires Scoped(was) && s.column !in was.columns && forall r: Row :: s.value(r) != Null
    requires var t := db[s.table];
             t.uniques == was.uniques && t.checks == was.checks && t.partials == was.partials && t.notNull == was.notNull + {s.column}
    ensures Exec(db, s).Some?
  {
    var t := db[s.table];
    var rows := MapRows(t.rows, (r: Row) => r[s.column := s.value(r)]);
    assert Sound(was.(rows := t.rows));
    SatisfiedCarriesOver(was.(rows := t.rows), rows);
    assert NotNullHolds(rows, {s.column});
    NotNullUnion(rows, was.notNull, {s.column}, t.notNull);
  }

  lemma PostgresAnnouncementsMigrate(db: Db)
    requires AnnouncementsNeedMigration(db) && Sound(db[ANNOUNCEMENTS])
    ensures RunBlock(Postgres, Some(db), Announcements).Some?
  {
    var s0 := AddColumn(ANNOUNCEMENTS, "severity", Str("info"), true);
    var s1 := UpdateColumn(ANNOUNCEMENTS, "severity", TypeToSeverity);
    var s2 := DropColumn(ANNOUNCEMENTS, "type");
    var s3 := CreateIndexIfNotExists(ANNOUNCEMENTS, "idx_announcements_active");
    assert AnnouncementStatements(Postgres, db) == [s0] + ([s1] + ([s2] + [s3]));
    AddColumnSucceeds(db, s0);
    var db1 := Exec(db, s0).value;
    UpdateSucceeds(db1, s1, db[ANNOUNCEMENTS]);
    var db2 := Exec(db1, s1).value;
    ExecCons(db, s0, [s1] + ([s2] + [s3]));
    ExecCons(db1, s1, [s2] + [s3]);
    DropThenIndex(db2, s2, s3);
  }

  lemma DropThenIndex(db: Db, s2: Statement, s3: Statement)
    requires HasColumn(db, ANNOUNCEMENTS, "type") && s2 == DropColumn(ANNOUNCEMENTS, "type")
    requires s3 == CreateIndexIfNotExists(ANNOUNCEMENTS, "idx_announcements_active")
    ensures ExecAll(db, [s2] + [s3]).Some?
  {
    ExecCons(db, s2, [s3]);
    IndexAlone(Exec(db, s2).value, ANNOUNCEMENTS, "idx_announcements_active");
  }

  // ── assignments and the partial index ──────────────────────────────────────

  /** A table with the old constraint and, where it is copied, what the new table demands. */
  predicate OriginalAssignments(dialect: Dialect, db: Db)
  {
    && AssignmentsNeedMigration(db) && UniqueHolds(db[ASSIGNMENTS].rows, OLD_KEY)
    && (dialect == Sqlite ==>
        var t := db[ASSIGNMENTS];
        && ASSIGNMENTS + "_new" !in db && ASSIGNMENT_COLUMNS <= t.columns && UniqueHolds(t.rows, {"id"})
        && NotNullHolds(t.rows, NEW_ASSIGNMENTS.notNull) && CheckHolds(t.rows, Check("resource_type", {"vm", "lxc"})))
  }

  lemma CopyHolds(rows: seq<Row>, copied: seq<Row>)
    requires UniqueHolds(rows, OLD_KEY) && UniqueHolds(rows, {"id"})
    requires NotNullHolds(rows, NEW_ASSIGNMENTS.notNull) && CheckHolds(rows, Check("resource_type", {"vm", "lxc"}))
    requires |copied| == |rows| && forall i :: 0 <= i < |rows| ==> copied[i] == NewAssignment(rows[i])
    ensures UniqueHolds(copied, NEW_KEY) && UniqueHolds(copied, {"id"}) && PartialHolds(copied, NO_NODE)
    ensures NotNullHolds(copied, NEW_ASSIGNMENTS.notNull) && CheckHolds(copied, Check("resource_type", {"vm", "lxc"}))
  {
    forall i, c | 0 <= i < |rows| && c in ASSIGNMENT_COLUMNS ensures Get(copied[i], c) == Get(rows[i], c) {
      ProjectRow(ASSIGNMENT_COLUMNS, rows[i]);
    }
    OldUniquenessSuffices(rows);
    ConstraintsCarryOver(rows, copied, ASSIGNMENT_COLUMNS);
    assert NEW_KEY <= ASSIGNMENT_COLUMNS && OLD_KEY <= ASSIGNMENT_COLUMNS && {"id"} <= ASSIGNMENT_COLUMNS;
    assert NEW_ASSIGNMENTS.notNull <= ASSIGNMENT_COLUMNS && "resource_type" in ASSIGNMENT_COLUMNS;
    assert NO_NODE.columns == OLD_KEY && NO_NODE.whenNull in ASSIGNMENT_COLUMNS;
  }

  lemma CopySatisfies(copy: Table)
    requires copy == NEW_ASSIGNMENTS.(rows := copy.rows)
    requires UniqueHolds(copy.rows, NEW_KEY) && UniqueHolds(copy.rows, {"id"})
    requires NotNullHolds(copy.rows, NEW_ASSIGNMENTS.notNull) && CheckHolds(copy.rows, Check("resource_type", {"vm", "lxc"}))
    ensures Satisfied(copy)
  {
  }

  /** On a table of the original schema neither the new constraint nor the partial index can fail. */
  lemma OriginalAssignmentsMigrate(dialect: Dialect, db: Db)
    requires OriginalAssignments(dialect, db)
    ensures RunBlock(dialect, Some(db), Assignments).Some?
    ensures RunBlock(dialect, RunBlock(dialect, Some(db), Assignments), PartialIndex).Some?
  {
    var t := db[ASSIGNMENTS];
    OldUniquenessSuffices(t.rows);
    var d: Db;
    if dialect == Sqlite {
      d := SqliteAssignmentsRun(db);
    } else {
      d := PostgresAssignmentsRun(db);
    }
    ExecOne(d, PartialIndexStatements()[0]);
  }

  lemma TwoIndexes(db: Db, table: string, a: string, b: string) returns (d: Db)
    requires table in db
    ensures ExecAll(db, [CreateIndexIfNotExists(table, a), CreateIndexIfNotExists(table, b)]) == Some(d)
    ensures table in d && d[table].rows == db[table].rows
  {
    var i0, i1 := CreateIndexIfNotExists(table, a), CreateIndexIfNotExists(table, b);
    assert [i0, i1] == [i0] + [i1];
    ExecCons(db, i0, [i1]);
    ExecOne(Exec(db, i0).value, i1);
    d := Exec(Exec(db, i0).value, i1).value;
  }

  lemma SqliteAssignmentsRun(db: Db) returns (d: Db)
    requires OriginalAssignments(Sqlite, db)
    ensures RunBlock(Sqlite, Some(db), Assignments) == Some(d) && ASSIGNMENTS in d && PartialHolds(d[ASSIGNMENTS].rows, NO_NODE)
  {
    var t := db[ASSIGNMENTS];
    var ss := RebuildStatements(ASSIGNMENTS, NEW_ASSIGNMENTS, ASSIGNMENT_COLUMNS, NewAssignment, KeepAll);
    var copy := NEW_ASSIGNMENTS.(rows := Selected(t.rows, NewAssignment, KeepAll));
    SelectedAll(t.rows, NewAssignment, KeepAll);
    CopyHolds(t.rows, copy.rows);
    CopySatisfies(copy);
    RebuildResult(db, ASSIGNMENTS, NEW_ASSIGNMENTS, ASSIGNMENT_COLUMNS, NewAssignment, KeepAll);
    d := TwoIndexes(db[ASSIGNMENTS := copy], ASSIGNMENTS, "idx_resource_assignments_user_id", "idx_resource_assignments_preset_id");
    ExecAllConcat(db, ss, [ CreateIndexIfNotExists(ASSIGNMENTS, "idx_resource_assignments_user_id"),
                            CreateIndexIfNotExists(ASSIGNMENTS, "idx_resource_assignments_preset_id") ]);
  }

  lemma PostgresAssignmentsRun(db: Db) returns (d: Db)
    requires OriginalAssignments(Postgres, db)
    ensures RunBlock(Postgres, Some(db), Assignments) == Some(d) && ASSIGNMENTS in d && PartialHolds(d[ASSIGNMENTS].rows, NO_NODE)
  {
    var s0, s1 := DropConstraintIfExists(ASSIGNMENTS, UQ_ASSIGNMENTS), AddUnique(ASSIGNMENTS, UQ_ASSIGNMENTS, NEW_KEY);
    OldUniquenessSuffices(db[ASSIGNMENTS].rows);
    assert AssignmentStatements(Postgres, db) == [s0] + [s1];
    ExecCons(db, s0, [s1]);
    ExecOne(Exec(db, s0).value, s1);
    d := RunBlock(Postgres, Some(db), Assignments).value;
  }

  // ── sidebar pins ───────────────────────────────────────────────────────────

  /** SQLite copies the pins of the old kinds under the new table's keys; PostgreSQL checks the kinds
      there are against the new list. */
  predicate OriginalPins(dialect: Dialect, db: Db)
  {
    PinsNeedMigration(dialect, db) ==>
      var t := db[PINS];
      if dialect == Sqlite then
        && PINS + "_new" !in db && PIN_COLUMNS <= t.columns && UniqueHolds(t.rows, {"id"})
        && UniqueHolds(t.rows, {"user_id", "route"}) && NotNullHolds(t.rows, NEW_PINS.notNull)
      else CheckHolds(t.rows, Check("pin_kind", PIN_KINDS))
  }

  /** Row `r` collides with none of the others. */
  predicate Apart(r: Row, rows: seq<Row>, cols: set<string>)
  {
    forall i :: 0 <= i < |rows| ==> !Collide(r, rows[i], cols)
  }

  lemma {:induction false} CopiedPinsApart(r: Row, rows: seq<Row>, cols: set<string>)
    requires cols <= PIN_COLUMNS && Apart(r, rows, cols)
    ensures Apart(NewPin(r), Selected(rows, NewPin, OldPinKind), cols)
  {
    if rows != [] {
      assert forall i :: 0 <= i < |rows| - 1 ==> rows[1..][i] == rows[i + 1];
      CopiedPinsApart(r, rows[1..], cols);
    }
  }

  /** Dropping rows breaks no uniqueness. */
  lemma {:induction false} CopiedPinsUnique(rows: seq<Row>, cols: set<string>)
    requires cols <= PIN_COLUMNS && UniqueHolds(rows, cols)
    ensures UniqueHolds(Selected(rows, NewPin, OldPinKind), cols)
  {
    if rows != [] {
      assert forall i :: 0 <= i < |rows| - 1 ==> rows[1..][i] == rows[i + 1];
      CopiedPinsUnique(rows[1..], cols);
      CopiedPinsApart(rows[0], rows[1..], cols);
    }
  }

  lemma {:induction false} CopiedPinsHold(rows: seq<Row>, notNull: set<string>)
    requires notNull <= PIN_COLUMNS && NotNullHolds(rows, notNull)
    ensures NotNullHolds(Selected(rows, NewPin, OldPinKind), notNull)
    ensures CheckHolds(Selected(rows, NewPin, OldPinKind), Check("pin_kind", PIN_KINDS))
  {
    if rows != [] {
      assert forall i :: 0 <= i < |rows| - 1 ==> rows[1..][i] == rows[i + 1];
      CopiedPinsHold(rows[1..], notNull);
      ProjectRow(PIN_COLUMNS, rows[0]);
      assert "pin_kind" in PIN_COLUMNS && OLD_PIN_KINDS <= PIN_KINDS;
    }
  }

  lemma PinsMigrate(dialect: Dialect, db: Db)
    requires OriginalPins(dialect, db)
    ensures RunBlock(dialect, Some(db), Pins).Some?
  {
    if PinsNeedMigration(dialect, db) {
      var rows := db[PINS].rows;
      if dialect == Sqlite {
        assert {"id"} <= PIN_COLUMNS && {"user_id", "route"} <= PIN_COLUMNS && NEW_PINS.notNull <= PIN_COLUMNS;
        CopiedPinsUnique(rows, {"id"});
        CopiedPinsUnique(rows, {"user_id", "route"});
        CopiedPinsHold(rows, NEW_PINS.notNull);
        RebuildResult(db, PINS, NEW_PINS, PIN_COLUMNS, NewPin, OldPinKind);
      } else {
        PostgresPinsMigrate(db);
      }
    }
  }

  lemma PostgresPinsMigrate(db: Db)
    requires PinsNeedMigration(Postgres, db) && CheckHolds(db[PINS].rows, Check("pin_kind", PIN_KINDS))
    ensures RunBlock(Postgres, Some(db), Pins).Some?
  {
    var s0, s1 := DropConstraintIfExists(PINS, CK_PINS), AddCheck(PINS, CK_PINS, Check("pin_kind", PIN_KINDS));
    assert PinStatements(Postgres, db) == [s0] + [s1];
    ExecCons(db, s0, [s1]);
    ExecOne(Exec(db, s0).value, s1);
  }

  // ── the whole migration ────────────────────────────────────────────────────

  /** The assignments before the column loop.  With the old constraint, SQLite's copy needs the other
      columns and their constraints; without it, the partial index must exist or have no obstacle. */
  predicate OriginalAssignmentTable(dialect: Dialect, missing: seq<Missing>, db: Db)
  {
    && ASSIGNMENTS in db
    && var t := db[ASSIGNMENTS];
       if AssignmentsNeedMigration(db) then
         dialect == Sqlite ==>
           && ASSIGNMENTS + "_new" !in db && UniqueHolds(t.rows, {"id"})
           && ("portal_node_id" in t.columns || exists k :: 0 <= k < |missing| && missing[k].table == ASSIGNMENTS)
           && NEW_ASSIGNMENTS.notNull <= t.columns && NotNullHolds(t.rows, NEW_ASSIGNMENTS.notNull)
           && CheckHolds(t.rows, Check("resource_type", {"vm", "lxc"}))
       else
         || UQ_NO_NODE in t.partials
         || t.rows == []
         || (OLD_KEY <= t.columns && UniqueHolds(t.rows, OLD_KEY))
         || (OLD_KEY + {"portal_node_id"} <= t.columns && PartialHolds(t.rows, NO_NODE))
  }

  /** A database the migration was written for: all tables there, all constraints holding. */
  ghost predicate OriginalShape(dialect: Dialect, missing: seq<Missing>, db: Db)
  {
    && AllSound(db) && TablesThere(db, missing)
    && OriginalAnnouncements(dialect, db) && OriginalAssignmentTable(dialect, missing, db) && OriginalPins(dialect, db)
  }

  /** The old constraint holds on the rows, also after a column was added. */
  lemma OldKeyHolds(db: Db, d: Db)
    requires AssignmentsNeedMigration(db) && Sound(db[ASSIGNMENTS]) && ASSIGNMENTS in d && Widened(db[ASSIGNMENTS], d[ASSIGNMENTS])
    ensures AssignmentsNeedMigration(d) && UniqueHolds(d[ASSIGNMENTS].rows, OLD_KEY)
  {
    var a, b := db[ASSIGNMENTS], d[ASSIGNMENTS];
    var n :| n in a.uniques && a.uniques[n] == OLD_KEY;
    assert b.uniques[n] == OLD_KEY;
    KeyCarriesOver(a.rows, b.rows, a.columns, OLD_KEY, {});
  }

  lemma WidenedAssignments(dialect: Dialect, missing: seq<Missing>, db: Db, d1: Db, d: Db)
    requires AllFit(missing) && AllSound(db) && OriginalAssignmentTable(dialect, missing, db) && AssignmentsNeedMigration(db)
    requires AddMissing(db, missing) == Some(d1) && ASSIGNMENTS in d && ASSIGNMENTS in d1 && d[ASSIGNMENTS] == d1[ASSIGNMENTS]
    requires ASSIGNMENTS + "_new" in d ==> ASSIGNMENTS + "_new" in db
    ensures OriginalAssignments(dialect, d)
  {
    AddMissingWidens(db, missing, d1);
    var a, b := db[ASSIGNMENTS], d[ASSIGNMENTS];
    assert Widened(a, b);
    OldKeyHolds(db, d);
    if dialect == Sqlite {
      assert "portal_node_id" in b.columns by {
        if k :| 0 <= k < |missing| && missing[k].table == ASSIGNMENTS { assert Fits(missing[k]); }
      }
      assert {"id"} <= a.columns by { assert "id" in NEW_ASSIGNMENTS.notNull; }
      KeyCarriesOver(a.rows, b.rows, a.columns, {"id"}, NEW_ASSIGNMENTS.notNull);
      TypeCheckCarriesOver(a, b);
    }
  }

  lemma TypeCheckCarriesOver(a: Table, b: Table)
    requires Widened(a, b) && "resource_type" in a.columns && CheckHolds(a.rows, Check("resource_type", {"vm", "lxc"}))
    ensures CheckHolds(b.rows, Check("resource_type", {"vm", "lxc"}))
  {
  }

  /** Without the old constraint the index has no obstacle either. */
  lemma IndexHasNoObstacle(missing: seq<Missing>, dialect: Dialect, db: Db, b: Table)
    requires OriginalAssignmentTable(dialect, missing, db) && !AssignmentsNeedMigration(db) && Widened(db[ASSIGNMENTS], b)
    ensures UQ_NO_NODE in b.partials || PartialHolds(b.rows, NO_NODE)
  {
    var a := db[ASSIGNMENTS];
    if UQ_NO_NODE !in a.partials && a.rows != [] {
      if OLD_KEY <= a.columns && UniqueHolds(a.rows, OLD_KEY) {
        KeyCarriesOver(a.rows, b.rows, a.columns, OLD_KEY, {});
        OldUniquenessSuffices(b.rows);
      } else {
        PartialCarriesOver(a.rows, b.rows);
      }
    }
  }

  lemma PartialCarriesOver(a: seq<Row>, b: seq<Row>)
    requires |a| == |b| && PartialHolds(a, NO_NODE)
    requires forall i, c :: 0 <= i < |a| && c in OLD_KEY + {"portal_node_id"} ==> Get(b[i], c) == Get(a[i], c)
    ensures PartialHolds(b, NO_NODE)
  {
    ConstraintsCarryOver(a, b, OLD_KEY + {"portal_node_id"});
    assert NO_NODE.columns == OLD_KEY && NO_NODE.whenNull == "portal_node_id";
  }

  /** With the old constraint. */
  lemma OldAssignmentsMigrate(dialect: Dialect, missing: seq<Missing>, db: Db, d1: Db, d2: Db)
    requires AllFit(missing) && AllSound(db) && OriginalAssignmentTable(dialect, missing, db) && AssignmentsNeedMigration(db)
    requires AddMissing(db, missing) == Some(d1) && SameElsewhere(d1, d2, ANNOUNCEMENTS) && ASSIGNMENTS in d1
    ensures RunBlock(dialect, RunBlock(dialect, Some(d2), Assignments), PartialIndex).Some?
  {
    DistinctTables();
    AddMissingWidens(db, missing, d1);
    WidenedAssignments(dialect, missing, db, d1, d2);
    OriginalAssignmentsMigrate(dialect, d2);
  }

  /** Without it. */
  lemma IndexMigrates(dialect: Dialect, d2: Db)
    requires ASSIGNMENTS in d2 && !AssignmentsNeedMigration(d2)
    requires UQ_NO_NODE in d2[ASSIGNMENTS].partials || PartialHolds(d2[ASSIGNMENTS].rows, NO_NODE)
    ensures RunBlock(dialect, RunBlock(dialect, Some(d2), Assignments), PartialIndex).Some?
  {
    assert RunBlock(dialect, Some(d2), Assignments) == Some(d2);
    ExecOne(d2, PartialIndexStatements()[0]);
  }

  /** The assignments and the partial index after the first two steps. */
  lemma AssignmentsMigrate(dialect: Dialect, missing: seq<Missing>, db: Db, d1: Db, d2: Db)
    requires AllFit(missing) && AllSound(db) && OriginalAssignmentTable(dialect, missing, db)
    requires AddMissing(db, missing) == Some(d1) && SameElsewhere(d1, d2, ANNOUNCEMENTS)
    ensures RunBlock(dialect, RunBlock(dialect, Some(d2), Assignments), PartialIndex).Some?
  {
    DistinctTables();
    AddMissingWidens(db, missing, d1);
    if AssignmentsNeedMigration(db) {
      OldAssignmentsMigrate(dialect, missing, db, d1, d2);
    } else {
      assert d2[ASSIGNMENTS] == d1[ASSIGNMENTS];
      assert Widened(db[ASSIGNMENTS], d2[ASSIGNMENTS]);
      IndexHasNoObstacle(missing, dialect, db, d2[ASSIGNMENTS]);
      IndexMigrates(dialect, d2);
    }
  }

  lemma OriginalAnnouncementsStay(dialect: Dialect, db: Db, d1: Db)
    requires OriginalAnnouncements(dialect, db) && d1.Keys == db.Keys
    requires ANNOUNCEMENTS in db ==> d1[ANNOUNCEMENTS] == db[ANNOUNCEMENTS]
    ensures OriginalAnnouncements(dialect, d1)
  {
    assert ANNOUNCEMENTS + "_new" in d1.Keys <==> ANNOUNCEMENTS + "_new" in db.Keys;
  }

  lemma AnnouncementsMigrate(dialect: Dialect, db: Db)
    requires AllSound(db) && OriginalAnnouncements(dialect, db)
    ensures RunBlock(dialect, Some(db), Announcements).Some?
  {
    if AnnouncementsNeedMigration(db) {
      if dialect == Sqlite { SqliteAnnouncementsMigrate(db); } else { PostgresAnnouncementsMigrate(db); }
    }
  }

  lemma OriginalPinsStay(dialect: Dialect, db: Db, d4: Db)
    requires OriginalPins(dialect, db) && d4.Keys == db.Keys && (PINS in db ==> d4[PINS] == db[PINS])
    ensures OriginalPins(dialect, d4)
  {
    assert PINS + "_new" in d4.Keys <==> PINS + "_new" in db.Keys;
  }

  /** The middle of the migration leaves the pins alone. */
  lemma MiddleLeavesPins(dialect: Dialect, d1: Db, d2: Db, d3: Db, d4: Db)
    requires RunBlock(dialect, Some(d1), Announcements) == Some(d2)
    requires RunBlock(dialect, Some(d2), Assignments) == Some(d3) && RunBlock(dialect, Some(d3), PartialIndex) == Some(d4)
    ensures d4.Keys == d1.Keys && (PINS in d1 ==> d4[PINS] == d1[PINS])
  {
    DistinctTables();
    AnnouncementBlock(dialect, d1, d2);
    AssignmentBlock(dialect, d2, d3);
    PartialIndexBlock(dialect, d3, d4);
  }

  lemma ColumnsMigrate(dialect: Dialect, missing: seq<Missing>, db: Db) returns (d1: Db)
    requires AllFit(missing) && OriginalShape(dialect, missing, db)
    ensures AddMissing(db, missing) == Some(d1) && AllSound(d1)
    ensures OriginalAnnouncements(dialect, d1) && OriginalPins(dialect, d1)
  {
    AddMissingSucceeds(db, missing);
    d1 := AddMissing(db, missing).value;
    AddMissingWidens(db, missing, d1);
    if ANNOUNCEMENTS in db { NotWidened(db, missing, d1, ANNOUNCEMENTS); }
    if PINS in db { NotWidened(db, missing, d1, PINS); }
    OriginalAnnouncementsStay(dialect, db, d1);
    OriginalPinsStay(dialect, db, d1);
  }

  /** On every database of the original shape the migration succeeds, on both dialects. */
  lemma OriginalShapeMigrates(dialect: Dialect, missing: seq<Missing>, db: Db)
    requires AllFit(missing) && OriginalShape(dialect, missing, db)
    ensures Migrate(dialect, missing, db).Some?
  {
    var d1 := ColumnsMigrate(dialect, missing, db);
    AnnouncementsMigrate(dialect, d1);
    var d2 := RunBlock(dialect, Some(d1), Announcements).value;
    AnnouncementBlock(dialect, d1, d2);
    AssignmentsMigrate(dialect, missing, db, d1, d2);
    var d3 := RunBlock(dialect, Some(d2), Assignments).value;
    var d4 := RunBlock(dialect, Some(d3), PartialIndex).value;
    MiddleLeavesPins(dialect, d1, d2, d3, d4);
    OriginalPinsStay(dialect, d1, d4);
    PinsMigrate(dialect, d4);
  }

  /** The portal's upgrade in one sentence: from a sound database of the original and known shape the
      first start-up migrates everything and loses nothing, and the second changes nothing. */
  lemma PortalUpgrade(dialect: Dialect, db: Db)
    requires OriginalShape(dialect, MISSING, db) && KnownShape(dialect, db)
    ensures exists d :: Migrate(dialect, MISSING, db) == Some(d) && Lossless(db, d) && Migrate(dialect, MISSING, d) == Some(d)
  {
    ListFits(MISSING);
    OriginalShapeMigrates(dialect, MISSING, db);
    var d := Migrate(dialect, MISSING, db).value;
    FirstRunLosslessIff(dialect, MISSING, db, d);
    PortalSecondRun(dialect, db, d);
  }

  // ── witnesses ──────────────────────────────────────────────────────────────

  const EMPTY_TABLE := Table({}, [], {}, map[], map[], map[], {})

  function ListedTables(missing: seq<Missing>): set<string> { (set m | m in missing :: m.table) + {ASSIGNMENTS} }

  /** Every listed table, without columns or rows. */
  function EmptyTables(missing: seq<Missing>): Db { map t | t in ListedTables(missing) :: EMPTY_TABLE }

  lemma EmptyTablesAre(missing: seq<Missing>)
    requires AllFit(missing)
    ensures var db := EmptyTables(missing);
            && ANNOUNCEMENTS !in db && PINS !in db && ASSIGNMENTS in db && TablesThere(db, missing)
            && forall t :: t in db ==> db[t] == EMPTY_TABLE
  {
    DistinctTables();
    forall m | m in missing ensures m.table != ANNOUNCEMENTS && m.table != PINS { assert Fits(m); }
    forall k | 0 <= k < |missing| ensures missing[k].table in ListedTables(missing) { assert missing[k] in missing; }
  }

  lemma EmptyTablesHaveShape(dialect: Dialect, missing: seq<Missing>)
    requires AllFit(missing)
    ensures OriginalShape(dialect, missing, EmptyTables(missing)) && KnownShape(dialect, EmptyTables(missing))
  {
    EmptyTablesAre(missing);
    var db := EmptyTables(missing);
    assert Sound(EMPTY_TABLE);
    assert UniqueHolds(EMPTY_TABLE.rows, OLD_KEY) && PartialHolds(EMPTY_TABLE.rows, NO_NODE);
    assert AllSound(db);
  }

  /** The portal's upgrade can be had, on both dialects. */
  lemma SomePortalUpgrades(dialect: Dialect)
    ensures exists db, d :: Migrate(dialect, MISSING, db) == Some(d) && Migrate(dialect, MISSING, d) == Some(d) && db != d
  {
    ListFits(MISSING);
    var db := EmptyTables(MISSING);
    EmptyTablesHaveShape(dialect, MISSING);
    PortalUpgrade(dialect, db);
    var d := Migrate(dialect, MISSING, db).value;
    var s := StagesRun(dialect, MISSING, db, d);
    AssignmentsSettle(dialect, MISSING, s);
    assert UQ_NO_NODE !in db[ASSIGNMENTS].partials;
  }

  /** A pin of a kind the old check does not know. */
  function StrayPin(): Row { map c | c in PIN_COLUMNS :: Str("stray") }

  const STRAY_PINS := Table(PIN_COLUMNS, [StrayPin()], {}, map[], map[], map[], {})

  lemma StrayPinIsNoOldPin()
    ensures Get(StrayPin(), "pin_kind") == Str("stray") && !OldPinKind(StrayPin())
    ensures NotNullHolds([StrayPin()], NEW_PINS.notNull) && Selected([StrayPin()], NewPin, OldPinKind) == []
  {
    assert "pin_kind" in PIN_COLUMNS && NEW_PINS.notNull <= PIN_COLUMNS;
    assert [StrayPin()][1..] == [];
  }

  lemma StrayPinsNeedMigration(db: Db)
    requires PINS in db && db[PINS] == STRAY_PINS && PINS + "_new" !in db
    ensures PinsNeedMigration(Sqlite, db) && OriginalPins(Sqlite, db) && !KnownShape(Sqlite, db)
  {
    StrayPinIsNoOldPin();
    assert "pin_kind" in PIN_COLUMNS;
  }

  lemma StrayPinShape(missing: seq<Missing>, db: Db)
    requires AllFit(missing) && PINS + "_new" !in EmptyTables(missing) && db == EmptyTables(missing)[PINS := STRAY_PINS]
    ensures OriginalShape(Sqlite, missing, db) && !KnownShape(Sqlite, db) && PinsNeedMigration(Sqlite, db)
  {
    EmptyTablesAre(missing);
    DistinctTables();
    assert |PINS + "_new"| > |PINS|;
    StrayPinsNeedMigration(db);
    assert Sound(EMPTY_TABLE) && Sound(STRAY_PINS);
    assert AllSound(db);
  }

  /** SQLite loses a pin of an unknown kind in a migration that succeeds. */
  lemma StrayPinIsLost(missing: seq<Missing>)
    requires AllFit(missing) && forall m :: m in missing ==> m.table != PINS + "_new"
    ensures var db := EmptyTables(missing)[PINS := STRAY_PINS];
            && OriginalShape(Sqlite, missing, db) && !KnownShape(Sqlite, db)
            && exists d: Db :: Migrate(Sqlite, missing, db) == Some(d) && !Lossless(db, d) && PINS in d && d[PINS].rows == []
  {
    var db := EmptyTables(missing)[PINS := STRAY_PINS];
    assert PINS + "_new" != ASSIGNMENTS;
    StrayPinShape(missing, db);
    OriginalShapeMigrates(Sqlite, missing, db);
    var d := Migrate(Sqlite, missing, db).value;
    FirstRunLosslessIff(Sqlite, missing, db, d);
    StrayPinGone(missing, db, d);
  }

  lemma StrayPinGone(missing: seq<Missing>, db: Db, d: Db)
    requires AllFit(missing) && Migrate(Sqlite, missing, db) == Some(d)
    requires PINS in db && db[PINS] == STRAY_PINS && PinsNeedMigration(Sqlite, db)
    ensures PINS in d && d[PINS].rows == []
  {
    var s := StagesRun(Sqlite, missing, db, d);
    DistinctTables();
    NotWidened(db, missing, s.d1, PINS);
    TableHistory(Sqlite, missing, s, PINS);
    SqlitePins(s.d4, d);
    StrayPinIsNoOldPin();
  }
}
