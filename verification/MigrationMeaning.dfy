/** What the migration of `backend/db/database.py` means in the names of the schema: which severity an
    old type becomes, which columns and pins are carried over, and what a migrated schema looks like. */
module MigrationMeaning {
  import opened Text
  import opened Schema
  import opened Migration
  import opened MigrationProofs
  import opened MigrationRun

  // ── announcements ──────────────────────────────────────────────────────────

  /** A successful run turns the type of every announcement into the severity it means, keeps its
      text and dates, and leaves a table that already has severities, or no types, as it is. */
  lemma AnnouncementsAfter(dialect: Dialect, missing: seq<Missing>, db: Db, d: Db, i: nat)
    requires AllFit(missing) && Migrate(dialect, missing, db) == Some(d)
    requires "announcements" in db && i < |db["announcements"].rows|
    ensures "announcements" in d && i < |d["announcements"].rows|
    ensures var columns, was, now := db["announcements"].columns, db["announcements"].rows[i], d["announcements"].rows[i];
            if "type" in columns && "severity" !in columns then
              && "severity" in d["announcements"].columns && "type" !in d["announcements"].columns
              && (Get(was, "type") == Str("error") ==> Get(now, "severity") == Str("critical"))
              && (Get(was, "type") == Str("warn") ==> Get(now, "severity") == Str("warn"))
              && (Get(was, "type") == Str("info") ==> Get(now, "severity") == Str("info"))
              && (Get(was, "type") == Null ==> Get(now, "severity") == Str("info"))
              && (Get(was, "type") !in {Str("error"), Str("warn")} ==> Get(now, "severity") == Str("info"))
            else d["announcements"] == db["announcements"]
  {
    var s := StagesRun(dialect, missing, db, d);
    DistinctTables();
    NotWidened(db, missing, s.d1, ANNOUNCEMENTS);
    TableHistory(dialect, missing, s, ANNOUNCEMENTS);
    if AnnouncementsNeedMigration(s.d1) {
      AnnouncementBlockKeeps(dialect, s.d1, s.d2);
    } else {
      AnnouncementBlock(dialect, s.d1, s.d2);
    }
  }

  /** Whatever a run came to: once the type column is gone, every announcement has the severity its
      type meant. */
  lemma SeverityAfterAnyRun(dialect: Dialect, missing: seq<FittingColumn>, db: Db, i: nat)
    requires "announcements" in db && i < |db["announcements"].rows| && "type" in db["announcements"].columns
    ensures var d := MigrateSession(dialect, missing, db).session.db;
            && "announcements" in d && i < |d["announcements"].rows|
            && ("type" !in d["announcements"].columns ==>
                  Means(Get(db["announcements"].rows[i], "type"), Get(d["announcements"].rows[i], "severity")))
  {
    RunIsSafe(dialect, missing, db);
    var d := MigrateSession(dialect, missing, db).session.db;
    assert Preserved(ANNOUNCEMENTS, db[ANNOUNCEMENTS], d[ANNOUNCEMENTS]);
    SeverityMeans(Get(db[ANNOUNCEMENTS].rows[i], "type"));
  }

  /** Whatever a run came to, the announcements keep what they said. */
  lemma AnnouncementTextAfterAnyRun(dialect: Dialect, missing: seq<FittingColumn>, db: Db, i: nat, c: string)
    requires "announcements" in db && i < |db["announcements"].rows| && c in db["announcements"].columns
    requires c in {"id", "message", "active", "expires_at", "created_by", "created_at", "updated_at"}
    ensures var d := MigrateSession(dialect, missing, db).session.db;
            && "announcements" in d && i < |d["announcements"].rows|
            && Get(d["announcements"].rows[i], c) == Get(db["announcements"].rows[i], c)
  {
    RunIsSafe(dialect, missing, db);
    var d := MigrateSession(dialect, missing, db).session.db;
    assert Preserved(ANNOUNCEMENTS, db[ANNOUNCEMENTS], d[ANNOUNCEMENTS]);
    assert c in CopiedColumns(ANNOUNCEMENTS, db[ANNOUNCEMENTS].columns);
  }

  // ── assignments ────────────────────────────────────────────────────────────

  /** Whatever a run came to, the assignments keep what they said. */
  lemma AssignmentsAfterAnyRun(dialect: Dialect, missing: seq<FittingColumn>, db: Db, i: nat, c: string)
    requires "resource_assignments" in db && i < |db["resource_assignments"].rows| && c in db["resource_assignments"].columns
    requires c in {"id", "user_id", "resource_type", "resource_id", "portal_node_id", "preset_id", "created_at", "created_by"}
    ensures var d := MigrateSession(dialect, missing, db).session.db;
            && "resource_assignments" in d && i < |d["resource_assignments"].rows|
            && Get(d["resource_assignments"].rows[i], c) == Get(db["resource_assignments"].rows[i], c)
  {
    RunIsSafe(dialect, missing, db);
    DistinctTables();
    var d := MigrateSession(dialect, missing, db).session.db;
    assert Preserved(ASSIGNMENTS, db[ASSIGNMENTS], d[ASSIGNMENTS]);
    assert c in CopiedColumns(ASSIGNMENTS, db[ASSIGNMENTS].columns);
  }

  predicate HasUnique(t: Table, columns: set<string>) { exists n :: n in t.uniques && t.uniques[n] == columns }

  /** After a success: where the old constraint was, the one with the node is; without it nothing was
      replaced; and the rows without a node are unique under an index of their own. */
  lemma AssignmentsAfter(dialect: Dialect, missing: seq<Missing>, db: Db, d: Db)
    requires AllFit(missing) && Migrate(dialect, missing, db) == Some(d)
    ensures "resource_assignments" in db && "resource_assignments" in d
    ensures var was, now := db["resource_assignments"], d["resource_assignments"];
            var old_, new_ := {"user_id", "resource_type", "resource_id"}, {"user_id", "resource_type", "portal_node_id", "resource_id"};
            && (HasUnique(was, old_) ==> HasUnique(now, new_) && (dialect == Sqlite ==> !HasUnique(now, old_)))
            && (!HasUnique(was, old_) ==> now.uniques == was.uniques && now.checks == was.checks && |now.rows| == |was.rows|)
            && "uq_resource_assignments_no_node" in now.partials
            && ("uq_resource_assignments_no_node" !in was.partials ==>
                  now.partials["uq_resource_assignments_no_node"] == Partial(old_, "portal_node_id"))
  {
    var s := StagesRun(dialect, missing, db, d);
    TablesStay(dialect, missing, s);
    DistinctTables();
    TableHistory(dialect, missing, s, ASSIGNMENTS);
    AddMissingWidens(db, missing, s.d1);
    assert Widened(db[ASSIGNMENTS], s.d1[ASSIGNMENTS]);
    AssignmentConstraints(dialect, s.d2, s.d3);
    PartialIndexBlock(dialect, s.d3, s.d4);
  }

  lemma AssignmentConstraints(dialect: Dialect, db: Db, d: Db)
    requires ASSIGNMENTS in db && RunBlock(dialect, Some(db), Assignments) == Some(d)
    ensures ASSIGNMENTS in d
    ensures HasUnique(db[ASSIGNMENTS], OLD_KEY) ==>
              HasUnique(d[ASSIGNMENTS], NEW_KEY) && (dialect == Sqlite ==> !HasUnique(d[ASSIGNMENTS], OLD_KEY))
    ensures d[ASSIGNMENTS].partials == if HasUnique(db[ASSIGNMENTS], OLD_KEY) && dialect == Sqlite then map[] else db[ASSIGNMENTS].partials
    ensures !HasUnique(db[ASSIGNMENTS], OLD_KEY) ==> d == db
  {
    if AssignmentsNeedMigration(db) {
      if dialect == Sqlite {
        SqliteAssignments(db, d);
        assert d[ASSIGNMENTS].uniques[UQ_ASSIGNMENTS] == NEW_KEY;
        AssignmentBlock(dialect, db, d);
      } else {
        PostgresAssignments(db, d);
        assert d[ASSIGNMENTS].uniques[UQ_ASSIGNMENTS] == NEW_KEY;
      }
    }
  }

  // ── pins ───────────────────────────────────────────────────────────────────

  predicate KnownKind(kind: Value)
  {
    kind in {Str("system_settings_tab"), Str("system_settings_sub_tab"), Str("vm"), Str("lxc"), Str("node"), Str("pool"),
             Str("group"), Str("other")}
  }

  lemma KnownKindIsOld(r: Row)
    ensures OldPinKind(r) <==> KnownKind(Get(r, "pin_kind"))
  {
  }

  /** The columns of a copied pin, one by one. */
  lemma CopiedPin(r: Row)
    ensures Get(NewPin(r), "id") == Get(r, "id") && Get(NewPin(r), "user_id") == Get(r, "user_id")
    ensures Get(NewPin(r), "route") == Get(r, "route") && Get(NewPin(r), "label") == Get(r, "label")
    ensures Get(NewPin(r), "position") == Get(r, "position") && Get(NewPin(r), "pin_kind") == Get(r, "pin_kind")
    ensures Get(NewPin(r), "resource_ref") == Get(r, "resource_ref") && Get(NewPin(r), "created_at") == Get(r, "created_at")
  {
    ProjectRow(PIN_COLUMNS, r);
    assert {"id", "user_id", "route", "label", "position", "pin_kind", "resource_ref", "created_at"} <= PIN_COLUMNS;
  }

  lemma {:induction false} SelectedFrom(rows: seq<Row>, p: Row)
    requires p in Selected(rows, NewPin, OldPinKind)
    ensures exists i :: 0 <= i < |rows| && OldPinKind(rows[i]) && p == NewPin(rows[i])
  {
    if OldPinKind(rows[0]) && p == NewPin(rows[0]) {
    } else {
      assert p in Selected(rows[1..], NewPin, OldPinKind);
      SelectedFrom(rows[1..], p);
      var i :| 0 <= i < |rows| - 1 && OldPinKind(rows[1..][i]) && p == NewPin(rows[1..][i]);
      assert rows[i + 1] == rows[1..][i];
    }
  }

  /** Whatever a run came to, every pin of one of the eight old kinds is still there, with all eight
      columns as they were. */
  lemma PinsAfterAnyRun(dialect: Dialect, missing: seq<FittingColumn>, db: Db, i: nat)
    requires "user_sidebar_pins" in db && i < |db["user_sidebar_pins"].rows|
    requires KnownKind(Get(db["user_sidebar_pins"].rows[i], "pin_kind"))
    ensures var d := MigrateSession(dialect, missing, db).session.db;
            && "user_sidebar_pins" in d
            && exists p :: (p in d["user_sidebar_pins"].rows && NewPin(p) == NewPin(db["user_sidebar_pins"].rows[i]))
  {
    RunIsSafe(dialect, missing, db);
    DistinctTables();
    var d := MigrateSession(dialect, missing, db).session.db;
    assert Preserved(PINS, db[PINS], d[PINS]);
    KnownKindIsOld(db[PINS].rows[i]);
    SelectedKeeps(db[PINS].rows, NewPin, OldPinKind, i);
    SelectedFrom(d[PINS].rows, NewPin(db[PINS].rows[i]));
  }

  /** After a success a table of pins allows the kind "node_tab" beside the old ones, if it did not
      before. */
  lemma PinsAfter(dialect: Dialect, missing: seq<Missing>, db: Db, d: Db)
    requires AllFit(missing) && Migrate(dialect, missing, db) == Some(d) && "user_sidebar_pins" in db
    ensures "user_sidebar_pins" in d
    ensures var was, now := db["user_sidebar_pins"], d["user_sidebar_pins"];
            && (now == was || (CK_PINS in now.checks && now.checks[CK_PINS].column == "pin_kind"
                               && forall k :: k in now.checks[CK_PINS].allowed <==> k == "node_tab" || KnownKind(Str(k))))
            && ("pin_kind" !in was.columns ==> now == was)
            && ((exists n :: n in was.checks && "node_tab" in was.checks[n].allowed) && dialect == Sqlite ==> now == was)
            && ("pin_kind" in now.columns ==> exists n :: n in now.checks && "node_tab" in now.checks[n].allowed)
  {
    var s := StagesRun(dialect, missing, db, d);
    DistinctTables();
    NotWidened(db, missing, s.d1, PINS);
    TableHistory(dialect, missing, s, PINS);
    AllowedKinds();
    PinBlock(dialect, s.d4, d);
    if PinsNeedMigration(dialect, s.d4) {
      if dialect == Sqlite { SqlitePins(s.d4, d); } else { PostgresPins(s.d4, d); }
    }
  }

  lemma AllowedKinds()
    ensures forall k :: k in PIN_KINDS <==> k == "node_tab" || KnownKind(Str(k))
  {
  }

  /** The new tables, in words: what may be NULL and what is unique. */
  lemma NewSchemas()
    ensures NEW_ANNOUNCEMENTS.columns - NEW_ANNOUNCEMENTS.notNull == {"expires_at"}
    ensures NEW_ASSIGNMENTS.columns - NEW_ASSIGNMENTS.notNull == {"portal_node_id"}
    ensures NEW_PINS.columns - NEW_PINS.notNull == {"label", "resource_ref"}
    ensures SEVERITIES == {"info", "warn", "critical", "success"}
    ensures forall n :: n in NEW_PINS.uniques ==> NEW_PINS.uniques[n] in {{"id"}, {"user_id", "route"}}
    ensures HasUnique(NEW_PINS, {"user_id", "route"}) && HasUnique(NEW_PINS, {"id"}) && HasUnique(NEW_ANNOUNCEMENTS, {"id"})
    ensures HasUnique(NEW_ASSIGNMENTS, {"id"})
  {
    assert "UNIQUE (user_id, route)" in NEW_PINS.uniques && "PRIMARY KEY" in NEW_PINS.uniques;
    assert "PRIMARY KEY" in NEW_ANNOUNCEMENTS.uniques && "PRIMARY KEY" in NEW_ASSIGNMENTS.uniques;
  }
}
