/** `_migrate_db` of `backend/db/database.py` as it runs on a connection: every block is a try block
    whose failure is swallowed, and a failed statement poisons a PostgreSQL transaction.  Whatever
    fails, no row is lost. */
module MigrationRun {
  import opened Text
  import opened Schema
  import opened Migration
  import opened MigrationProofs

  // ── what a run does, as a value ────────────────────────────────────────────

  /** The database inside the transaction, and whether PostgreSQL refuses everything that follows. */
  datatype Session = Session(db: Db, poisoned: bool)

  datatype Attempt = Attempt(session: Session, ok: bool)

  /** Statements up to the first failing one. */
  function Try(dialect: Dialect, s: Session, statements: seq<Statement>): Attempt
    decreases |statements|
  {
    if |statements| == 0 then Attempt(s, true)
    else
      var r := Exec(s.db, statements[0]);
      if s.poisoned || r.None? then Attempt(Session(s.db, s.poisoned || dialect == Postgres), false)
      else Try(dialect, Session(r.value, false), statements[1..])
  }

  function TryBlock(dialect: Dialect, s: Session, b: Block): Attempt { Try(dialect, s, BlockStatements(dialect, s.db, b)) }

  /** The column loop, outside any try block: the first failure raises. */
  function TryMissing(dialect: Dialect, s: Session, missing: seq<Missing>): Attempt
    decreases |missing|
  {
    if |missing| == 0 then Attempt(s, true)
    else
      var m := missing[0];
      var first := if HasColumn(s.db, m.table, m.column) then Attempt(s, true)
                   else Try(dialect, s, [AddColumn(m.table, m.column, m.default, m.isNotNull)]);
      if first.ok then TryMissing(dialect, first.session, missing[1..]) else first
  }

  datatype Result = Done | Swallowed | Raised

  datatype Outcome = Outcome(session: Session, result: Result)

  function MigrateSession(dialect: Dialect, missing: seq<Missing>, db: Db): Outcome
  {
    var added := TryMissing(dialect, Session(db, false), missing);
    if !added.ok then Outcome(added.session, Raised)
    else
      var a := TryBlock(dialect, added.session, Announcements);
      var b := TryBlock(dialect, a.session, Assignments);
      var c := TryBlock(dialect, b.session, PartialIndex);
      var d := TryBlock(dialect, c.session, Pins);
      Outcome(d.session, if a.ok && b.ok && c.ok && d.ok then Done else Swallowed)
  }

  // ── a run in which nothing fails ───────────────────────────────────────────

  lemma {:induction false} TryIsExecAll(dialect: Dialect, db: Db, ss: seq<Statement>)
    ensures Try(dialect, Session(db, false), ss).ok <==> ExecAll(db, ss).Some?
    ensures Try(dialect, Session(db, false), ss).ok ==>
              Try(dialect, Session(db, false), ss).session == Session(ExecAll(db, ss).value, false)
    decreases |ss|
  {
    if |ss| > 0 && Exec(db, ss[0]).Some? { TryIsExecAll(dialect, Exec(db, ss[0]).value, ss[1..]); }
  }

  lemma {:induction false} TryMissingIsAddMissing(dialect: Dialect, db: Db, missing: seq<Missing>)
    ensures TryMissing(dialect, Session(db, false), missing).ok <==> AddMissing(db, missing).Some?
    ensures TryMissing(dialect, Session(db, false), missing).ok ==>
              TryMissing(dialect, Session(db, false), missing).session == Session(AddMissing(db, missing).value, false)
    decreases |missing|
  {
    if |missing| > 0 {
      var m := missing[0];
      if HasColumn(db, m.table, m.column) {
        TryMissingIsAddMissing(dialect, db, missing[1..]);
      } else {
        var s := AddColumn(m.table, m.column, m.default, m.isNotNull);
        TryIsExecAll(dialect, db, [s]);
        ExecOne(db, s);
        if Exec(db, s).Some? { TryMissingIsAddMissing(dialect, Exec(db, s).value, missing[1..]); }
      }
    }
  }

  /** A run is done exactly when every statement succeeds, and raises exactly when a column cannot
      be added. */
  lemma DoneIsMigrate(dialect: Dialect, missing: seq<Missing>, db: Db)
    ensures var o := MigrateSession(dialect, missing, db);
            && (o.result == Raised <==> AddMissing(db, missing).None?)
            && (o.result == Done <==> Migrate(dialect, missing, db).Some?)
            && (o.result == Done ==> o.session == Session(Migrate(dialect, missing, db).value, false))
  {
    TryMissingIsAddMissing(dialect, db, missing);
    if AddMissing(db, missing).Some? {
      var d1 := AddMissing(db, missing).value;
      TryIsExecAll(dialect, d1, BlockStatements(dialect, d1, Announcements));
      var d2 := RunBlock(dialect, Some(d1), Announcements);
      if d2.Some? {
        TryIsExecAll(dialect, d2.value, BlockStatements(dialect, d2.value, Assignments));
        var d3 := RunBlock(dialect, d2, Assignments);
        if d3.Some? {
          TryIsExecAll(dialect, d3.value, BlockStatements(dialect, d3.value, PartialIndex));
          var d4 := RunBlock(dialect, d3, PartialIndex);
          if d4.Some? { TryIsExecAll(dialect, d4.value, BlockStatements(dialect, d4.value, Pins)); }
        }
      }
    }
  }

  // ── what no run loses ──────────────────────────────────────────────────────

  /** The severity an announcement has, or the one its type maps to. */
  function SeverityIn(t: Table, r: Row): Value
  {
    if "type" in t.columns then SeverityOf(Get(r, "type")) else Get(r, "severity")
  }

  ghost predicate SameSeverities(a: Table, b: Table)
  {
    |b.rows| == |a.rows| && forall i :: 0 <= i < |a.rows| ==> SeverityIn(b, b.rows[i]) == SeverityIn(a, a.rows[i])
  }

  /** The pins of the old kinds, in order, by their known columns. */
  function OldPins(t: Table): seq<Row> { Selected(t.rows, NewPin, OldPinKind) }

  /** The columns of a table that every run keeps: where SQLite copies, the known ones. */
  function CopiedColumns(t: string, columns: set<string>): set<string>
  {
    if t == ANNOUNCEMENTS then columns * SHARED_ANNOUNCEMENT_COLUMNS
    else if t == ASSIGNMENTS then columns * ASSIGNMENT_COLUMNS
    else columns
  }

  /** Table `t` still has its rows: of the pins those of the old kinds, of all others every row with
      its values in the columns above, the announcements with their severities. */
  ghost predicate Preserved(t: string, a: Table, b: Table)
  {
    if t == PINS then OldPins(b) == OldPins(a)
    else KeepsValues(a, b, CopiedColumns(t, a.columns)) && (t == ANNOUNCEMENTS ==> SameSeverities(a, b))
  }

  ghost predicate Safe(a: Db, b: Db) { forall t :: t in a ==> t in b && Preserved(t, a[t], b[t]) }

  lemma PreservedTransitive(t: string, a: Table, b: Table, c: Table)
    requires Preserved(t, a, b) && Preserved(t, b, c)
    ensures Preserved(t, a, c)
  {
    if t != PINS { assert CopiedColumns(t, a.columns) <= CopiedColumns(t, b.columns); }
  }

  lemma SafeTransitive(a: Db, b: Db, c: Db)
    requires Safe(a, b) && Safe(b, c)
    ensures Safe(a, c)
  {
    forall t | t in a ensures t in c && Preserved(t, a[t], c[t]) {
      PreservedTransitive(t, a[t], b[t], c[t]);
    }
  }

  lemma SafeBut(a: Db, b: Db, name: string)
    requires SameElsewhere(a, b, name) && (name in a ==> Preserved(name, a[name], b[name]))
    ensures Safe(a, b)
  {
  }

  lemma SafeWithNewTable(a: Db, name: string, t: Table)
    requires name !in a
    ensures Safe(a, a[name := t])
  {
  }

  /** What a run owes its database: nothing lost whatever the result, done exactly when every
      statement succeeds and then as specified, raised exactly when a column cannot be added. */
  ghost predicate Promises(dialect: Dialect, missing: seq<Missing>, db: Db, o: Outcome)
  {
    && Safe(db, o.session.db)
    && (o.result == Done <==> Migrate(dialect, missing, db).Some?)
    && (o.result == Done ==> o.session == Session(Migrate(dialect, missing, db).value, false))
    && (o.result == Raised <==> AddMissing(db, missing).None?)
  }

  // ── where a list of statements stops ───────────────────────────────────────

  /** The database after the first `k` statements, the first of which that fails is the next. */
  predicate Stops(db: Db, ss: seq<Statement>, k: nat, e: Db)
  {
    k < |ss| && ExecAll(db, ss[..k]) == Some(e) && Exec(e, ss[k]).None?
  }

  lemma {:induction false} FirstFailure(dialect: Dialect, s: Session, ss: seq<Statement>) returns (k: nat)
    requires !s.poisoned && !Try(dialect, s, ss).ok
    ensures Stops(s.db, ss, k, Try(dialect, s, ss).session.db)
    decreases |ss|
  {
    if Exec(s.db, ss[0]).None? {
      k := 0;
    } else {
      var next := Exec(s.db, ss[0]).value;
      var j := FirstFailure(dialect, Session(next, false), ss[1..]);
      k := j + 1;
      assert ss[..k] == [ss[0]] + ss[1..][..j];
      ExecCons(s.db, ss[0], ss[1..][..j]);
    }
  }

  lemma TryStops(dialect: Dialect, s: Session, ss: seq<Statement>)
    ensures var r := Try(dialect, s, ss);
            if r.ok then ExecAll(s.db, ss) == Some(r.session.db)
            else r.session.db == s.db || exists k :: Stops(s.db, ss, k, r.session.db)
  {
    if !s.poisoned {
      TryIsExecAll(dialect, s.db, ss);
      if !Try(dialect, s, ss).ok { var _ := FirstFailure(dialect, s, ss); }
    }
  }

  lemma Prefixes(db: Db, ss: seq<Statement>, k: nat, e: Db)
    requires 0 < k <= |ss| && ExecAll(db, ss[..k]) == Some(e)
    ensures ExecAll(db, ss[..k - 1]).Some? && Exec(ExecAll(db, ss[..k - 1]).value, ss[k - 1]) == Some(e)
  {
    assert ss[..k] == ss[..k - 1] + [ss[k - 1]];
    ExecAllConcat(db, ss[..k - 1], [ss[k - 1]]);
    if ExecAll(db, ss[..k - 1]).Some? { ExecOne(ExecAll(db, ss[..k - 1]).value, ss[k - 1]); }
  }

  lemma TwoStatements(db: Db, ss: seq<Statement>, e: Db)
    requires |ss| >= 2 && ss[0].CreateTable? && ss[1].InsertSelect? && ss[1].table == ss[0].table
    requires ExecAll(db, ss[..2]) == Some(e)
    ensures ss[0].table !in db && e.Keys == db.Keys + {ss[0].table}
  {
    Prefixes(db, ss, 2, e);
    var e1 := ExecAll(db, ss[..1]).value;
    Prefixes(db, ss, 1, e1);
    NothingYet(db, ss);
    CreateThenInsert(db, ss[0], ss[1], e1, e);
  }

  lemma NothingYet(db: Db, ss: seq<Statement>)
    ensures ExecAll(db, ss[..0]) == Some(db)
  {
  }

  lemma CreateThenInsert(db: Db, create: Statement, insert: Statement, e1: Db, e: Db)
    requires create.CreateTable? && insert.InsertSelect?
    requires Exec(db, create) == Some(e1) && Exec(e1, insert) == Some(e)
    ensures create.table !in db && e.Keys == db.Keys + {create.table}
  {
    NamesAreExclusive(db, create);
    InsertKeepsNames(e1, insert, e);
  }

  lemma InsertKeepsNames(db: Db, s: Statement, e: Db)
    requires s.InsertSelect? && Exec(db, s) == Some(e)
    ensures e.Keys == db.Keys
  {
  }

  lemma RebuildKeepsNames(db: Db, ss: seq<Statement>, name: string, k: nat, e: Db)
    requires |ss| >= 4 && 2 <= k <= 3 && ExecAll(db, ss[..k]) == Some(e) && name in db
    requires ss[0].CreateTable? && ss[1].InsertSelect? && ss[1].table == ss[0].table && ss[2] == DropTable(name)
    ensures ss[0].table in e && (k == 2 ==> name in e) && (k == 3 ==> name !in e)
  {
    if k == 3 {
      Prefixes(db, ss, 3, e);
      TwoStatements(db, ss, ExecAll(db, ss[..2]).value);
    } else {
      TwoStatements(db, ss, e);
    }
  }

  /** After the rename only indexes are created, and that cannot fail. */
  lemma RebuiltTableStays(db: Db, name: string, blank: Table, needed: set<string>, project: Row -> Row, keep: Row -> bool,
                          indexes: seq<Statement>, e: Db)
    requires name in db && blank.rows == []
    requires forall i :: 0 <= i < |indexes| ==> indexes[i].CreateIndexIfNotExists? && indexes[i].table == name
    requires ExecAll(db, RebuildStatements(name, blank, needed, project, keep) + indexes) == Some(e)
    ensures name in e
  {
    var rebuild := RebuildStatements(name, blank, needed, project, keep);
    ExecAllConcat(db, rebuild, indexes);
    RebuildResult(db, name, blank, needed, project, keep);
    OnlyIndexes(ExecAll(db, rebuild).value, name, indexes, e);
  }

  /** A rebuild can fail only before the old table is dropped: at its CREATE, or at its INSERT, when
      the empty new table stays behind. */
  lemma RebuildStops(db: Db, name: string, blank: Table, needed: set<string>, project: Row -> Row, keep: Row -> bool,
                     indexes: seq<Statement>, k: nat, e: Db)
    requires name in db && blank.rows == []
    requires forall i :: 0 <= i < |indexes| ==> indexes[i].CreateIndexIfNotExists? && indexes[i].table == name
    requires Stops(db, RebuildStatements(name, blank, needed, project, keep) + indexes, k, e)
    ensures e == if name + "_new" in db then db else db[name + "_new" := blank]
  {
    var rebuild := RebuildStatements(name, blank, needed, project, keep);
    var ss := rebuild + indexes;
    if k == 1 {
      Prefixes(db, ss, 1, e);
    } else if 2 <= k <= 3 {
      RebuildKeepsNames(db, ss, name, k, e);
    } else if k >= 4 {
      assert ss[..k] == rebuild + indexes[..k - 4];
      RebuiltTableStays(db, name, blank, needed, project, keep, indexes[..k - 4], e);
    }
  }

  /** The table a block rebuilds on SQLite, and the empty table it creates first. */
  function RebuiltTable(b: Block): string
  {
    match b
    case Announcements => ANNOUNCEMENTS
    case Assignments => ASSIGNMENTS
    case PartialIndex => ASSIGNMENTS
    case Pins => PINS
  }

  function NewName(b: Block): string { RebuiltTable(b) + "_new" }

  function BlankTable(b: Block): Table
  {
    match b
    case Announcements => NEW_ANNOUNCEMENTS
    case Assignments => NEW_ASSIGNMENTS
    case PartialIndex => NEW_ASSIGNMENTS
    case Pins => NEW_PINS
  }

  /** A table of the new name was in the way, or the empty new table stayed behind. */
  predicate LeftBehind(b: Block, db: Db, e: Db)
  {
    if b == PartialIndex || NewName(b) in db then e == db else e == db[NewName(b) := BlankTable(b)]
  }

  lemma SqliteBlockStops(db: Db, b: Block, k: nat, e: Db)
    requires Stops(db, BlockStatements(Sqlite, db, b), k, e)
    ensures LeftBehind(b, db, e)
  {
    match b {
      case Announcements =>
        RebuildStops(db, ANNOUNCEMENTS, NEW_ANNOUNCEMENTS, SHARED_ANNOUNCEMENT_COLUMNS + {"type"}, NewAnnouncement, KeepAll,
                     [CreateIndexIfNotExists(ANNOUNCEMENTS, "idx_announcements_active")], k, e);
      case Assignments =>
        RebuildStops(db, ASSIGNMENTS, NEW_ASSIGNMENTS, ASSIGNMENT_COLUMNS, NewAssignment, KeepAll,
                     [ CreateIndexIfNotExists(ASSIGNMENTS, "idx_resource_assignments_user_id"),
                       CreateIndexIfNotExists(ASSIGNMENTS, "idx_resource_assignments_preset_id") ], k, e);
      case PartialIndex =>
      case Pins =>
        assert BlockStatements(Sqlite, db, b) + [] == BlockStatements(Sqlite, db, b);
        RebuildStops(db, PINS, NEW_PINS, PIN_COLUMNS, NewPin, OldPinKind, [], k, e);
    }
  }

  // ── every block is safe, wherever it stops ─────────────────────────────────

  lemma UpdateSeveritySafe(db: Db, d: Db)
    requires HasColumn(db, ANNOUNCEMENTS, "type") && Exec(db, UpdateColumn(ANNOUNCEMENTS, "severity", TypeToSeverity)) == Some(d)
    ensures Safe(db, d)
  {
    assert "severity" !in SHARED_ANNOUNCEMENT_COLUMNS;
    SafeBut(db, d, ANNOUNCEMENTS);
  }

  lemma IndexAfterDrop(db: Db, ss: seq<Statement>, e: Db)
    requires |ss| >= 3 && ss[2] == DropColumn(ANNOUNCEMENTS, "type") && ExecAll(db, ss[..3]) == Some(e)
    ensures ANNOUNCEMENTS in e
  {
    Prefixes(db, ss, 3, e);
  }

  lemma AddSafe(db: Db, ss: seq<Statement>, e: Db)
    requires AnnouncementsNeedMigration(db) && |ss| >= 1 && ss[0] == AddColumn(ANNOUNCEMENTS, "severity", Str("info"), true)
    requires ExecAll(db, ss[..1]) == Some(e)
    ensures Safe(db, e)
  {
    Prefixes(db, ss, 1, e);
  }

  lemma AddThenUpdateSafe(db: Db, ss: seq<Statement>, e: Db)
    requires AnnouncementsNeedMigration(db) && |ss| >= 2 && ss[0] == AddColumn(ANNOUNCEMENTS, "severity", Str("info"), true)
    requires ss[1] == UpdateColumn(ANNOUNCEMENTS, "severity", TypeToSeverity) && ExecAll(db, ss[..2]) == Some(e)
    ensures Safe(db, e)
  {
    Prefixes(db, ss, 2, e);
    var e1 := ExecAll(db, ss[..1]).value;
    Prefixes(db, ss, 1, e1);
    UpdateSeveritySafe(e1, e);
    SafeTransitive(db, e1, e);
  }

  /** The four statements of the PostgreSQL branch. */
  ghost predicate AltersAnnouncements(ss: seq<Statement>)
  {
    && |ss| == 4 && ss[0] == AddColumn(ANNOUNCEMENTS, "severity", Str("info"), true)
    && ss[1] == UpdateColumn(ANNOUNCEMENTS, "severity", TypeToSeverity)
    && ss[2] == DropColumn(ANNOUNCEMENTS, "type")
    && ss[3] == CreateIndexIfNotExists(ANNOUNCEMENTS, "idx_announcements_active")
  }

  lemma AlterationStopsSafely(db: Db, ss: seq<Statement>, k: nat, e: Db)
    requires AnnouncementsNeedMigration(db) && AltersAnnouncements(ss) && Stops(db, ss, k, e)
    ensures Safe(db, e)
  {
    if k == 1 {
      AddSafe(db, ss, e);
    } else if k == 2 {
      AddThenUpdateSafe(db, ss, e);
    } else if k == 3 {
      IndexAfterDrop(db, ss, e);
    }
  }

  lemma DropConstraintSafe(db: Db, table: string, name: string, d: Db)
    requires Exec(db, DropConstraintIfExists(table, name)) == Some(d)
    ensures Safe(db, d)
  {
    SafeBut(db, d, table);
  }

  lemma PostgresBlockStopsSafely(db: Db, b: Block, k: nat, e: Db)
    requires Stops(db, BlockStatements(Postgres, db, b), k, e)
    ensures Safe(db, e)
  {
    var ss := BlockStatements(Postgres, db, b);
    if b == Announcements {
      assert AltersAnnouncements(ss);
      AlterationStopsSafely(db, ss, k, e);
    } else if k == 1 {
      Prefixes(db, ss, 1, e);
      DropConstraintSafe(db, RebuiltTable(b), ss[0].name, e);
    }
  }

  lemma BlockStopsSafely(dialect: Dialect, db: Db, b: Block, k: nat, e: Db)
    requires Stops(db, BlockStatements(dialect, db, b), k, e)
    ensures Safe(db, e)
  {
    if dialect == Postgres {
      PostgresBlockStopsSafely(db, b, k, e);
    } else {
      SqliteBlockStops(db, b, k, e);
      if e != db { SafeWithNewTable(db, NewName(b), BlankTable(b)); } else { SafeBut(db, db, RebuiltTable(b)); }
    }
  }

  lemma AnnouncementsDoneSafely(dialect: Dialect, db: Db, d: Db)
    requires RunBlock(dialect, Some(db), Announcements) == Some(d)
    ensures Safe(db, d)
  {
    AnnouncementBlock(dialect, db, d);
    if AnnouncementsNeedMigration(db) {
      AnnouncementBlockKeeps(dialect, db, d);
      ReplacedSeverities(db[ANNOUNCEMENTS], d[ANNOUNCEMENTS]);
      ReplacedIsPreserved(dialect, db[ANNOUNCEMENTS], d[ANNOUNCEMENTS]);
      SafeBut(db, d, ANNOUNCEMENTS);
    }
  }

  lemma ReplacedSeverities(was: Table, now: Table)
    requires SeverityReplacesType(was, now) && "type" in was.columns
    ensures SameSeverities(was, now)
  {
    forall i | 0 <= i < |was.rows| ensures SeverityIn(now, now.rows[i]) == SeverityIn(was, was.rows[i]) {
      MeaningIsUnique(Get(was.rows[i], "type"), Get(now.rows[i], "severity"));
    }
  }

  lemma ReplacedIsPreserved(dialect: Dialect, was: Table, now: Table)
    requires SameSeverities(was, now)
    requires KeepsValues(was, now, if dialect == Sqlite then SHARED_ANNOUNCEMENT_COLUMNS else was.columns - {"type"})
    ensures Preserved(ANNOUNCEMENTS, was, now)
  {
    assert "type" !in SHARED_ANNOUNCEMENT_COLUMNS;
    DistinctTables();
  }

  lemma AssignmentsDoneSafely(dialect: Dialect, db: Db, d: Db)
    requires RunBlock(dialect, Some(db), Assignments) == Some(d)
    ensures Safe(db, d)
  {
    DistinctTables();
    AssignmentBlock(dialect, db, d);
    SafeBut(db, d, ASSIGNMENTS);
  }

  /** A copied pin is copied unchanged. */
  lemma PinCopiedTwice(r: Row)
    ensures NewPin(NewPin(r)) == NewPin(r) && OldPinKind(NewPin(r)) == OldPinKind(r)
  {
    ProjectRow(PIN_COLUMNS, r);
    ProjectRow(PIN_COLUMNS, NewPin(r));
    assert "pin_kind" in PIN_COLUMNS;
  }

  lemma {:induction false} PinsCopiedTwice(rows: seq<Row>)
    ensures var copy := Selected(rows, NewPin, OldPinKind); Selected(copy, NewPin, OldPinKind) == copy
  {
    if rows != [] {
      PinCopiedTwice(rows[0]);
      PinsCopiedTwice(rows[1..]);
      if OldPinKind(rows[0]) {
        var copy := Selected(rows, NewPin, OldPinKind);
        assert copy[1..] == Selected(rows[1..], NewPin, OldPinKind);
      }
    }
  }

  lemma PinsDoneSafely(dialect: Dialect, db: Db, d: Db)
    requires RunBlock(dialect, Some(db), Pins) == Some(d)
    ensures Safe(db, d)
  {
    DistinctTables();
    PinBlock(dialect, db, d);
    if PinsNeedMigration(dialect, db) {
      if dialect == Sqlite {
        SqlitePins(db, d);
        PinsCopiedTwice(db[PINS].rows);
      } else {
        PostgresPins(db, d);
      }
    }
    SafeBut(db, d, PINS);
  }

  lemma PartialIndexDoneSafely(dialect: Dialect, db: Db, d: Db)
    requires RunBlock(dialect, Some(db), PartialIndex) == Some(d)
    ensures Safe(db, d)
  {
    DistinctTables();
    PartialIndexBlock(dialect, db, d);
    SafeBut(db, d, ASSIGNMENTS);
  }

  lemma BlockIsSafe(dialect: Dialect, s: Session, b: Block)
    ensures Safe(s.db, TryBlock(dialect, s, b).session.db)
  {
    var ss, r := BlockStatements(dialect, s.db, b), TryBlock(dialect, s, b);
    TryStops(dialect, s, ss);
    if r.ok {
      match b {
        case Announcements => AnnouncementsDoneSafely(dialect, s.db, r.session.db);
        case Assignments => AssignmentsDoneSafely(dialect, s.db, r.session.db);
        case PartialIndex => PartialIndexDoneSafely(dialect, s.db, r.session.db);
        case Pins => PinsDoneSafely(dialect, s.db, r.session.db);
      }
    } else if r.session.db != s.db {
      var k: nat :| Stops(s.db, ss, k, r.session.db);
      BlockStopsSafely(dialect, s.db, b, k, r.session.db);
    }
  }

  lemma ColumnIsSafe(db: Db, m: FittingColumn, d: Db)
    requires Exec(db, AddColumn(m.table, m.column, m.default, m.isNotNull)) == Some(d)
    ensures Safe(db, d)
  {
    SafeBut(db, d, m.table);
  }

  lemma {:induction false} MissingIsSafe(dialect: Dialect, s: Session, missing: seq<FittingColumn>)
    ensures Safe(s.db, TryMissing(dialect, s, missing).session.db)
    decreases |missing|
  {
    if |missing| > 0 {
      var m := missing[0];
      if HasColumn(s.db, m.table, m.column) {
        MissingIsSafe(dialect, s, missing[1..]);
      } else {
        var add := AddColumn(m.table, m.column, m.default, m.isNotNull);
        if !s.poisoned && Exec(s.db, add).Some? {
          var next := Session(Exec(s.db, add).value, false);
          assert [add][1..] == [] && Try(dialect, s, [add]) == Attempt(next, true);
          ColumnIsSafe(s.db, m, next.db);
          MissingIsSafe(dialect, next, missing[1..]);
          SafeTransitive(s.db, next.db, TryMissing(dialect, s, missing).session.db);
        }
      }
    }
  }

  /** Whether it is done, swallows a failure anywhere or raises: no run loses a table, a row or a
      value of a known column; of the pins it may lose those of unknown kinds. */
  lemma RunIsSafe(dialect: Dialect, missing: seq<FittingColumn>, db: Db)
    ensures Safe(db, MigrateSession(dialect, missing, db).session.db)
  {
    var s := TryMissing(dialect, Session(db, false), missing).session;
    MissingIsSafe(dialect, Session(db, false), missing);
    if TryMissing(dialect, Session(db, false), missing).ok {
      BlocksAreSafe(dialect, s);
      SafeTransitive(db, s.db, MigrateSession(dialect, missing, db).session.db);
    }
  }

  lemma BlocksAreSafe(dialect: Dialect, s: Session)
    ensures var a := TryBlock(dialect, s, Announcements).session;
            var b := TryBlock(dialect, a, Assignments).session;
            var c := TryBlock(dialect, b, PartialIndex).session;
            Safe(s.db, TryBlock(dialect, c, Pins).session.db)
  {
    var a := TryBlock(dialect, s, Announcements).session;
    var b := TryBlock(dialect, a, Assignments).session;
    var c := TryBlock(dialect, b, PartialIndex).session;
    var d := TryBlock(dialect, c, Pins).session;
    BlockIsSafe(dialect, s, Announcements);
    BlockIsSafe(dialect, a, Assignments);
    BlockIsSafe(dialect, b, PartialIndex);
    BlockIsSafe(dialect, c, Pins);
    SafeTransitive(s.db, a.db, b.db);
    SafeTransitive(s.db, b.db, c.db);
    SafeTransitive(s.db, c.db, d.db);
  }

  /** Both at once. */
  lemma RunPromises(dialect: Dialect, missing: seq<FittingColumn>, db: Db)
    ensures Promises(dialect, missing, db, MigrateSession(dialect, missing, db))
  {
    RunIsSafe(dialect, missing, db);
    DoneIsMigrate(dialect, missing, db);
  }

  // ── what no run violates ───────────────────────────────────────────────────

  /** New tables start without a row that could offend. */
  ghost predicate CreatesSatisfied(ss: seq<Statement>)
  {
    forall k :: 0 <= k < |ss| && ss[k].CreateTable? ==> Satisfied(ss[k].blank)
  }

  lemma {:induction false} TryEnforces(dialect: Dialect, s: Session, ss: seq<Statement>)
    requires Consistent(s.db) && CreatesSatisfied(ss)
    ensures Consistent(Try(dialect, s, ss).session.db)
    decreases |ss|
  {
    if |ss| > 0 && !s.poisoned && Exec(s.db, ss[0]).Some? {
      ExecEnforces(s.db, ss[0]);
      TryEnforces(dialect, Session(Exec(s.db, ss[0]).value, false), ss[1..]);
    }
  }

  lemma {:induction false} TryMissingEnforces(dialect: Dialect, s: Session, missing: seq<Missing>)
    requires Consistent(s.db)
    ensures Consistent(TryMissing(dialect, s, missing).session.db)
    decreases |missing|
  {
    if |missing| > 0 {
      var m := missing[0];
      var add := [AddColumn(m.table, m.column, m.default, m.isNotNull)];
      TryEnforces(dialect, s, add);
      var first := if HasColumn(s.db, m.table, m.column) then Attempt(s, true) else Try(dialect, s, add);
      if first.ok { TryMissingEnforces(dialect, first.session, missing[1..]); }
    }
  }

  lemma RebuildCreatesSatisfied(name: string, blank: Table, needed: set<string>, project: Row -> Row, keep: Row -> bool, rest: seq<Statement>)
    requires blank.rows == [] && forall k :: 0 <= k < |rest| ==> !rest[k].CreateTable?
    ensures CreatesSatisfied(RebuildStatements(name, blank, needed, project, keep) + rest)
  {
  }

  lemma BlockCreatesSatisfied(dialect: Dialect, db: Db, b: Block)
    ensures CreatesSatisfied(BlockStatements(dialect, db, b))
  {
    var ss := BlockStatements(dialect, db, b);
    match b {
      case Announcements =>
        var index := [CreateIndexIfNotExists(ANNOUNCEMENTS, "idx_announcements_active")];
        RebuildCreatesSatisfied(ANNOUNCEMENTS, NEW_ANNOUNCEMENTS, SHARED_ANNOUNCEMENT_COLUMNS + {"type"}, NewAnnouncement, KeepAll, index);
      case Assignments =>
        var index := [ CreateIndexIfNotExists(ASSIGNMENTS, "idx_resource_assignments_user_id"),
                       CreateIndexIfNotExists(ASSIGNMENTS, "idx_resource_assignments_preset_id") ];
        RebuildCreatesSatisfied(ASSIGNMENTS, NEW_ASSIGNMENTS, ASSIGNMENT_COLUMNS, NewAssignment, KeepAll, index);
      case PartialIndex =>
      case Pins =>
        RebuildCreatesSatisfied(PINS, NEW_PINS, PIN_COLUMNS, NewPin, OldPinKind, []);
    }
  }

  lemma BlockEnforces(dialect: Dialect, s: Session, b: Block)
    requires Consistent(s.db)
    ensures Consistent(TryBlock(dialect, s, b).session.db)
  {
    BlockCreatesSatisfied(dialect, s.db, b);
    TryEnforces(dialect, s, BlockStatements(dialect, s.db, b));
  }

  /** Done, swallowed or raised: a run on a database whose constraints hold leaves one whose
      constraints hold, the old ones and the new. */
  lemma RunEnforces(dialect: Dialect, missing: seq<Missing>, db: Db)
    requires Consistent(db)
    ensures Consistent(MigrateSession(dialect, missing, db).session.db)
  {
    var added := TryMissing(dialect, Session(db, false), missing);
    TryMissingEnforces(dialect, Session(db, false), missing);
    if added.ok {
      var a := TryBlock(dialect, added.session, Announcements);
      var b := TryBlock(dialect, a.session, Assignments);
      var c := TryBlock(dialect, b.session, PartialIndex);
      BlockEnforces(dialect, added.session, Announcements);
      BlockEnforces(dialect, a.session, Assignments);
      BlockEnforces(dialect, b.session, PartialIndex);
      BlockEnforces(dialect, c.session, Pins);
    }
  }

  /** Any number of start-ups, with whatever results, on either dialect. */
  function StartUps(dialect: Dialect, lists: seq<seq<FittingColumn>>, db: Db): Db
    decreases |lists|
  {
    if |lists| == 0 then db else StartUps(dialect, lists[1..], MigrateSession(dialect, lists[0], db).session.db)
  }

  lemma {:induction false} StartUpsAreSafe(dialect: Dialect, lists: seq<seq<FittingColumn>>, db: Db)
    ensures Safe(db, StartUps(dialect, lists, db))
    decreases |lists|
  {
    if |lists| == 0 {
      SafeBut(db, db, PINS);
    } else {
      var next := MigrateSession(dialect, lists[0], db).session.db;
      RunIsSafe(dialect, lists[0], db);
      StartUpsAreSafe(dialect, lists[1..], next);
      SafeTransitive(db, next, StartUps(dialect, lists, db));
    }
  }

  lemma {:induction false} NotPoisoned(s: Session, ss: seq<Statement>)
    requires !s.poisoned
    ensures !Try(Sqlite, s, ss).session.poisoned
    decreases |ss|
  {
    if |ss| > 0 && Exec(s.db, ss[0]).Some? { NotPoisoned(Session(Exec(s.db, ss[0]).value, false), ss[1..]); }
  }

  // ── the same on mutable state ──────────────────────────────────────────────

  /** A connection inside one transaction. */
  class Connection {
    var db: Db
    var poisoned: bool
    const dialect: Dialect

    function View(): Session
      reads this
    {
      Session(db, poisoned)
    }

    constructor (dialect: Dialect, db: Db)
      ensures this.dialect == dialect && View() == Session(db, false)
    {
      this.dialect, this.db, this.poisoned := dialect, db, false;
    }

    method Execute(s: Statement) returns (ok: bool)
      modifies this
      ensures ok <==> !old(poisoned) && Exec(old(db), s).Some?
      ensures if ok then Some(db) == Exec(old(db), s) else db == old(db)
      ensures poisoned == (old(poisoned) || (!ok && dialect == Postgres))
    {
      var r := Exec(db, s);
      ok := !poisoned && r.Some?;
      if ok { db := r.value; } else if dialect == Postgres { poisoned := true; }
    }

    /** One try block: the first failing statement ends it and the exception is swallowed. */
    method ExecuteBlock(statements: seq<Statement>) returns (ok: bool)
      modifies this
      ensures Attempt(View(), ok) == Try(dialect, old(View()), statements)
    {
      assert statements[0..] == statements;
      for i := 0 to |statements|
        invariant Try(dialect, View(), statements[i..]) == Try(dialect, old(View()), statements)
      {
        assert statements[i..][0] == statements[i] && statements[i..][1..] == statements[i + 1..];
        var done := Execute(statements[i]);
        if !done { return false; }
      }
      return true;
    }

    /** The column loop: inspect, then add what is not there. */
    method AddColumns(missing: seq<Missing>) returns (ok: bool)
      modifies this
      ensures Attempt(View(), ok) == TryMissing(dialect, old(View()), missing)
    {
      assert missing[0..] == missing;
      for i := 0 to |missing|
        invariant TryMissing(dialect, View(), missing[i..]) == TryMissing(dialect, old(View()), missing)
      {
        var m := missing[i];
        assert missing[i..][0] == m && missing[i..][1..] == missing[i + 1..];
        if !HasColumn(db, m.table, m.column) {
          var done := ExecuteBlock([AddColumn(m.table, m.column, m.default, m.isNotNull)]);
          if !done { return false; }
        }
      }
      return true;
    }

    /** `_migrate_db`. */
    method MigrateDb(missing: seq<FittingColumn>) returns (result: Result)
      requires !poisoned
      modifies this
      ensures Outcome(View(), result) == MigrateSession(dialect, missing, old(db))
      ensures Promises(dialect, missing, old(db), Outcome(View(), result))
    {
      RunPromises(dialect, missing, db);
      var added := AddColumns(missing);
      if !added { return Raised; }
      var a := ExecuteBlock(AnnouncementStatements(dialect, db));
      var b := ExecuteBlock(AssignmentStatements(dialect, db));
      var c := ExecuteBlock(PartialIndexStatements());
      var d := ExecuteBlock(PinStatements(dialect, db));
      result := if a && b && c && d then Done else Swallowed;
    }
  }
}
