/** Running `_migrate_db` again on SQLite: whatever a start-up came to, done, swallowed or raised, the
    next one comes to the same and changes nothing. */
module MigrationRepeat {
  import opened Text
  import opened Schema
  import opened Migration
  import opened MigrationProofs
  import opened MigrationSuccess
  import opened MigrationRun

  // ── the column loop ────────────────────────────────────────────────────────

  lemma OneColumn(db: Db, m: Missing)
    ensures var s := AddColumn(m.table, m.column, m.default, m.isNotNull);
            Try(Sqlite, Session(db, false), [s]) ==
            if Exec(db, s).Some? then Attempt(Session(Exec(db, s).value, false), true) else Attempt(Session(db, false), false)
  {
    var s := AddColumn(m.table, m.column, m.default, m.isNotNull);
    assert [s][1..] == [];
  }

  lemma {:induction false} ColumnsStay(db: Db, missing: seq<Missing>, t: string, c: string)
    requires HasColumn(db, t, c)
    ensures var r := TryMissing(Sqlite, Session(db, false), missing).session; !r.poisoned && HasColumn(r.db, t, c)
    decreases |missing|
  {
    if |missing| > 0 {
      var m := missing[0];
      var s := AddColumn(m.table, m.column, m.default, m.isNotNull);
      OneColumn(db, m);
      if HasColumn(db, m.table, m.column) {
        ColumnsStay(db, missing[1..], t, c);
      } else if Exec(db, s).Some? {
        ColumnsStay(Exec(db, s).value, missing[1..], t, c);
      }
    }
  }

  lemma {:induction false} TryMissingTwice(db: Db, missing: seq<Missing>)
    ensures var r := TryMissing(Sqlite, Session(db, false), missing);
            !r.session.poisoned && TryMissing(Sqlite, r.session, missing) == r
    decreases |missing|
  {
    if |missing| > 0 {
      var m := missing[0];
      var s := AddColumn(m.table, m.column, m.default, m.isNotNull);
      OneColumn(db, m);
      if HasColumn(db, m.table, m.column) {
        TryMissingTwice(db, missing[1..]);
        ColumnsStay(db, missing[1..], m.table, m.column);
      } else if Exec(db, s).Some? {
        var next := Exec(db, s).value;
        TryMissingTwice(next, missing[1..]);
        ColumnsStay(next, missing[1..], m.table, m.column);
      }
    }
  }

  // ── what a block leaves ────────────────────────────────────────────────────

  /** The block's own inspection finds something to do. */
  predicate Needed(b: Block, db: Db)
  {
    match b
    case Announcements => AnnouncementsNeedMigration(db)
    case Assignments => AssignmentsNeedMigration(db)
    case PartialIndex => true
    case Pins => PinsNeedMigration(Sqlite, db)
  }

  /** What the block will come to is settled: it has nothing to do, or its way is blocked. */
  ghost predicate Steady(b: Block, db: Db, ok: bool)
  {
    if b == PartialIndex then
      if ok then ASSIGNMENTS in db && UQ_NO_NODE in db[ASSIGNMENTS].partials
      else ASSIGNMENTS in db ==> UQ_NO_NODE !in db[ASSIGNMENTS].partials && !PartialHolds(db[ASSIGNMENTS].rows, NO_NODE)
    else if ok then !Needed(b, db)
    else Needed(b, db) && NewName(b) in db
  }

  lemma TryIndex(db: Db)
    ensures var s := CreateUniqueIndexIfNotExists(ASSIGNMENTS, UQ_NO_NODE, NO_NODE);
            TryBlock(Sqlite, Session(db, false), PartialIndex) ==
            if Exec(db, s).Some? then Attempt(Session(Exec(db, s).value, false), true) else Attempt(Session(db, false), false)
  {
    var ss := PartialIndexStatements();
    assert ss[0] == CreateUniqueIndexIfNotExists(ASSIGNMENTS, UQ_NO_NODE, NO_NODE) && |ss[1..]| == 0;
  }

  lemma SteadyRepeats(b: Block, db: Db, ok: bool)
    requires Steady(b, db, ok)
    ensures TryBlock(Sqlite, Session(db, false), b) == Attempt(Session(db, false), ok)
  {
    if b == PartialIndex {
      TryIndex(db);
    } else if ok {
      assert BlockStatements(Sqlite, db, b) == [];
    }
  }

  lemma DoneIsSteady(b: Block, db: Db, d: Db)
    requires b != PartialIndex && RunBlock(Sqlite, Some(db), b) == Some(d)
    ensures Steady(b, d, true)
  {
    match b {
      case Announcements => AnnouncementBlock(Sqlite, db, d);
      case Assignments => AssignmentBlock(Sqlite, db, d);
      case Pins => PinBlock(Sqlite, db, d);
    }
  }

  /** The needs of a block depend on its own table only. */
  lemma NeededByOwnTable(b: Block, db: Db, e: Db)
    requires RebuiltTable(b) in db <==> RebuiltTable(b) in e
    requires RebuiltTable(b) in db ==> e[RebuiltTable(b)] == db[RebuiltTable(b)]
    ensures Needed(b, e) == Needed(b, db)
  {
  }

  lemma FailedIsSteady(b: Block, db: Db, k: nat, e: Db)
    requires b != PartialIndex && Stops(db, BlockStatements(Sqlite, db, b), k, e)
    ensures Steady(b, e, false)
  {
    SqliteBlockStops(db, b, k, e);
    NeededByOwnTable(b, db, e);
  }

  /** After a block has been tried, what it will come to is settled. */
  lemma BlockSettles(b: Block, db: Db)
    ensures var r := TryBlock(Sqlite, Session(db, false), b);
            !r.session.poisoned && Steady(b, r.session.db, r.ok)
  {
    var ss, r := BlockStatements(Sqlite, db, b), TryBlock(Sqlite, Session(db, false), b);
    NotPoisoned(Session(db, false), ss);
    if b == PartialIndex {
      TryIndex(db);
    } else if r.ok {
      TryIsExecAll(Sqlite, db, ss);
      DoneIsSteady(b, db, r.session.db);
    } else {
      var k := FirstFailure(Sqlite, Session(db, false), ss);
      FailedIsSteady(b, db, k, r.session.db);
    }
  }

  /** A block tried again on what it left comes to the same and changes nothing more. */
  lemma BlockRepeatsItself(db: Db, b: Block)
    ensures var r := TryBlock(Sqlite, Session(db, false), b); TryBlock(Sqlite, r.session, b) == r
  {
    var r := TryBlock(Sqlite, Session(db, false), b);
    BlockSettles(b, db);
    SteadyRepeats(b, r.session.db, r.ok);
  }

  // ── later blocks leave it settled ──────────────────────────────────────────

  /** All a block does to the database: it may change its own table, and leave a new one behind. */
  ghost predicate Touches(b: Block, db: Db, d: Db)
  {
    && (forall t :: t in db ==> t in d && (t != RebuiltTable(b) ==> d[t] == db[t]))
    && (forall t :: t in d ==> t in db || t == NewName(b))
  }

  lemma BlockTouches(b: Block, db: Db)
    ensures Touches(b, db, TryBlock(Sqlite, Session(db, false), b).session.db)
  {
    var ss, r := BlockStatements(Sqlite, db, b), TryBlock(Sqlite, Session(db, false), b);
    if r.ok {
      TryIsExecAll(Sqlite, db, ss);
      match b {
        case Announcements => AnnouncementBlock(Sqlite, db, r.session.db);
        case Assignments => AssignmentBlock(Sqlite, db, r.session.db);
        case PartialIndex => PartialIndexBlock(Sqlite, db, r.session.db);
        case Pins => PinBlock(Sqlite, db, r.session.db);
      }
    } else {
      var k := FirstFailure(Sqlite, Session(db, false), ss);
      SqliteBlockStops(db, b, k, r.session.db);
    }
  }

  /** New names end in "w", the tables' own names in "s". */
  lemma NewNamesAreOther(a: Block, b: Block)
    ensures NewName(a) != RebuiltTable(b)
  {
    var n, t := NewName(a), RebuiltTable(b);
    assert n[|n| - 1] == 'w' && t[|t| - 1] == 's';
  }

  lemma OtherBlockLeavesSteady(b: Block, ok: bool, c: Block, db: Db, d: Db)
    requires Steady(b, db, ok) && Touches(c, db, d) && RebuiltTable(c) != RebuiltTable(b)
    ensures Steady(b, d, ok)
  {
    NewNamesAreOther(c, b);
    NewNamesAreOther(b, c);
  }

  /** The partial index changes no need of the assignments. */
  lemma IndexLeavesSteady(ok: bool, db: Db)
    requires Steady(Assignments, db, ok)
    ensures Steady(Assignments, TryBlock(Sqlite, Session(db, false), PartialIndex).session.db, ok)
  {
    TryIndex(db);
    BlockTouches(PartialIndex, db);
    NewNamesAreOther(Assignments, PartialIndex);
  }

  lemma ColumnStays(b: Block, db: Db, m: FittingColumn)
    requires HasColumn(db, m.table, m.column)
    ensures HasColumn(TryBlock(Sqlite, Session(db, false), b).session.db, m.table, m.column)
  {
    var ss, r := BlockStatements(Sqlite, db, b), TryBlock(Sqlite, Session(db, false), b);
    BlockTouches(b, db);
    if m.table == RebuiltTable(b) {
      if b == PartialIndex {
        TryIndex(db);
      } else if r.ok {
        TryIsExecAll(Sqlite, db, ss);
        AssignmentBlock(Sqlite, db, r.session.db);
      } else {
        var k := FirstFailure(Sqlite, Session(db, false), ss);
        SqliteBlockStops(db, b, k, r.session.db);
        NewNamesAreOther(b, b);
      }
    }
  }

  // ── the whole run ──────────────────────────────────────────────────────────

  /** What every block will come to, and the columns being there. */
  ghost predicate AllSteady(missing: seq<Missing>, db: Db, a: bool, b: bool, c: bool, d: bool)
  {
    && (forall k :: 0 <= k < |missing| ==> HasColumn(db, missing[k].table, missing[k].column))
    && Steady(Announcements, db, a) && Steady(Assignments, db, b) && Steady(PartialIndex, db, c) && Steady(Pins, db, d)
  }

  lemma SteadyRunRepeats(missing: seq<Missing>, db: Db, a: bool, b: bool, c: bool, d: bool)
    requires AllSteady(missing, db, a, b, c, d)
    ensures MigrateSession(Sqlite, missing, db) == Outcome(Session(db, false), if a && b && c && d then Done else Swallowed)
  {
    NothingMissing(db, missing);
    TryMissingIsAddMissing(Sqlite, db, missing);
    SteadyRepeats(Announcements, db, a);
    SteadyRepeats(Assignments, db, b);
    SteadyRepeats(PartialIndex, db, c);
    SteadyRepeats(Pins, db, d);
  }

  lemma ColumnsStayThrough(b: Block, missing: seq<FittingColumn>, db: Db)
    requires forall k :: 0 <= k < |missing| ==> HasColumn(db, missing[k].table, missing[k].column)
    ensures var d := TryBlock(Sqlite, Session(db, false), b).session.db;
            forall k :: 0 <= k < |missing| ==> HasColumn(d, missing[k].table, missing[k].column)
  {
    forall k | 0 <= k < |missing|
      ensures HasColumn(TryBlock(Sqlite, Session(db, false), b).session.db, missing[k].table, missing[k].column)
    {
      ColumnStays(b, db, missing[k]);
    }
  }

  /** The blocks one after another settle everything. */
  lemma BlocksSettle(missing: seq<FittingColumn>, d1: Db)
    requires forall k :: 0 <= k < |missing| ==> HasColumn(d1, missing[k].table, missing[k].column)
    ensures var a := TryBlock(Sqlite, Session(d1, false), Announcements);
            var b := TryBlock(Sqlite, a.session, Assignments);
            var c := TryBlock(Sqlite, b.session, PartialIndex);
            var d := TryBlock(Sqlite, c.session, Pins);
            !d.session.poisoned && AllSteady(missing, d.session.db, a.ok, b.ok, c.ok, d.ok)
  {
    DistinctTables();
    var a := TryBlock(Sqlite, Session(d1, false), Announcements);
    BlockSettles(Announcements, d1);
    ColumnsStayThrough(Announcements, missing, d1);
    var d2 := a.session.db;
    var b := TryBlock(Sqlite, Session(d2, false), Assignments);
    BlockSettles(Assignments, d2);
    ColumnsStayThrough(Assignments, missing, d2);
    BlockTouches(Assignments, d2);
    var d3 := b.session.db;
    OtherBlockLeavesSteady(Announcements, a.ok, Assignments, d2, d3);
    var c := TryBlock(Sqlite, Session(d3, false), PartialIndex);
    BlockSettles(PartialIndex, d3);
    ColumnsStayThrough(PartialIndex, missing, d3);
    BlockTouches(PartialIndex, d3);
    var d4 := c.session.db;
    OtherBlockLeavesSteady(Announcements, a.ok, PartialIndex, d3, d4);
    IndexLeavesSteady(b.ok, d3);
    var d := TryBlock(Sqlite, Session(d4, false), Pins);
    BlockSettles(Pins, d4);
    ColumnsStayThrough(Pins, missing, d4);
    BlockTouches(Pins, d4);
    var d5 := d.session.db;
    OtherBlockLeavesSteady(Announcements, a.ok, Pins, d4, d5);
    OtherBlockLeavesSteady(Assignments, b.ok, Pins, d4, d5);
    OtherBlockLeavesSteady(PartialIndex, c.ok, Pins, d4, d5);
  }

  /** On SQLite a second start-up comes to what the first came to, whatever that was, and changes
      nothing: a table left behind by an interrupted copy keeps that copy from ever being made. */
  lemma RunRepeatsItself(missing: seq<FittingColumn>, db: Db)
    ensures var o := MigrateSession(Sqlite, missing, db);
            !o.session.poisoned && MigrateSession(Sqlite, missing, o.session.db) == o
  {
    var added := TryMissing(Sqlite, Session(db, false), missing);
    TryMissingTwice(db, missing);
    if added.ok {
      TryMissingIsAddMissing(Sqlite, db, missing);
      AddMissingWidens(db, missing, added.session.db);
      BlocksSettle(missing, added.session.db);
      var a := TryBlock(Sqlite, added.session, Announcements);
      var b := TryBlock(Sqlite, a.session, Assignments);
      var c := TryBlock(Sqlite, b.session, PartialIndex);
      var d := TryBlock(Sqlite, c.session, Pins);
      SteadyRunRepeats(missing, d.session.db, a.ok, b.ok, c.ok, d.ok);
    }
  }

  // ── witnesses ──────────────────────────────────────────────────────────────

  /** A pin of an old kind without a route, which the new table refuses. */
  function RoutelessPin(): Row { map c | c in PIN_COLUMNS :: if c == "route" then Null else Str("vm") }

  const ROUTELESS_PINS := Table(PIN_COLUMNS, [RoutelessPin()], {}, map[], map[], map[], {})

  lemma RoutelessPinIsOld()
    ensures OldPinKind(RoutelessPin()) && Get(NewPin(RoutelessPin()), "route") == Null && "route" in NEW_PINS.notNull
  {
    assert "pin_kind" in PIN_COLUMNS && "route" in PIN_COLUMNS && "pin_kind" != "route";
  }

  lemma RoutelessCopyRefused()
    ensures !Satisfied(NEW_PINS.(rows := Selected(ROUTELESS_PINS.rows, NewPin, OldPinKind)))
  {
    RoutelessPinIsOld();
    var rows := ROUTELESS_PINS.rows;
    assert Selected(rows, NewPin, OldPinKind) == [NewPin(rows[0])] + Selected(rows[1..], NewPin, OldPinKind);
    var copied := Selected(rows, NewPin, OldPinKind);
    assert Get(copied[0], "route") == Null && !NotNullHolds(copied, NEW_PINS.notNull);
  }

  /** A copy that is interrupted does leave its table behind. */
  lemma InterruptedCopyStays(db: Db)
    requires PINS in db && db[PINS] == ROUTELESS_PINS && NewName(Pins) !in db
    ensures TryBlock(Sqlite, Session(db, false), Pins) == Attempt(Session(db[NewName(Pins) := NEW_PINS], false), false)
  {
    RoutelessPinIsOld();
    RoutelessCopyRefused();
    var ss, r := BlockStatements(Sqlite, db, Pins), TryBlock(Sqlite, Session(db, false), Pins);
    assert PinsNeedMigration(Sqlite, db);
    TryIsExecAll(Sqlite, db, ss);
    RebuildResult(db, PINS, NEW_PINS, PIN_COLUMNS, NewPin, OldPinKind);
    NotPoisoned(Session(db, false), ss);
    var k := FirstFailure(Sqlite, Session(db, false), ss);
    SqliteBlockStops(db, Pins, k, r.session.db);
  }

  lemma NewNamesDiffer(a: Block, b: Block)
    ensures NewName(a) == NewName(b) ==> RebuiltTable(a) == RebuiltTable(b)
  {
    if NewName(a) == NewName(b) {
      assert RebuiltTable(a) == NewName(a)[..|NewName(a)| - 4] && RebuiltTable(b) == NewName(b)[..|NewName(b)| - 4];
    }
  }

  lemma EarlierBlockLeavesPins(b: Block, db: Db)
    requires b != Pins && NewName(Pins) !in db
    ensures var d := TryBlock(Sqlite, Session(db, false), b).session.db;
            NewName(Pins) !in d && (PINS in db ==> PINS in d && d[PINS] == db[PINS])
  {
    DistinctTables();
    BlockTouches(b, db);
    NewNamesDiffer(b, Pins);
  }

  lemma MiddleLeavesRoutelessPins(d1: Db)
    requires PINS in d1 && d1[PINS] == ROUTELESS_PINS && NewName(Pins) !in d1
    ensures var a := TryBlock(Sqlite, Session(d1, false), Announcements);
            var b := TryBlock(Sqlite, a.session, Assignments);
            var c := TryBlock(Sqlite, b.session, PartialIndex);
            && !c.session.poisoned && PINS in c.session.db && c.session.db[PINS] == ROUTELESS_PINS
            && NewName(Pins) !in c.session.db
  {
    var a := TryBlock(Sqlite, Session(d1, false), Announcements);
    BlockSettles(Announcements, d1);
    EarlierBlockLeavesPins(Announcements, d1);
    var b := TryBlock(Sqlite, a.session, Assignments);
    BlockSettles(Assignments, a.session.db);
    EarlierBlockLeavesPins(Assignments, a.session.db);
    BlockSettles(PartialIndex, b.session.db);
    EarlierBlockLeavesPins(PartialIndex, b.session.db);
  }

  /** With such a pin a start-up ends in a swallowed failure and an empty table left behind; by the
      result above so does every later one. */
  lemma InterruptedCopyStaysForGood(missing: seq<FittingColumn>, db: Db)
    requires PINS in db && db[PINS] == ROUTELESS_PINS && NewName(Pins) !in db && AddMissing(db, missing).Some?
    ensures var o := MigrateSession(Sqlite, missing, db);
            && o.result == Swallowed && NewName(Pins) in o.session.db && o.session.db[NewName(Pins)] == NEW_PINS
            && MigrateSession(Sqlite, missing, o.session.db) == o
  {
    RunRepeatsItself(missing, db);
    TryMissingIsAddMissing(Sqlite, db, missing);
    var d1 := AddMissing(db, missing).value;
    AddMissingWidens(db, missing, d1);
    ListFits(missing);
    NotWidened(db, missing, d1, PINS);
    MiddleLeavesRoutelessPins(d1);
    var a := TryBlock(Sqlite, Session(d1, false), Announcements);
    var b := TryBlock(Sqlite, a.session, Assignments);
    var c := TryBlock(Sqlite, b.session, PartialIndex);
    InterruptedCopyStays(c.session.db);
  }

  const ANNOUNCEMENTS_WITH_NOTE :=
    Table(SHARED_ANNOUNCEMENT_COLUMNS + {"type", "note"}, [], {}, map[], map[], map[], {})

  /** A column of its own makes the dialects differ, though both succeed. */
  lemma OwnColumnSplitsDialects(db: Db)
    requires ANNOUNCEMENTS in db && db[ANNOUNCEMENTS] == ANNOUNCEMENTS_WITH_NOTE && NewName(Announcements) !in db
    ensures exists lite: Db, pg: Db ::
              && RunBlock(Sqlite, Some(db), Announcements) == Some(lite) && ANNOUNCEMENTS in lite
              && RunBlock(Postgres, Some(db), Announcements) == Some(pg) && ANNOUNCEMENTS in pg
              && lite[ANNOUNCEMENTS].columns != pg[ANNOUNCEMENTS].columns
  {
    var t := db[ANNOUNCEMENTS];
    SqliteAnnouncementsMigrate(db);
    PostgresAnnouncementsMigrate(db);
    var lite := RunBlock(Sqlite, Some(db), Announcements).value;
    var pg := RunBlock(Postgres, Some(db), Announcements).value;
    SqliteAnnouncements(db, lite);
    PostgresAnnouncements(db, pg);
    DialectsAgreeIff(db, lite, pg);
    assert lite[ANNOUNCEMENTS].rows == pg[ANNOUNCEMENTS].rows;
  }

}
