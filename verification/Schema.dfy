/** A small relational store: the statements `_migrate_db` executes, on tables that are sequences
    of rows with NOT NULL, UNIQUE, CHECK … IN and partial unique constraints.  A statement gives
    `None` where the database reports an error. */
module Schema {
  import opened Text

  datatype Value = Null | Int(n: int) | Str(s: string)

  type Row = map<string, Value>

  datatype Check = Check(column: string, allowed: set<string>)

  /** A unique index over `columns`, for the rows whose `whenNull` is NULL. */
  datatype Partial = Partial(columns: set<string>, whenNull: string)

  datatype Table = Table(columns: set<string>, rows: seq<Row>, notNull: set<string>, uniques: map<string, set<string>>,
                         checks: map<string, Check>, partials: map<string, Partial>, indexes: set<string>)

  type Db = map<string, Table>

  function Get(r: Row, c: string): Value { if c in r then r[c] else Null }

  // ── constraints ────────────────────────────────────────────────────────────

  /** SQL uniqueness: two rows collide only if every column is equal and none is NULL. */
  predicate Collide(a: Row, b: Row, cols: set<string>)
  {
    forall c :: c in cols ==> Get(a, c) == Get(b, c) && Get(a, c) != Null
  }

  predicate UniqueHolds(rows: seq<Row>, cols: set<string>)
  {
    forall i, j :: 0 <= i < j < |rows| ==> !Collide(rows[i], rows[j], cols)
  }

  predicate PartialHolds(rows: seq<Row>, p: Partial)
  {
    forall i, j :: 0 <= i < j < |rows| ==>
      !(Get(rows[i], p.whenNull) == Null && Get(rows[j], p.whenNull) == Null && Collide(rows[i], rows[j], p.columns))
  }

  predicate NotNullHolds(rows: seq<Row>, cols: set<string>)
  {
    forall i, c :: 0 <= i < |rows| && c in cols ==> Get(rows[i], c) != Null
  }

  /** NULL passes a CHECK. */
  predicate CheckHolds(rows: seq<Row>, ck: Check)
  {
    forall i :: 0 <= i < |rows| ==>
      Get(rows[i], ck.column) == Null || (Get(rows[i], ck.column).Str? && Get(rows[i], ck.column).s in ck.allowed)
  }

  predicate Satisfied(t: Table)
  {
    && NotNullHolds(t.rows, t.notNull)
    && (forall n :: n in t.uniques ==> UniqueHolds(t.rows, t.uniques[n]))
    && (forall n :: n in t.checks ==> CheckHolds(t.rows, t.checks[n]))
    && (forall n :: n in t.partials ==> PartialHolds(t.rows, t.partials[n]))
  }

  /** Every row has exactly the table's columns. */
  ghost predicate Rectangular(t: Table)
  {
    forall i :: 0 <= i < |t.rows| ==> t.rows[i].Keys == t.columns
  }

  // ── statements ─────────────────────────────────────────────────────────────

  datatype Statement =
    | AddColumn(table: string, column: string, default: Value, isNotNull: bool)
    | CreateTable(table: string, blank: Table)
    | InsertSelect(table: string, source: string, needed: set<string>, project: Row -> Row, keep: Row -> bool)
    | DropTable(table: string)
    | RenameTable(table: string, to: string)
    | UpdateColumn(table: string, column: string, value: Row -> Value)
    | DropColumn(table: string, column: string)
    | DropConstraintIfExists(table: string, name: string)
    | AddUnique(table: string, name: string, columns: set<string>)
    | AddCheck(table: string, name: string, check: Check)
    | CreateUniqueIndexIfNotExists(table: string, name: string, partial: Partial)
    | CreateIndexIfNotExists(table: string, name: string)

  function Selected(rows: seq<Row>, project: Row -> Row, keep: Row -> bool): (r: seq<Row>)
    ensures |r| <= |rows|
  {
    if rows == [] then []
    else if keep(rows[0]) then [project(rows[0])] + Selected(rows[1..], project, keep)
    else Selected(rows[1..], project, keep)
  }

  function MapRows(rows: seq<Row>, f: Row -> Row): seq<Row>
  {
    seq(|rows|, i requires 0 <= i < |rows| => f(rows[i]))
  }

  function Put(db: Db, table: string, t: Table): Option<Db>
  {
    if Satisfied(t) then Some(db[table := t]) else None
  }

  function Exec(db: Db, s: Statement): Option<Db>
  {
    if s.CreateTable? then
      if s.table in db then None else Some(db[s.table := s.blank])
    else if s.table !in db then None
    else
      var t := db[s.table];
      match s
      case AddColumn(table, column, default, isNotNull) =>
        if column in t.columns then None
        else Put(db, table, t.(columns := t.columns + {column}, rows := MapRows(t.rows, (r: Row) => r[column := default]),
                               notNull := if isNotNull then t.notNull + {column} else t.notNull))
      case InsertSelect(table, source, needed, project, keep) =>
        if source !in db || !(needed <= db[source].columns) then None
        else Put(db, table, t.(rows := t.rows + Selected(db[source].rows, project, keep)))
      case DropTable(table) => Some(db - {table})
      case RenameTable(table, to) => if to in db then None else Some((db - {table})[to := t])
      case UpdateColumn(table, column, value) =>
        if column !in t.columns then None
        else Put(db, table, t.(rows := MapRows(t.rows, (r: Row) => r[column := value(r)])))
      case DropColumn(table, column) =>
        if column !in t.columns then None
        else Some(db[table := t.(columns := t.columns - {column}, rows := MapRows(t.rows, (r: Row) => r - {column}),
                                 notNull := t.notNull - {column},
                                 uniques := map n | n in t.uniques && column !in t.uniques[n] :: t.uniques[n],
                                 checks := map n | n in t.checks && t.checks[n].column != column :: t.checks[n],
                                 partials := map n | n in t.partials && column !in t.partials[n].columns
                                                     && t.partials[n].whenNull != column :: t.partials[n])])
      case DropConstraintIfExists(table, name) =>
        Some(db[table := t.(uniques := t.uniques - {name}, checks := t.checks - {name})])
      case AddUnique(table, name, columns) =>
        if name in t.uniques || name in t.checks || !UniqueHolds(t.rows, columns) then None
        else Some(db[table := t.(uniques := t.uniques[name := columns])])
      case AddCheck(table, name, check) =>
        if name in t.uniques || name in t.checks || !CheckHolds(t.rows, check) then None
        else Some(db[table := t.(checks := t.checks[name := check])])
      case CreateUniqueIndexIfNotExists(table, name, partial) =>
        if name in t.partials then Some(db)
        else if !PartialHolds(t.rows, partial) then None
        else Some(db[table := t.(partials := t.partials[name := partial])])
      case CreateIndexIfNotExists(table, name) => Some(db[table := t.(indexes := t.indexes + {name})])
  }

  // ── constraints in three-valued logic ──────────────────────────────────────

  datatype Truth = Yes | No | Unknown

  function Equals(a: Value, b: Value): Truth { if a == Null || b == Null then Unknown else if a == b then Yes else No }

  function IsIn(v: Value, allowed: set<string>): Truth
  {
    if v == Null then Unknown else if v.Str? && v.s in allowed then Yes else No
  }

  /** A CHECK refuses a row only where it is false. */
  lemma CheckIsNeverFalse(rows: seq<Row>, ck: Check)
    ensures CheckHolds(rows, ck) <==> forall i :: 0 <= i < |rows| ==> IsIn(Get(rows[i], ck.column), ck.allowed) != No
  {
  }

  /** All columns are known to be equal. */
  predicate KnownEqual(a: Row, b: Row, cols: set<string>)
  {
    forall c :: c in cols ==> Equals(Get(a, c), Get(b, c)) == Yes
  }

  lemma CollideIsKnownEqual(a: Row, b: Row, cols: set<string>)
    ensures Collide(a, b, cols) <==> KnownEqual(a, b, cols)
  {
    assert forall c :: c in cols ==> (Equals(Get(a, c), Get(b, c)) == Yes <==> Get(a, c) == Get(b, c) && Get(a, c) != Null);
  }

  /** UNIQUE refuses two rows only where they are known to be equal, a partial index only among the
      rows it is about. */
  lemma UniqueIsNeverKnownEqual(rows: seq<Row>, p: Partial)
    ensures UniqueHolds(rows, p.columns) <==> forall i, j :: 0 <= i < j < |rows| ==> !KnownEqual(rows[i], rows[j], p.columns)
    ensures PartialHolds(rows, p) <==>
            forall i, j :: 0 <= i < j < |rows| && Get(rows[i], p.whenNull) == Null && Get(rows[j], p.whenNull) == Null ==>
              !KnownEqual(rows[i], rows[j], p.columns)
  {
    forall i, j | 0 <= i < j < |rows| ensures Collide(rows[i], rows[j], p.columns) <==> KnownEqual(rows[i], rows[j], p.columns) {
      CollideIsKnownEqual(rows[i], rows[j], p.columns);
    }
  }

  // ── statements enforce the constraints ─────────────────────────────────────

  /** Every constraint of every table holds. */
  ghost predicate Consistent(db: Db) { forall name :: name in db ==> Satisfied(db[name]) }

  lemma DroppedColumnSatisfied(t: Table, t': Table, column: string)
    requires Satisfied(t) && t'.rows == MapRows(t.rows, (r: Row) => r - {column})
    requires t'.notNull == t.notNull - {column}
    requires forall n :: n in t'.uniques ==> n in t.uniques && t'.uniques[n] == t.uniques[n] && column !in t.uniques[n]
    requires forall n :: n in t'.checks ==> n in t.checks && t'.checks[n] == t.checks[n] && column != t.checks[n].column
    requires forall n :: n in t'.partials ==>
               n in t.partials && t'.partials[n] == t.partials[n] && column !in t.partials[n].columns && column != t.partials[n].whenNull
    ensures Satisfied(t')
  {
    assert forall i, c :: 0 <= i < |t.rows| && c != column ==> Get(t'.rows[i], c) == Get(t.rows[i], c);
    forall i, j, cols | 0 <= i < j < |t.rows| && column !in cols
      ensures Collide(t'.rows[i], t'.rows[j], cols) <==> Collide(t.rows[i], t.rows[j], cols)
    {
    }
    forall n | n in t'.uniques ensures UniqueHolds(t'.rows, t'.uniques[n]) {
      assert UniqueHolds(t.rows, t.uniques[n]);
    }
    forall n | n in t'.checks ensures CheckHolds(t'.rows, t'.checks[n]) {
      assert CheckHolds(t.rows, t.checks[n]);
    }
    forall n | n in t'.partials ensures PartialHolds(t'.rows, t'.partials[n]) {
      assert PartialHolds(t.rows, t.partials[n]);
    }
  }

  /** Dropping a column touches no other column, no row, and no constraint that does not speak of it. */
  lemma DropColumnKeepsTheRest(db: Db, table: string, column: string, d: Db, c: string, n: string)
    requires Exec(db, DropColumn(table, column)) == Some(d) && c != column
    ensures table in db && table in d && forall other :: other != table ==> (other in d <==> other in db) && (other in d ==> d[other] == db[other])
    ensures var t, t' := db[table], d[table];
            && |t'.rows| == |t.rows| && (forall i :: 0 <= i < |t.rows| ==> Get(t'.rows[i], c) == Get(t.rows[i], c))
            && column !in t'.columns && (c in t'.columns <==> c in t.columns) && (c in t'.notNull <==> c in t.notNull)
            && (n in t.uniques && column !in t.uniques[n] ==> n in t'.uniques && t'.uniques[n] == t.uniques[n])
            && (n in t.checks && t.checks[n].column != column ==> n in t'.checks && t'.checks[n] == t.checks[n])
  {
  }

  /** A table that is not there cannot be changed, and no name is given twice. */
  lemma NamesAreExclusive(db: Db, s: Statement)
    requires Exec(db, s).Some?
    ensures s.CreateTable? ==> s.table !in db && Exec(db, s).value == db[s.table := s.blank]
    ensures !s.CreateTable? ==> s.table in db
    ensures s.RenameTable? ==> s.to !in db && s.to in Exec(db, s).value && Exec(db, s).value[s.to] == db[s.table]
    ensures s.AddColumn? ==> s.column !in db[s.table].columns
    ensures s.UpdateColumn? || s.DropColumn? ==> s.column in db[s.table].columns
    ensures s.AddUnique? || s.AddCheck? ==> s.name !in db[s.table].uniques && s.name !in db[s.table].checks
  {
  }

  /** Only dropping a table takes rows away; an insertion puts the selected ones behind. */
  lemma RowsStay(db: Db, s: Statement)
    requires Exec(db, s).Some? && !s.CreateTable? && !s.DropTable? && !s.RenameTable?
    ensures s.table in Exec(db, s).value
    ensures s.InsertSelect? ==>
              && s.source in db && s.needed <= db[s.source].columns
              && Exec(db, s).value[s.table].rows == db[s.table].rows + Selected(db[s.source].rows, s.project, s.keep)
    ensures !s.InsertSelect? ==> |Exec(db, s).value[s.table].rows| == |db[s.table].rows|
  {
  }

  /** A statement that succeeds leaves every constraint satisfied. */
  lemma ExecEnforces(db: Db, s: Statement)
    requires Consistent(db) && Exec(db, s).Some? && (s.CreateTable? ==> Satisfied(s.blank))
    ensures Consistent(Exec(db, s).value)
  {
    if s.DropColumn? {
      DroppedColumnSatisfied(db[s.table], Exec(db, s).value[s.table], s.column);
    }
  }

  /** Statements one after another, as long as they succeed. */
  function ExecAll(db: Db, statements: seq<Statement>): Option<Db>
    decreases |statements|
  {
    if |statements| == 0 then Some(db)
    else match Exec(db, statements[0])
      case None => None
      case Some(next) => ExecAll(next, statements[1..])
  }

  /** SQLite's way to change a table: create a new one, copy, drop the old one, rename. */
  function RebuildStatements(name: string, blank: Table, needed: set<string>, project: Row -> Row, keep: Row -> bool): seq<Statement>
  {
    [ CreateTable(name + "_new", blank),
      InsertSelect(name + "_new", name, needed, project, keep),
      DropTable(name),
      RenameTable(name + "_new", name) ]
  }

  lemma {:induction false} ExecAllConcat(db: Db, a: seq<Statement>, b: seq<Statement>)
    ensures ExecAll(db, a + b) == (match ExecAll(db, a) case None => None case Some(next) => ExecAll(next, b))
    decreases |a|
  {
    if |a| == 0 {
      assert a + b == b;
    } else {
      assert (a + b)[1..] == a[1..] + b;
      match Exec(db, a[0]) {
        case None =>
        case Some(next) => ExecAllConcat(next, a[1..], b);
      }
    }
  }

  /** A rebuild that succeeds replaces exactly one table, by the copied rows under the new
      constraints, and leaves nothing else behind. */
  lemma RebuildResult(db: Db, name: string, blank: Table, needed: set<string>, project: Row -> Row, keep: Row -> bool)
    requires name in db && blank.rows == []
    ensures var copy := blank.(rows := Selected(db[name].rows, project, keep));
            ExecAll(db, RebuildStatements(name, blank, needed, project, keep)) ==
            if name + "_new" !in db && needed <= db[name].columns && Satisfied(copy) then Some(db[name := copy]) else None
  {
    var tmp := name + "_new";
    var ss := RebuildStatements(name, blank, needed, project, keep);
    var copy := blank.(rows := Selected(db[name].rows, project, keep));
    assert tmp != name;
    if tmp !in db {
      var db1 := db[tmp := blank];
      assert Exec(db, ss[0]) == Some(db1);
      assert [] + Selected(db[name].rows, project, keep) == Selected(db[name].rows, project, keep);
      var s1, s2, s3 := ss[1..], ss[1..][1..], ss[1..][1..][1..];
      assert s1[0] == ss[1] && s2[0] == ss[2] && s3[0] == ss[3] && |s3[1..]| == 0;
      if needed <= db[name].columns && Satisfied(copy) {
        var db2 := db1[tmp := copy];
        assert Exec(db1, s1[0]) == Some(db2);
        var db3 := db2 - {name};
        assert Exec(db2, s2[0]) == Some(db3);
        assert (db3 - {tmp})[name := copy] == db[name := copy];
        assert Exec(db3, s3[0]) == Some(db[name := copy]);
        assert ExecAll(db3, s3) == Some(db[name := copy]);
        assert ExecAll(db2, s2) == ExecAll(db3, s3);
      }
    }
  }
}
