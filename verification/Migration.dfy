/** `_migrate_db` of `backend/db/database.py`: the statements of each block, decided by looking at
    the schema first, for both SQL dialects. */
module Migration {
  import opened Text
  import opened Schema

  datatype Dialect = Sqlite | Postgres

  // ── missing columns ────────────────────────────────────────────────────────

  datatype Missing = Missing(table: string, column: string, default: Value, isNotNull: bool)

  /** The column list widens no table that a later block rebuilds, but for the node column that the
      rebuilt assignments have too; a NOT NULL column comes with a default. */
  predicate Fits(m: Missing)
  {
    && m.table != ANNOUNCEMENTS && m.table != PINS && (m.table == ASSIGNMENTS ==> m.column == "portal_node_id")
    && (m.isNotNull ==> m.default != Null)
  }

  type FittingColumn = m: Missing | Fits(m) witness Missing("jobs", "pool_id", Null, false)

  function Extra(table: string, column: string, default: Value, isNotNull: bool): FittingColumn
    requires Fits(Missing(table, column, default, isNotNull))
  {
    Missing(table, column, default, isNotNull)
  }

  const MISSING: seq<FittingColumn> := [
    Extra("local_users", "must_change_password", Int(0), true),
    Extra("local_users", "last_login_at", Null, false),
    Extra("local_users", "last_login_ip", Null, false),
    Extra("local_users", "portal_permissions", Str("[]"), true),
    Extra("local_users", "api_keys_enabled", Int(0), true),
    Extra("local_users", "api_keys_allowed_scopes", Null, false),
    Extra("local_users", "api_keys_max_count", Null, false),
    Extra("local_users", "totp_secret", Null, false),
    Extra("local_users", "totp_pending_secret", Null, false),
    Extra("local_users", "totp_enabled", Int(0), true),
    Extra("local_users", "totp_recovery_codes", Null, false),
    Extra("user_profiles", "theme_preference", Null, false),
    Extra("user_profiles", "lang_preference", Null, false),
    Extra("nodes", "viewer_token_id", Str(""), true),
    Extra("nodes", "viewer_token_secret", Str(""), true),
    Extra("nodes", "operator_token_id", Str(""), true),
    Extra("nodes", "operator_token_secret", Str(""), true),
    Extra("nodes", "admin_token_id", Str(""), true),
    Extra("nodes", "admin_token_secret", Str(""), true),
    Extra("nodes", "packer_token_id", Str(""), true),
    Extra("nodes", "packer_token_secret", Str(""), true),
    Extra("nodes", "tofu_token_id", Str(""), true),
    Extra("nodes", "tofu_token_secret", Str(""), true),
    Extra("jobs", "api_key_id", Null, false),
    Extra("jobs", "callback_url", Null, false),
    Extra("nodes", "cluster_nodes", Str(""), true),
    Extra("nodes", "poll_interval", Int(30), true),
    Extra("nodes", "position", Int(0), true),
    Extra("user_profiles", "ssh_private_key_enc", Null, false),
    Extra("role_presets", "node_actions", Str("[]"), true),
    Extra("jobs", "auto_owner_user_id", Null, false),
    Extra("jobs", "deploy_category", Null, false),
    Extra("jobs", "pool_id", Null, false),
    Extra("jobs", "ansible_manage", Null, false),
    Extra("jobs", "ansible_global_opt_in", Null, false),
    Extra("external_api_log", "user_id", Null, false),
    Extra("external_api_log", "auth_kind", Str("m2m"), true),
    Extra("external_api_log", "endpoint_class", Str("v1"), true),
    Extra("user_api_keys", "first_used_at", Null, false),
    Extra("user_notification_settings", "webhook_token", Null, false),
    Extra("user_notification_settings", "webhook_receiver_type", Str("custom"), false),
    Extra("alert_rules", "webhook_receiver_type", Str("custom"), false),
    Extra("alert_rules", "webhook_verify_ssl", Int(1), true),
    Extra("user_notification_settings", "webhook_verify_ssl", Int(1), true),
    Extra("alert_events", "vm_type", Str("qemu"), true),
    Extra("alert_events", "proxmox_node", Str(""), true),
    Extra("resource_assignments", "portal_node_id", Null, false)
  ]

  predicate HasColumn(db: Db, table: string, column: string) { table in db && column in db[table].columns }

  /** The column loop: inspect, then add what is not there. */
  function AddMissing(db: Db, missing: seq<Missing>): Option<Db>
  {
    if missing == [] then Some(db)
    else
      var m := missing[0];
      if HasColumn(db, m.table, m.column) then AddMissing(db, missing[1..])
      else match Exec(db, AddColumn(m.table, m.column, m.default, m.isNotNull))
        case None => None
        case Some(next) => AddMissing(next, missing[1..])
  }

  // ── announcements: type becomes severity ───────────────────────────────────

  const ANNOUNCEMENTS := "announcements"
  const SHARED_ANNOUNCEMENT_COLUMNS: set<string> :=
    {"id", "message", "active", "expires_at", "created_by", "created_at", "updated_at"}
  const SEVERITIES: set<string> := {"info", "warn", "critical", "success"}

  /** The CASE expression over the old type. */
  function SeverityOf(t: Value): Value
  {
    if t == Str("info") then Str("info")
    else if t == Str("warn") then Str("warn")
    else if t == Str("error") then Str("critical")
    else Str("info")
  }

  function NewAnnouncement(r: Row): Row
  {
    map c | c in SHARED_ANNOUNCEMENT_COLUMNS + {"severity"} ::
      if c == "severity" then SeverityOf(Get(r, "type")) else Get(r, c)
  }

  function TypeToSeverity(r: Row): Value { SeverityOf(Get(r, "type")) }

  predicate KeepAll(r: Row) { true }

  const NEW_ANNOUNCEMENTS := Table(
    SHARED_ANNOUNCEMENT_COLUMNS + {"severity"}, [],
    {"id", "message", "severity", "active", "created_by", "created_at", "updated_at"},
    map["PRIMARY KEY" := {"id"}],
    map["ck_announcements_severity" := Check("severity", SEVERITIES)], map[], {})

  predicate AnnouncementsNeedMigration(db: Db)
  {
    HasColumn(db, ANNOUNCEMENTS, "type") && !HasColumn(db, ANNOUNCEMENTS, "severity")
  }

  function AnnouncementStatements(dialect: Dialect, db: Db): seq<Statement>
  {
    var index := [CreateIndexIfNotExists(ANNOUNCEMENTS, "idx_announcements_active")];
    if !AnnouncementsNeedMigration(db) then []
    else if dialect == Sqlite then
      RebuildStatements(ANNOUNCEMENTS, NEW_ANNOUNCEMENTS, SHARED_ANNOUNCEMENT_COLUMNS + {"type"}, NewAnnouncement, KeepAll) + index
    else
      [ AddColumn(ANNOUNCEMENTS, "severity", Str("info"), true),
        UpdateColumn(ANNOUNCEMENTS, "severity", TypeToSeverity),
        DropColumn(ANNOUNCEMENTS, "type") ] + index
  }

  // ── resource_assignments: the node joins the unique constraint ─────────────

  const ASSIGNMENTS := "resource_assignments"
  const UQ_ASSIGNMENTS := "uq_resource_assignments"
  const UQ_NO_NODE := "uq_resource_assignments_no_node"
  const OLD_KEY: set<string> := {"user_id", "resource_type", "resource_id"}
  const NEW_KEY: set<string> := {"user_id", "resource_type", "portal_node_id", "resource_id"}
  const NO_NODE := Partial(OLD_KEY, "portal_node_id")
  const ASSIGNMENT_COLUMNS: set<string> :=
    {"id", "user_id", "resource_type", "resource_id", "portal_node_id", "preset_id", "created_at", "created_by"}

  function Project(columns: set<string>, r: Row): Row { map c | c in columns :: Get(r, c) }

  function NewAssignment(r: Row): Row { Project(ASSIGNMENT_COLUMNS, r) }

  const NEW_ASSIGNMENTS := Table(
    ASSIGNMENT_COLUMNS, [], ASSIGNMENT_COLUMNS - {"portal_node_id"},
    map["PRIMARY KEY" := {"id"}, UQ_ASSIGNMENTS := NEW_KEY],
    map["ck_resource_assignments_type" := Check("resource_type", {"vm", "lxc"})], map[], {})

  predicate AssignmentsNeedMigration(db: Db)
  {
    ASSIGNMENTS in db && exists n :: n in db[ASSIGNMENTS].uniques && db[ASSIGNMENTS].uniques[n] == OLD_KEY
  }

  function AssignmentStatements(dialect: Dialect, db: Db): seq<Statement>
  {
    if !AssignmentsNeedMigration(db) then []
    else if dialect == Sqlite then
      RebuildStatements(ASSIGNMENTS, NEW_ASSIGNMENTS, ASSIGNMENT_COLUMNS, NewAssignment, KeepAll)
      + [ CreateIndexIfNotExists(ASSIGNMENTS, "idx_resource_assignments_user_id"),
          CreateIndexIfNotExists(ASSIGNMENTS, "idx_resource_assignments_preset_id") ]
    else
      [ DropConstraintIfExists(ASSIGNMENTS, UQ_ASSIGNMENTS), AddUnique(ASSIGNMENTS, UQ_ASSIGNMENTS, NEW_KEY) ]
  }

  function PartialIndexStatements(): seq<Statement>
  {
    [ CreateUniqueIndexIfNotExists(ASSIGNMENTS, UQ_NO_NODE, NO_NODE) ]
  }

  // ── user_sidebar_pins: one more kind ───────────────────────────────────────

  const PINS := "user_sidebar_pins"
  const CK_PINS := "ck_sidebar_pins_kind"
  const OLD_PIN_KINDS: set<string> :=
    {"system_settings_tab", "system_settings_sub_tab", "vm", "lxc", "node", "pool", "group", "other"}
  const PIN_KINDS: set<string> := OLD_PIN_KINDS + {"node_tab"}
  const PIN_COLUMNS: set<string> := {"id", "user_id", "route", "label", "position", "pin_kind", "resource_ref", "created_at"}

  function NewPin(r: Row): Row { Project(PIN_COLUMNS, r) }

  const NEW_PINS := Table(
    PIN_COLUMNS, [], PIN_COLUMNS - {"label", "resource_ref"},
    map["PRIMARY KEY" := {"id"}, "UNIQUE (user_id, route)" := {"user_id", "route"}],
    map[CK_PINS := Check("pin_kind", PIN_KINDS)], map[], {})

  predicate OldPinKind(r: Row) { Get(r, "pin_kind").Str? && Get(r, "pin_kind").s in OLD_PIN_KINDS }

  /** SQLite looks for 'node_tab' in the table's DDL, PostgreSQL in the named constraint. */
  predicate PinsNeedMigration(dialect: Dialect, db: Db)
  {
    HasColumn(db, PINS, "pin_kind") &&
    if dialect == Sqlite then forall n :: n in db[PINS].checks ==> "node_tab" !in db[PINS].checks[n].allowed
    else CK_PINS !in db[PINS].checks || "node_tab" !in db[PINS].checks[CK_PINS].allowed
  }

  function PinStatements(dialect: Dialect, db: Db): seq<Statement>
  {
    if !PinsNeedMigration(dialect, db) then []
    else if dialect == Sqlite then
      RebuildStatements(PINS, NEW_PINS, PIN_COLUMNS, NewPin, OldPinKind)
    else
      [ DropConstraintIfExists(PINS, CK_PINS), AddCheck(PINS, CK_PINS, Check("pin_kind", PIN_KINDS)) ]
  }

  // ── the whole migration ────────────────────────────────────────────────────

  datatype Block = Announcements | Assignments | PartialIndex | Pins

  function BlockStatements(dialect: Dialect, db: Db, b: Block): seq<Statement>
  {
    match b
    case Announcements => AnnouncementStatements(dialect, db)
    case Assignments => AssignmentStatements(dialect, db)
    case PartialIndex => PartialIndexStatements()
    case Pins => PinStatements(dialect, db)
  }

  function RunBlock(dialect: Dialect, db: Option<Db>, b: Block): Option<Db>
  {
    if db.None? then None else ExecAll(db.value, BlockStatements(dialect, db.value, b))
  }

  /** `_migrate_db` when every statement succeeds; `None` if one fails. */
  function Migrate(dialect: Dialect, missing: seq<Missing>, db: Db): Option<Db>
  {
    RunBlock(dialect, RunBlock(dialect, RunBlock(dialect, RunBlock(dialect,
      AddMissing(db, missing), Announcements), Assignments), PartialIndex), Pins)
  }
}
