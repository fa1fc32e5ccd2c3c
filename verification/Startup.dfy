/**
 `DatabaseInitializationService`: brings the system tables, their fields, the
 administrator role and its permission rows into being, call by call. Any call
 may fail; which ones do is a parameter. A call that fails changes nothing.
 */
module Startup {
  import opened Wrappers
  import opened Store

  datatype Kind = SingleLineText | Email | LongText | Checkbox | Number | DateTime | Links | LinkToAnotherRecord
      | OtherKind

  datatype Field = Field(title: string, kind: Kind)

  /** The system tables by logical name, and their rows. */
  datatype Base = Base(tables: map<SystemTable, seq<Field>>, rows: Store)

  /** `calls` numbers the calls to NocoDB; call k fails if `fails(k)`. */
  datatype World = State(base: Base, calls: nat)

  type Faults = nat -> bool

  const SYSTEM_TABLES: seq<SystemTable> := [Users, Roles, UserRoles, TablePermissions]

  const ALL_ACTIONS := Flags(true, true, true, true)

  function NameOf(t: SystemTable): string {
    match t
    case Users => "users"
    case Roles => "roles"
    case UserRoles => "user_roles"
    case TablePermissions => "table_permissions"
  }

  function FieldsOf(t: SystemTable): seq<Field> {
    match t
    case Users => [Field("username", SingleLineText), Field("email", Email), Field("password_hash", LongText),
                   Field("is_active", Checkbox), Field("auth_provider", SingleLineText),
                   Field("external_subject", SingleLineText)]
    case Roles => [Field("role_name", SingleLineText), Field("description", LongText),
                   Field("is_system_role", Checkbox)]
    case UserRoles => [Field("user_id", Number), Field("role_id", Number), Field("assigned_at", DateTime)]
    case TablePermissions => [Field("role_id", Number), Field("table_name", SingleLineText),
                              Field("can_create", Checkbox), Field("can_read", Checkbox),
                              Field("can_update", Checkbox), Field("can_delete", Checkbox)]
  }

  function LegacyLinkFields(t: SystemTable): set<string> {
    match t
    case UserRoles => {"user", "role"}
    case TablePermissions => {"role"}
    case _ => {}
  }

  predicate IsLink(k: Kind) {
    k == Links || k == LinkToAnotherRecord
  }

  predicate IsLegacy(t: SystemTable, fields: seq<Field>) {
    exists i :: 0 <= i < |fields| && IsLink(fields[i].kind) && fields[i].title in LegacyLinkFields(t)
  }

  function Titles(fields: seq<Field>): set<string> {
    set i | 0 <= i < |fields| :: fields[i].title
  }

  // ── Tables and fields ─────────────────────────────────────────────────────

  function Called(w: World): World {
    w.(calls := w.calls + 1)
  }

  function AddField(fails: Faults, w: World, t: SystemTable, field: Field): World
    requires t in w.base.tables
  {
    if fails(w.calls) then Called(w)
    else Called(w.(base := w.base.(tables := w.base.tables[t := w.base.tables[t] + [field]])))
  }

  /** One create call for each field whose title the metadata did not list. */
  function AddMissing(fails: Faults, w: World, t: SystemTable, existing: set<string>, fields: seq<Field>): (r: World)
    requires t in w.base.tables
    ensures t in r.base.tables
  {
    if fields == [] then w else
      var before := AddMissing(fails, w, t, existing, fields[..|fields| - 1]);
      var field := fields[|fields| - 1];
      if field.title in existing then before else AddField(fails, before, t, field)
  }

  /** How a step ends: with the table, without it (`null`), or by an exception. */
  datatype End = Ready | NoTable | Thrown

  datatype Ended = Ended(world: World, end: End)

  function EnsureFields(fails: Faults, w: World, t: SystemTable, fields: seq<Field>): World
    requires t in w.base.tables
  {
    if fails(w.calls) then Called(w)
    else AddMissing(fails, Called(w), t, Titles(w.base.tables[t]), fields)
  }

  function EnsureTable(fails: Faults, w: World, t: SystemTable): Ended {
    var looked := Called(w);
    if fails(w.calls) then Ended(looked, Thrown)
    else if t in w.base.tables then
      if LegacyLinkFields(t) == {} then Ended(EnsureFields(fails, looked, t, FieldsOf(t)), Ready)
      else if fails(looked.calls) || IsLegacy(t, w.base.tables[t]) then Ended(Called(looked), Thrown)
      else Ended(EnsureFields(fails, Called(looked), t, FieldsOf(t)), Ready)
    else if fails(looked.calls) then Ended(Called(looked), NoTable)
    else Ended(Called(looked.(base := w.base.(tables := w.base.tables[t := FieldsOf(t)]))), Ready)
  }

  function EnsureTables(fails: Faults, w: World, ts: seq<SystemTable>): Ended {
    if ts == [] then Ended(w, Ready) else
      var before := EnsureTables(fails, w, ts[..|ts| - 1]);
      if before.end != Ready then before else EnsureTable(fails, before.world, ts[|ts| - 1])
  }

  // ── Seeding ───────────────────────────────────────────────────────────────

  /** A step of the seeding, and whether it got through. */
  datatype Seeded = Seeded(world: World, ok: bool)

  function EnsureRow(fails: Faults, w: World, role: nat, t: SystemTable): Seeded {
    var found := Called(w);
    if fails(w.calls) || fails(found.calls) then
      Seeded(if fails(w.calls) then found else Called(found), false)
    else
      var rows := w.base.rows;
      var i := FindPermission(rows.permissions, role, NameOf(t));
      var rows' :=
        if i.Some? && rows.permissions[i.value].id != 0
        then rows.(permissions :=
            UpdatePermissionById(rows.permissions, rows.permissions[i.value].id, role, NameOf(t), ALL_ACTIONS))
        else InsertPermission(rows, role, NameOf(t), ALL_ACTIONS);
      Seeded(Called(found.(base := w.base.(rows := rows'))), true)
  }

  function EnsureRows(fails: Faults, w: World, role: nat, ts: seq<SystemTable>): Seeded {
    if ts == [] then Seeded(w, true) else
      var before := EnsureRows(fails, w, role, ts[..|ts| - 1]);
      if !before.ok then before else EnsureRow(fails, before.world, role, ts[|ts| - 1])
  }

  /** The administrator role, found or created. */
  datatype AdminRole = AdminRole(world: World, id: Option<nat>)

  function EnsureAdminRole(fails: Faults, w: World): AdminRole {
    if fails(w.calls) then AdminRole(Called(w), None) else
      var listed := Called(w);
      var i := FindRole(w.base.rows.roles, "admin");
      if i.Some? then AdminRole(listed, Some(w.base.rows.roles[i.value].id))
      else if fails(listed.calls) then AdminRole(Called(listed), None)
      else AdminRole(Called(listed.(base := w.base.(rows := InsertRole(w.base.rows, "admin")))),
          Some(w.base.rows.nextRole))
  }

  /** Every exception of the seeding is caught. */
  function Seed(fails: Faults, w: World): World {
    if fails(w.calls) then Called(w)
    else if fails(w.calls + 1) || Roles !in w.base.tables || TablePermissions !in w.base.tables then Called(Called(w))
    else
      var admin := EnsureAdminRole(fails, Called(Called(w)));
      if admin.id.None? then admin.world else EnsureRows(fails, admin.world, admin.id.value, SYSTEM_TABLES).world
  }

  function Initialize(fails: Faults, w: World): Ended {
    var tables := EnsureTables(fails, w, SYSTEM_TABLES);
    if tables.end != Ready then tables else Ended(Seed(fails, tables.world), Ready)
  }

  // ── The service ───────────────────────────────────────────────────────────

  class DatabaseInitializationService {
    const fails: Faults
    var base: Base
    var calls: nat

    constructor (base: Base, fails: Faults)
      ensures this.base == base && this.fails == fails && calls == 0
    {
      this.base := base;
      this.fails := fails;
      calls := 0;
    }

    function World(): World
      reads this
    {
      State(base, calls)
    }

    /** A call to NocoDB that only reads. */
    method Read() returns (ok: bool)
      modifies this`calls
      ensures World() == Called(old(World())) && ok == !fails(old(calls))
    {
      ok := !fails(calls);
      calls := calls + 1;
    }

    method CreateColumn(t: SystemTable, field: Field)
      requires t in base.tables
      modifies this
      ensures World() == AddField(fails, old(World()), t, field)
    {
      if !fails(calls) {
        base := base.(tables := base.tables[t := base.tables[t] + [field]]);
      }
      calls := calls + 1;
    }

    method EnsureFieldsExist(t: SystemTable, fields: seq<Field>)
      requires t in base.tables
      modifies this
      ensures World() == EnsureFields(fails, old(World()), t, fields)
    {
      var ok := Read();
      if !ok { return; }
      var existing := Titles(base.tables[t]);
      ghost var start := World();
      for i := 0 to |fields|
        invariant t in base.tables && World() == AddMissing(fails, start, t, existing, fields[..i])
      {
        assert fields[..i + 1][..i] == fields[..i];
        if fields[i].title in existing { continue; }
        CreateColumn(t, fields[i]);
      }
      assert fields[..|fields|] == fields;
    }

    method EnsureTableExists(t: SystemTable) returns (end: End)
      modifies this
      ensures Ended(World(), end) == EnsureTable(fails, old(World()), t)
    {
      var ok := Read();
      if !ok { return Thrown; }
      if t in base.tables {
        if LegacyLinkFields(t) != {} {
          ok := Read();
          if !ok || IsLegacy(t, base.tables[t]) { return Thrown; }
        }
        EnsureFieldsExist(t, FieldsOf(t));
        return Ready;
      }
      ok := Read();
      if !ok { return NoTable; }
      base := base.(tables := base.tables[t := FieldsOf(t)]);
      return Ready;
    }

    method InitializeTables() returns (end: End)
      modifies this
      ensures Ended(World(), end) == Initialize(fails, old(World()))
    {
      ghost var start := World();
      for i := 0 to |SYSTEM_TABLES|
        invariant Ended(World(), Ready) == EnsureTables(fails, start, SYSTEM_TABLES[..i])
      {
        end := EnsureTableExists(SYSTEM_TABLES[i]);
        assert SYSTEM_TABLES[..i + 1][..i] == SYSTEM_TABLES[..i];
        if end != Ready {
          EnsureTablesStops(fails, start, SYSTEM_TABLES, i + 1);
          return;
        }
      }
      assert SYSTEM_TABLES[..|SYSTEM_TABLES|] == SYSTEM_TABLES;
      SeedDefaultPermissions();
      end := Ready;
    }

    method SeedDefaultPermissions()
      modifies this
      ensures World() == Seed(fails, old(World()))
    {
      var ok := Read();
      if !ok { return; }
      ok := Read();
      if !ok || Roles !in base.tables || TablePermissions !in base.tables { return; }
      ok := Read();
      if !ok { return; }
      var i := FindRole(base.rows.roles, "admin");
      var role: nat;
      if i.Some? {
        role := base.rows.roles[i.value].id;
      } else {
        role := base.rows.nextRole;
        ok := Read();
        if !ok { return; }
        base := base.(rows := InsertRole(base.rows, "admin"));
      }
      ok := EnsureAdminPermissions(role);
    }

    method EnsureAdminPermissions(role: nat) returns (ok: bool)
      modifies this
      ensures Seeded(World(), ok) == EnsureRows(fails, old(World()), role, SYSTEM_TABLES)
    {
      ghost var start := World();
      for i := 0 to |SYSTEM_TABLES|
        invariant Seeded(World(), true) == EnsureRows(fails, start, role, SYSTEM_TABLES[..i])
      {
        assert SYSTEM_TABLES[..i + 1][..i] == SYSTEM_TABLES[..i];
        ok := EnsureAdminPermission(role, SYSTEM_TABLES[i]);
        if !ok {
          EnsureRowsStops(fails, start, role, SYSTEM_TABLES, i + 1);
          return;
        }
      }
      assert SYSTEM_TABLES[..|SYSTEM_TABLES|] == SYSTEM_TABLES;
      ok := true;
    }

    /** The body of that loop: find, then update or create. */
    method EnsureAdminPermission(role: nat, t: SystemTable) returns (ok: bool)
      modifies this
      ensures Seeded(World(), ok) == EnsureRow(fails, old(World()), role, t)
    {
      ok := Read();
      if !ok { return; }
      var rows := base.rows;
      var i := FindPermission(rows.permissions, role, NameOf(t));
      ok := Read();
      if !ok { return; }
      if i.Some? && rows.permissions[i.value].id != 0 {
        rows := rows.(permissions :=
            UpdatePermissionById(rows.permissions, rows.permissions[i.value].id, role, NameOf(t), ALL_ACTIONS));
      } else {
        rows := InsertPermission(rows, role, NameOf(t), ALL_ACTIONS);
      }
      base := base.(rows := rows);
    }
  }

  lemma {:induction false} EnsureTablesStops(fails: Faults, w: World, ts: seq<SystemTable>, n: nat)
    requires n <= |ts| && EnsureTables(fails, w, ts[..n]).end != Ready
    ensures EnsureTables(fails, w, ts) == EnsureTables(fails, w, ts[..n])
  {
    if n == |ts| {
      assert ts[..n] == ts;
    } else {
      assert ts[..|ts| - 1][..n] == ts[..n];
      EnsureTablesStops(fails, w, ts[..|ts| - 1], n);
    }
  }

  lemma {:induction false} EnsureRowsStops(fails: Faults, w: World, role: nat, ts: seq<SystemTable>, n: nat)
    requires n <= |ts| && !EnsureRows(fails, w, role, ts[..n]).ok
    ensures EnsureRows(fails, w, role, ts) == EnsureRows(fails, w, role, ts[..n])
  {
    if n == |ts| {
      assert ts[..n] == ts;
    } else {
      assert ts[..|ts| - 1][..n] == ts[..n];
      EnsureRowsStops(fails, w, role, ts[..|ts| - 1], n);
    }
  }
}
