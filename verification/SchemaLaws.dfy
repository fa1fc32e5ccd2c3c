/** What a started base means to the rest: who may do what, and which fields the lookups find. */
module SchemaLaws {
  import opened Wrappers
  import Permissions
  import opened Store
  import opened Startup
  import opened StartupLaws
  import Queries

  // ── The administrator ─────────────────────────────────────────────────────

  /** The base as the permission service sees it. */
  function StoreOf(b: Base): Store {
    b.rows.(present := b.tables.Keys)
  }

  /** The user is assigned the first role named "admin". */
  ghost predicate IsAdmin(b: Base, user: int) {
    exists a, i :: a in b.rows.assignments && 0 <= i < |b.rows.roles| && IsFirstAdmin(b, i)
                   && a.userId == Some(user) && a.roleId == Some(b.rows.roles[i].id) && b.rows.roles[i].id > 0
  }

  predicate IsFirstAdmin(b: Base, i: nat)
    requires i < |b.rows.roles|
  {
    b.rows.roles[i].name == Some("admin") && forall j :: 0 <= j < i ==> b.rows.roles[j].name != Some("admin")
  }

  ghost predicate MayDoAll(b: Base, user: int, table: string) {
    && Permissions.Granted(StoreOf(b), user, table, Create)
    && Permissions.Granted(StoreOf(b), user, table, Read)
    && Permissions.Granted(StoreOf(b), user, table, Update)
    && Permissions.Granted(StoreOf(b), user, table, Delete)
  }

  ghost predicate RulesTheTables(b: Base, user: int) {
    && MayDoAll(b, user, "users") && MayDoAll(b, user, "roles")
    && MayDoAll(b, user, "user_roles") && MayDoAll(b, user, "table_permissions")
  }

  lemma FullRowGrants(b: Base, user: int, t: SystemTable, table: string, action: Action)
    requires Complete(b) && IsAdmin(b, user) && table == NameOf(t) && table != ""
    ensures Permissions.Granted(StoreOf(b), user, table, action)
  {
    var a, i :| a in b.rows.assignments && 0 <= i < |b.rows.roles| && IsFirstAdmin(b, i)
                && a.userId == Some(user) && a.roleId == Some(b.rows.roles[i].id) && b.rows.roles[i].id > 0;
    assert FindRole(b.rows.roles, "admin") == Some(i);
    assert FullRow(b.rows.permissions, AdminId(b.rows), t);
    var k := FindPermission(b.rows.permissions, AdminId(b.rows), table).value;
    assert b.rows.permissions[k] in b.rows.permissions && b.rows.roles[i] in b.rows.roles;
    assert TableComplete(b, Users) && TableComplete(b, Roles) && TableComplete(b, UserRoles)
           && TableComplete(b, TablePermissions);
    assert Permissions.Chain(a, b.rows.roles[i], b.rows.permissions[k], user, table, action);
  }

  lemma AdminMayDoAll(b: Base, user: int, t: SystemTable, table: string)
    requires Complete(b) && IsAdmin(b, user) && table == NameOf(t) && table != ""
    ensures MayDoAll(b, user, table)
  {
    FullRowGrants(b, user, t, table, Create);
    FullRowGrants(b, user, t, table, Read);
    FullRowGrants(b, user, t, table, Update);
    FullRowGrants(b, user, t, table, Delete);
  }

  /** In a complete base the administrator may do everything on the system tables. */
  lemma AdminRules(b: Base, user: int)
    requires Complete(b) && IsAdmin(b, user)
    ensures RulesTheTables(b, user)
  {
    AdminMayDoAll(b, user, Users, "users");
    AdminMayDoAll(b, user, Roles, "roles");
    AdminMayDoAll(b, user, UserRoles, "user_roles");
    AdminMayDoAll(b, user, TablePermissions, "table_permissions");
  }

  /**
   After any starts with any failures, one start without failures on a schema
   without legacy links, and any later starts: there is a role named "admin", and
   every user who holds it may create, read, update and delete in all four tables.
   */
  lemma StartedAdminRules(b: Base, before: seq<Faults>, clean: Faults, after: seq<Faults>, user: int)
    requires RowsOk(b.rows) && !HasOldLinks(b) && NoFaults(clean, 0)
    ensures var r := Restarts(b, before + [clean] + after);
            && (exists i :: 0 <= i < |r.rows.roles| && IsFirstAdmin(r, i))
            && (IsAdmin(r, user) ==> RulesTheTables(r, user))
  {
    OldLinksAreLegacy(b);
    StartupConverges(b, before, clean, after);
    var r := Restarts(b, before + [clean] + after);
    assert IsFirstAdmin(r, FindRole(r.rows.roles, "admin").value);
    if IsAdmin(r, user) {
      AdminRules(r, user);
    }
  }

  // ── Legacy links ──────────────────────────────────────────────────────────

  predicate IsOldLink(t: SystemTable, f: Field) {
    && (f.kind == Links || f.kind == LinkToAnotherRecord)
    && ((t == UserRoles && (f.title == "user" || f.title == "role")) || (t == TablePermissions && f.title == "role"))
  }

  /** A table carries a link field of the schema up to 0.7.x. */
  ghost predicate HasOldLinks(b: Base) {
    exists t, f :: t in b.tables && f in b.tables[t] && IsOldLink(t, f)
  }

  lemma OldLinkIsLegacy(t: SystemTable, fields: seq<Field>)
    ensures IsLegacy(t, fields) <==> exists f :: f in fields && IsOldLink(t, f)
  {
    if f :| f in fields && IsOldLink(t, f) {
      var i :| 0 <= i < |fields| && fields[i] == f;
      assert IsLink(fields[i].kind) && fields[i].title in LegacyLinkFields(t);
    }
    if i :| 0 <= i < |fields| && IsLink(fields[i].kind) && fields[i].title in LegacyLinkFields(t) {
      assert fields[i] in fields && IsOldLink(t, fields[i]);
    }
  }

  lemma OldLinksAreLegacy(b: Base)
    ensures HasOldLinks(b) <==> !NonLegacy(b)
  {
    if t, f :| t in b.tables && f in b.tables[t] && IsOldLink(t, f) {
      OldLinkIsLegacy(t, FieldsIn(b, t));
      assert IsLegacy(t, FieldsIn(b, t));
    }
    if t :| IsLegacy(t, FieldsIn(b, t)) {
      OldLinkIsLegacy(t, FieldsIn(b, t));
      assert t in b.tables;
    }
  }

  /** A start without failures throws exactly on a schema with such a field, and else goes through. */
  lemma CleanStartThrowsIff(fails: Faults, w: World)
    requires RowsOk(w.base.rows) && NoFaults(fails, w.calls)
    ensures Initialize(fails, w).end == (if HasOldLinks(w.base) then Thrown else Ready)
  {
    OldLinksAreLegacy(w.base);
    CleanStartCompletesIff(fails, w);
  }

  /** A legacy assignments table also keeps the start from touching the permissions table behind it. */
  lemma TablesBehindAreUntouched(fails: Faults, w: World, f: Field)
    requires UserRoles in w.base.tables && f in w.base.tables[UserRoles] && IsOldLink(UserRoles, f)
    ensures var b := Initialize(fails, w).world.base;
            FieldsIn(b, TablePermissions) == FieldsIn(w.base, TablePermissions)
            && (TablePermissions in b.tables <==> TablePermissions in w.base.tables)
  {
    OldLinkIsLegacy(UserRoles, w.base.tables[UserRoles]);
    EnsureTablesStopAtLegacy(fails, w, SYSTEM_TABLES[..3], UserRoles);
    assert SYSTEM_TABLES[..3] == [Users, Roles, UserRoles] && UserRoles in SYSTEM_TABLES[..3];
    EnsureTablesStops(fails, w, SYSTEM_TABLES, 3);
    ThreeTables(fails, w);
  }

  lemma {:induction false} EnsureTablesLeaves(fails: Faults, w: World, ts: seq<SystemTable>, t: SystemTable)
    requires t !in ts
    ensures var b := EnsureTables(fails, w, ts).world.base;
            FieldsIn(b, t) == FieldsIn(w.base, t) && (t in b.tables <==> t in w.base.tables)
  {
    if ts != [] {
      var front, last := ts[..|ts| - 1], ts[|ts| - 1];
      EnsureTablesLeaves(fails, w, front, t);
      EnsureTableLaw(fails, EnsureTables(fails, w, front).world, last);
    }
  }

  lemma ThreeTables(fails: Faults, w: World)
    ensures var b := EnsureTables(fails, w, SYSTEM_TABLES[..3]).world.base;
            FieldsIn(b, TablePermissions) == FieldsIn(w.base, TablePermissions)
            && (TablePermissions in b.tables <==> TablePermissions in w.base.tables)
  {
    EnsureTablesLeaves(fails, w, SYSTEM_TABLES[..3], TablePermissions);
  }

  // ── How a start ends ──────────────────────────────────────────────────────

  /** A failing lookup of a table throws; a failing creation ends the start without seeding. */
  lemma FaultsEndTheStart(fails: Faults, w: World, t: SystemTable)
    ensures fails(w.calls) ==> EnsureTable(fails, w, t).end == Thrown && EnsureTable(fails, w, t).world.base == w.base
    ensures !fails(w.calls) && t !in w.base.tables && fails(w.calls + 1) ==>
              EnsureTable(fails, w, t).end == NoTable && EnsureTable(fails, w, t).world.base == w.base
    ensures !fails(w.calls) && t in w.base.tables && t != UserRoles && t != TablePermissions ==>
              EnsureTable(fails, w, t).end == Ready
    ensures EnsureTables(fails, w, SYSTEM_TABLES).end != Ready ==>
              Initialize(fails, w) == EnsureTables(fails, w, SYSTEM_TABLES)
  {
  }

  // ── Fields ────────────────────────────────────────────────────────────────

  function Defined(t: SystemTable): set<string> {
    Titles(FieldsOf(t))
  }

  /** Every cell the lookups and the join read is a field of the definitions. */
  lemma RecordsFitSchema(a: AssignmentRow, r: RoleRow, p: PermissionRow, u: UserRow)
    ensures Queries.AssignmentRecord(a).Keys <= Defined(UserRoles) + {"Id"}
    ensures Queries.RoleRecord(r).Keys <= Defined(Roles) + {"Id"}
    ensures Queries.PermissionRecord(p).Keys <= Defined(TablePermissions) + {"Id"}
    ensures Queries.UserRecord(u).Keys <= Defined(Users) + {"Id"}
  {
    assert FieldsOf(UserRoles)[0].title == "user_id" && FieldsOf(UserRoles)[1].title == "role_id";
    assert FieldsOf(Roles)[0].title == "role_name";
    assert FieldsOf(TablePermissions)[0].title == "role_id" && FieldsOf(TablePermissions)[1].title == "table_name";
    assert FieldsOf(TablePermissions)[2].title == "can_create" && FieldsOf(TablePermissions)[3].title == "can_read";
    assert FieldsOf(TablePermissions)[4].title == "can_update" && FieldsOf(TablePermissions)[5].title == "can_delete";
    assert FieldsOf(Users)[0].title == "username" && FieldsOf(Users)[1].title == "email";
    assert FieldsOf(Users)[4].title == "auth_provider" && FieldsOf(Users)[5].title == "external_subject";
  }

  lemma CompleteTableFits(b: Base, t: SystemTable)
    requires Complete(b)
    ensures t in b.tables && Defined(t) <= Titles(b.tables[t])
  {
    assert TableComplete(b, t);
    DefinedAreTitles(FieldsOf(t), Titles(b.tables[t]));
  }

  /** So after a start without failures the tables have all of them. */
  lemma StartedTablesFit(fails: Faults, w: World, a: AssignmentRow, r: RoleRow, p: PermissionRow, u: UserRow)
    requires RowsOk(w.base.rows) && NoFaults(fails, w.calls) && !HasOldLinks(w.base)
    ensures var b := Initialize(fails, w).world.base;
            && Queries.AssignmentRecord(a).Keys <= Titles(FieldsIn(b, UserRoles)) + {"Id"}
            && Queries.RoleRecord(r).Keys <= Titles(FieldsIn(b, Roles)) + {"Id"}
            && Queries.PermissionRecord(p).Keys <= Titles(FieldsIn(b, TablePermissions)) + {"Id"}
            && Queries.UserRecord(u).Keys <= Titles(FieldsIn(b, Users)) + {"Id"}
  {
    OldLinksAreLegacy(w.base);
    CleanStartCompletesIff(fails, w);
    var b := Initialize(fails, w).world.base;
    CompleteFits(b, a, r, p, u);
  }

  lemma DefinedNames()
    ensures Defined(Users) == {"username", "email", "password_hash", "is_active", "auth_provider", "external_subject"}
    ensures Defined(Roles) == {"role_name", "description", "is_system_role"}
    ensures Defined(UserRoles) == {"user_id", "role_id", "assigned_at"}
    ensures Defined(TablePermissions)
            == {"role_id", "table_name", "can_create", "can_read", "can_update", "can_delete"}
  {
    var u, r, a, p := FieldsOf(Users), FieldsOf(Roles), FieldsOf(UserRoles), FieldsOf(TablePermissions);
    assert Defined(Users) == {u[0].title, u[1].title, u[2].title, u[3].title, u[4].title, u[5].title};
    assert Defined(Roles) == {r[0].title, r[1].title, r[2].title};
    assert Defined(UserRoles) == {a[0].title, a[1].title, a[2].title};
    assert Defined(TablePermissions) == {p[0].title, p[1].title, p[2].title, p[3].title, p[4].title, p[5].title};
  }

  /** By name: these are fields the tables then have. */
  lemma StartedTablesHave(fails: Faults, w: World)
    requires RowsOk(w.base.rows) && NoFaults(fails, w.calls) && !HasOldLinks(w.base)
    ensures var b := Initialize(fails, w).world.base;
            && {"username", "email", "password_hash", "is_active", "auth_provider", "external_subject"}
               <= Titles(FieldsIn(b, Users))
            && {"role_name", "description", "is_system_role"} <= Titles(FieldsIn(b, Roles))
            && {"user_id", "role_id", "assigned_at"} <= Titles(FieldsIn(b, UserRoles))
            && {"role_id", "table_name", "can_create", "can_read", "can_update", "can_delete"}
               <= Titles(FieldsIn(b, TablePermissions))
  {
    OldLinksAreLegacy(w.base);
    CleanStartCompletesIff(fails, w);
    DefinedNames();
    var b := Initialize(fails, w).world.base;
    CompleteTableFits(b, Users);
    CompleteTableFits(b, Roles);
    CompleteTableFits(b, UserRoles);
    CompleteTableFits(b, TablePermissions);
  }

  lemma CompleteFits(b: Base, a: AssignmentRow, r: RoleRow, p: PermissionRow, u: UserRow)
    requires Complete(b)
    ensures Queries.AssignmentRecord(a).Keys <= Titles(FieldsIn(b, UserRoles)) + {"Id"}
    ensures Queries.RoleRecord(r).Keys <= Titles(FieldsIn(b, Roles)) + {"Id"}
    ensures Queries.PermissionRecord(p).Keys <= Titles(FieldsIn(b, TablePermissions)) + {"Id"}
    ensures Queries.UserRecord(u).Keys <= Titles(FieldsIn(b, Users)) + {"Id"}
  {
    RecordsFitSchema(a, r, p, u);
    CompleteTableFits(b, Users);
    CompleteTableFits(b, Roles);
    CompleteTableFits(b, UserRoles);
    CompleteTableFits(b, TablePermissions);
  }

  lemma DefinedAreTitles(fields: seq<Field>, have: set<string>)
    requires HasFields(have, fields)
    ensures Titles(fields) <= have
  {
    forall title | title in Titles(fields) ensures title in have {
      var i :| 0 <= i < |fields| && fields[i].title == title;
      assert fields[i] in fields;
    }
  }

  /** Relations are numbers and flags are check boxes, so that the lookups can filter and the join can read them. */
  lemma RelationsAreNumbers(t: SystemTable, f: Field)
    requires f in FieldsOf(t)
    ensures f.title == "user_id" || f.title == "role_id" ==> f.kind == Number
    ensures f.title in {"can_create", "can_read", "can_update", "can_delete", "is_active", "is_system_role"} ==>
              f.kind == Checkbox
    ensures f.title in {"username", "auth_provider", "external_subject", "role_name", "table_name"} ==>
              f.kind == SingleLineText
    ensures f.title == "email" ==> f.kind == Email
    ensures f.title in {"password_hash", "description"} ==> f.kind == LongText
    ensures f.title == "assigned_at" ==> f.kind == DateTime
  {
  }
}
