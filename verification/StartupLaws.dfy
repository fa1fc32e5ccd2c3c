/** What starting up does to a base, whichever calls fail, and where it leads. */
module StartupLaws {
  import opened Wrappers
  import opened Store
  import opened Startup

  // ── Tables only grow ──────────────────────────────────────────────────────

  function FieldsIn(b: Base, t: SystemTable): seq<Field> {
    if t in b.tables then b.tables[t] else []
  }

  /** Fields are only appended, and only those of the definition. */
  predicate FieldsGrow(t: SystemTable, a: seq<Field>, b: seq<Field>) {
    |a| <= |b| && b[..|a|] == a && forall i :: |a| <= i < |b| ==> b[i] in FieldsOf(t)
  }

  ghost predicate TablesGrow(a: Base, b: Base) {
    a.tables.Keys <= b.tables.Keys && forall t :: FieldsGrow(t, FieldsIn(a, t), FieldsIn(b, t))
  }

  ghost predicate NonLegacy(b: Base) {
    forall t :: !IsLegacy(t, FieldsIn(b, t))
  }

  predicate HasFields(have: set<string>, fields: seq<Field>) {
    forall f :: f in fields ==> f.title in have
  }

  predicate TableComplete(b: Base, t: SystemTable) {
    t in b.tables && HasFields(Titles(b.tables[t]), FieldsOf(t)) && !IsLegacy(t, b.tables[t])
  }

  ghost predicate NoFaults(fails: Faults, from: nat) {
    forall k: nat :: k >= from ==> !fails(k)
  }

  lemma FieldsGrowTransitive(t: SystemTable, a: seq<Field>, b: seq<Field>, c: seq<Field>)
    requires FieldsGrow(t, a, b) && FieldsGrow(t, b, c)
    ensures FieldsGrow(t, a, c)
  {
    assert c[..|a|] == c[..|b|][..|a|];
    forall i | |a| <= i < |c| ensures c[i] in FieldsOf(t) {
      if i < |b| { assert c[i] == c[..|b|][i]; }
    }
  }

  lemma TablesGrowTransitive(a: Base, b: Base, c: Base)
    requires TablesGrow(a, b) && TablesGrow(b, c)
    ensures TablesGrow(a, c)
  {
    forall t ensures FieldsGrow(t, FieldsIn(a, t), FieldsIn(c, t)) {
      FieldsGrowTransitive(t, FieldsIn(a, t), FieldsIn(b, t), FieldsIn(c, t));
    }
  }

  lemma DefinitionsHaveNoLinks(t: SystemTable, f: Field)
    requires f in FieldsOf(t)
    ensures !IsLink(f.kind)
  {
  }

  lemma GrowthKeepsNonLegacy(t: SystemTable, a: seq<Field>, b: seq<Field>)
    requires FieldsGrow(t, a, b)
    ensures IsLegacy(t, b) <==> IsLegacy(t, a)
  {
    if i :| 0 <= i < |b| && IsLink(b[i].kind) && b[i].title in LegacyLinkFields(t) {
      if i < |a| {
        assert b[..|a|][i] == b[i];
      } else {
        DefinitionsHaveNoLinks(t, b[i]);
      }
    }
    if i :| 0 <= i < |a| && IsLink(a[i].kind) && a[i].title in LegacyLinkFields(t) {
      assert b[..|a|][i] == b[i];
    }
  }

  // ── Fields ────────────────────────────────────────────────────────────────

  /** The base with the fields of one table replaced. */
  predicate OnlyTable(a: Base, b: Base, t: SystemTable) {
    t in b.tables && b == a.(tables := a.tables[t := b.tables[t]])
  }

  lemma {:induction false} AddMissingLaw(fails: Faults, w: World, t: SystemTable, existing: set<string>,
      fields: seq<Field>)
    requires t in w.base.tables && forall f :: f in fields ==> f in FieldsOf(t)
    ensures var r := AddMissing(fails, w, t, existing, fields);
            r.calls >= w.calls && OnlyTable(w.base, r.base, t) && FieldsGrow(t, w.base.tables[t], r.base.tables[t])
  {
    if fields == [] {
      assert w.base == w.base.(tables := w.base.tables[t := w.base.tables[t]]);
    } else {
      var front, field := fields[..|fields| - 1], fields[|fields| - 1];
      AddMissingLaw(fails, w, t, existing, front);
      var before := AddMissing(fails, w, t, existing, front);
      assert field in fields;
      AddFieldLaw(fails, before, t, field);
      FieldsGrowTransitive(t, w.base.tables[t], before.base.tables[t],
          AddField(fails, before, t, field).base.tables[t]);
    }
  }

  lemma AddFieldLaw(fails: Faults, w: World, t: SystemTable, field: Field)
    requires t in w.base.tables && field in FieldsOf(t)
    ensures var r := AddField(fails, w, t, field);
            && r.calls == w.calls + 1 && OnlyTable(w.base, r.base, t)
            && FieldsGrow(t, w.base.tables[t], r.base.tables[t])
            && (!fails(w.calls) ==> field.title in Titles(r.base.tables[t]))
  {
    var r := AddField(fails, w, t, field);
    if fails(w.calls) {
      assert w.base == w.base.(tables := w.base.tables[t := w.base.tables[t]]);
    } else {
      assert r.base.tables[t][|w.base.tables[t]|] == field;
    }
  }

  lemma TitlesGrow(t: SystemTable, a: seq<Field>, b: seq<Field>)
    requires FieldsGrow(t, a, b)
    ensures Titles(a) <= Titles(b)
  {
    forall title | title in Titles(a) ensures title in Titles(b) {
      var i :| 0 <= i < |a| && a[i].title == title;
      assert b[..|a|][i] == b[i];
    }
  }

  lemma {:induction false} AddMissingCompletes(fails: Faults, w: World, t: SystemTable, existing: set<string>,
      fields: seq<Field>)
    requires t in w.base.tables && (forall f :: f in fields ==> f in FieldsOf(t)) && NoFaults(fails, w.calls)
    requires existing <= Titles(w.base.tables[t])
    ensures HasFields(Titles(AddMissing(fails, w, t, existing, fields).base.tables[t]), fields)
  {
    if fields != [] {
      var front, field := fields[..|fields| - 1], fields[|fields| - 1];
      AddMissingCompletes(fails, w, t, existing, front);
      AddMissingLaw(fails, w, t, existing, front);
      var before := AddMissing(fails, w, t, existing, front);
      TitlesGrow(t, w.base.tables[t], before.base.tables[t]);
      assert field in fields;
      AddFieldLaw(fails, before, t, field);
      TitlesGrow(t, before.base.tables[t], AddField(fails, before, t, field).base.tables[t]);
      assert forall f :: f in fields ==> f in front || f == field;
    }
  }

  lemma {:induction false} AddMissingNothing(fails: Faults, w: World, t: SystemTable, existing: set<string>,
      fields: seq<Field>)
    requires t in w.base.tables && HasFields(existing, fields)
    ensures AddMissing(fails, w, t, existing, fields) == w
  {
    if fields != [] {
      assert fields[|fields| - 1] in fields;
      AddMissingNothing(fails, w, t, existing, fields[..|fields| - 1]);
    }
  }

  lemma EnsureFieldsLaw(fails: Faults, w: World, t: SystemTable)
    requires t in w.base.tables
    ensures var r := EnsureFields(fails, w, t, FieldsOf(t));
            && r.calls > w.calls && OnlyTable(w.base, r.base, t) && FieldsGrow(t, w.base.tables[t], r.base.tables[t])
            && (NoFaults(fails, w.calls) ==> HasFields(Titles(r.base.tables[t]), FieldsOf(t)))
            && (HasFields(Titles(w.base.tables[t]), FieldsOf(t)) ==> r.base == w.base)
  {
    var fields, existing := FieldsOf(t), Titles(w.base.tables[t]);
    if fails(w.calls) {
      assert w.base == w.base.(tables := w.base.tables[t := w.base.tables[t]]);
    } else {
      AddMissingLaw(fails, Called(w), t, existing, fields);
      if NoFaults(fails, w.calls) { AddMissingCompletes(fails, Called(w), t, existing, fields); }
      if HasFields(existing, fields) { AddMissingNothing(fails, Called(w), t, existing, fields); }
    }
  }

  // ── Tables ────────────────────────────────────────────────────────────────

  /** What one table's step does, whichever calls fail. */
  ghost predicate TableStep(fails: Faults, w: World, t: SystemTable, e: Ended) {
    && e.world.calls > w.calls
    && (e.world.base == w.base || OnlyTable(w.base, e.world.base, t))
    && FieldsGrow(t, FieldsIn(w.base, t), FieldsIn(e.world.base, t))
    && (IsLegacy(t, FieldsIn(w.base, t)) ==> e.end == Thrown && e.world.base == w.base)
    && (e.end == Ready ==> t in e.world.base.tables)
    && (NoFaults(fails, w.calls) && !IsLegacy(t, FieldsIn(w.base, t))
       ==> e.end == Ready && TableComplete(e.world.base, t))
    && (TableComplete(w.base, t) ==> e.world.base == w.base)
  }

  lemma TitlesOf(fields: seq<Field>)
    ensures HasFields(Titles(fields), fields)
  {
  }

  lemma EnsureTableLaw(fails: Faults, w: World, t: SystemTable)
    ensures TableStep(fails, w, t, EnsureTable(fails, w, t))
  {
    if fails(w.calls) {
    } else if t in w.base.tables {
      ExistingTableLaw(fails, w, t);
    } else {
      var b := w.base.(tables := w.base.tables[t := FieldsOf(t)]);
      TitlesOf(FieldsOf(t));
      GrowthKeepsNonLegacy(t, [], FieldsOf(t));
    }
  }

  lemma ExistingTableLaw(fails: Faults, w: World, t: SystemTable)
    requires t in w.base.tables && !fails(w.calls)
    ensures TableStep(fails, w, t, EnsureTable(fails, w, t))
  {
    var looked := if LegacyLinkFields(t) == {} then Called(w) else Called(Called(w));
    EnsureFieldsLaw(fails, looked, t);
    GrowthKeepsNonLegacy(t, w.base.tables[t], EnsureFields(fails, looked, t, FieldsOf(t)).base.tables[t]);
  }

  lemma TableStepGrows(fails: Faults, w: World, t: SystemTable, e: Ended)
    requires TableStep(fails, w, t, e)
    ensures TablesGrow(w.base, e.world.base) && e.world.base.rows == w.base.rows
  {
  }

  lemma {:induction false} EnsureTablesGrow(fails: Faults, w: World, ts: seq<SystemTable>)
    ensures var e := EnsureTables(fails, w, ts);
            e.world.calls >= w.calls && TablesGrow(w.base, e.world.base) && e.world.base.rows == w.base.rows
  {
    if ts != [] {
      var front := ts[..|ts| - 1];
      EnsureTablesGrow(fails, w, front);
      var before := EnsureTables(fails, w, front);
      var e := EnsureTable(fails, before.world, ts[|ts| - 1]);
      EnsureTableLaw(fails, before.world, ts[|ts| - 1]);
      TableStepGrows(fails, before.world, ts[|ts| - 1], e);
      TablesGrowTransitive(w.base, before.world.base, e.world.base);
    }
  }

  lemma GrowthKeepsComplete(a: Base, b: Base, t: SystemTable)
    requires TablesGrow(a, b) && TableComplete(a, t)
    ensures TableComplete(b, t)
  {
    TitlesGrow(t, FieldsIn(a, t), FieldsIn(b, t));
    GrowthKeepsNonLegacy(t, FieldsIn(a, t), FieldsIn(b, t));
  }

  lemma GrowthKeepsBaseNonLegacy(a: Base, b: Base)
    requires TablesGrow(a, b)
    ensures NonLegacy(a) <==> NonLegacy(b)
  {
    forall t ensures IsLegacy(t, FieldsIn(a, t)) <==> IsLegacy(t, FieldsIn(b, t)) {
      GrowthKeepsNonLegacy(t, FieldsIn(a, t), FieldsIn(b, t));
    }
  }

  lemma {:induction false} EnsureTablesComplete(fails: Faults, w: World, ts: seq<SystemTable>)
    requires NonLegacy(w.base) && NoFaults(fails, w.calls)
    ensures var e := EnsureTables(fails, w, ts);
            e.end == Ready && forall t :: t in ts ==> TableComplete(e.world.base, t)
  {
    if ts != [] {
      var front, last := ts[..|ts| - 1], ts[|ts| - 1];
      EnsureTablesComplete(fails, w, front);
      EnsureTablesGrow(fails, w, front);
      var before := EnsureTables(fails, w, front);
      GrowthKeepsBaseNonLegacy(w.base, before.world.base);
      var e := EnsureTable(fails, before.world, last);
      EnsureTableLaw(fails, before.world, last);
      TableStepGrows(fails, before.world, last, e);
      forall t | t in ts ensures TableComplete(e.world.base, t) {
        if t in front { GrowthKeepsComplete(before.world.base, e.world.base, t); }
      }
    }
  }

  lemma {:induction false} EnsureTablesNothing(fails: Faults, w: World, ts: seq<SystemTable>)
    requires forall t :: t in ts ==> TableComplete(w.base, t)
    ensures EnsureTables(fails, w, ts).world.base == w.base
  {
    if ts != [] {
      var front, last := ts[..|ts| - 1], ts[|ts| - 1];
      assert last in ts;
      EnsureTablesNothing(fails, w, front);
      EnsureTableLaw(fails, EnsureTables(fails, w, front).world, last);
    }
  }

  /** A legacy table in the list stops the run before or at that table, and the table is not touched. */
  lemma {:induction false} EnsureTablesStopAtLegacy(fails: Faults, w: World, ts: seq<SystemTable>,
      legacy: SystemTable)
    requires IsLegacy(legacy, FieldsIn(w.base, legacy))
    ensures var e := EnsureTables(fails, w, ts);
            && FieldsIn(e.world.base, legacy) == FieldsIn(w.base, legacy)
            && (legacy in ts ==> e.end != Ready)
            && (NoFaults(fails, w.calls) ==> e.end != NoTable)
  {
    if ts != [] {
      var front, last := ts[..|ts| - 1], ts[|ts| - 1];
      EnsureTablesStopAtLegacy(fails, w, front, legacy);
      EnsureTablesGrow(fails, w, front);
      EnsureTableBesideLegacy(fails, EnsureTables(fails, w, front).world, last, legacy);
    }
  }

  lemma EnsureTableBesideLegacy(fails: Faults, w: World, t: SystemTable, legacy: SystemTable)
    requires IsLegacy(legacy, FieldsIn(w.base, legacy))
    ensures var e := EnsureTable(fails, w, t);
            && FieldsIn(e.world.base, legacy) == FieldsIn(w.base, legacy)
            && (t == legacy ==> e.end == Thrown) && (NoFaults(fails, w.calls) ==> e.end != NoTable)
  {
    EnsureTableLaw(fails, w, t);
  }

  // ── Rows ──────────────────────────────────────────────────────────────────

  /** Record ids start at 1 and are never reused. */
  predicate RowsOk(s: Store) {
    UniquePermissionIds(s) && s.nextPermission >= 1 && forall p :: p in s.permissions ==> p.id >= 1
  }

  /** The id of the administrator role, or the one it will get. */
  function AdminId(s: Store): nat {
    var i := FindRole(s.roles, "admin");
    if i.Some? then s.roles[i.value].id else s.nextRole
  }

  predicate IsAdminRow(p: PermissionRow, role: nat) {
    p.roleId == Some(role) && exists t :: p.table == Some(NameOf(t))
  }

  /** Only the administrator's rows for system tables are added, or given all actions. */
  predicate PermissionsGrow(a: seq<PermissionRow>, b: seq<PermissionRow>, role: nat) {
    && |a| <= |b|
    && (forall i :: 0 <= i < |a| ==> b[i] == a[i] || (IsAdminRow(a[i], role) && b[i] == a[i].(flags := ALL_ACTIONS)))
    && (forall i :: |a| <= i < |b| ==> IsAdminRow(b[i], role) && b[i].flags == ALL_ACTIONS)
  }

  predicate AddsAdmin(a: Store, b: Store) {
    && FindRole(a.roles, "admin").None?
    && b.roles == a.roles + [RoleRow(a.nextRole, Some("admin"))] && b.nextRole == a.nextRole + 1
  }

  /** No other row changes, and at most the administrator role is added. */
  predicate RowsGrow(a: Store, b: Store) {
    && b == a.(roles := b.roles, nextRole := b.nextRole, permissions := b.permissions,
       nextPermission := b.nextPermission)
    && (AddsAdmin(a, b) || (b.roles == a.roles && b.nextRole == a.nextRole))
    && PermissionsGrow(a.permissions, b.permissions, AdminId(a))
    && AdminId(b) == AdminId(a)
  }

  predicate FullRow(rows: seq<PermissionRow>, role: nat, t: SystemTable) {
    var i := FindPermission(rows, role, NameOf(t));
    i.Some? && rows[i.value].flags == ALL_ACTIONS
  }

  lemma PermissionsGrowTransitive(a: seq<PermissionRow>, b: seq<PermissionRow>, c: seq<PermissionRow>, role: nat)
    requires PermissionsGrow(a, b, role) && PermissionsGrow(b, c, role)
    ensures PermissionsGrow(a, c, role)
  {
  }

  lemma FlagsDoNotMatter(rows: seq<PermissionRow>, i: nat, flags: Flags, role: nat, table: string)
    requires i < |rows|
    ensures FindPermission(rows[i := rows[i].(flags := flags)], role, table) == FindPermission(rows, role, table)
  {
    var after := rows[i := rows[i].(flags := flags)];
    var x, y := FindPermission(after, role, table), FindPermission(rows, role, table);
    assert forall k :: 0 <= k < |rows| ==> after[k].roleId == rows[k].roleId && after[k].table == rows[k].table;
    if x.Some? {
      assert rows[x.value].roleId == Some(role) && rows[x.value].table == Some(table);
    }
    if y.Some? {
      assert after[y.value].roleId == Some(role) && after[y.value].table == Some(table);
    }
  }

  lemma FindAppended(rows: seq<PermissionRow>, p: PermissionRow, role: nat, table: string)
    ensures FindPermission(rows + [p], role, table)
            == if FindPermission(rows, role, table).Some? then FindPermission(rows, role, table)
               else if p.roleId == Some(role) && p.table == Some(table) then Some(|rows|) else None
  {
    var x, y := FindPermission(rows + [p], role, table), FindPermission(rows, role, table);
    if y.Some? {
      assert (rows + [p])[y.value] == rows[y.value];
      assert x.Some? && x.value <= y.value;
    } else if x.Some? {
      assert x.value >= |rows|;
    } else {
      assert (rows + [p])[|rows|] == p;
    }
  }

  /** What one row's step does, whichever calls fail. */
  predicate RowStep(a: Store, b: Store, role: nat) {
    && b == a.(permissions := b.permissions, nextPermission := b.nextPermission)
    && RowsOk(b) && PermissionsGrow(a.permissions, b.permissions, role)
    && forall t :: FullRow(a.permissions, role, t) ==> FullRow(b.permissions, role, t)
  }

  lemma UpdateRowLaw(s: Store, i: nat, role: nat, t: SystemTable)
    requires RowsOk(s) && FindPermission(s.permissions, role, NameOf(t)) == Some(i)
    ensures var b := s.(permissions :=
            UpdatePermissionById(s.permissions, s.permissions[i].id, role, NameOf(t), ALL_ACTIONS));
            && RowStep(s, b, role) && FullRow(b.permissions, role, t)
            && (FullRow(s.permissions, role, t) ==> b == s)
  {
    UpdateIsLocal(s, i, role, NameOf(t), ALL_ACTIONS);
    var rows := s.permissions[i := s.permissions[i].(flags := ALL_ACTIONS)];
    forall u ensures FindPermission(rows, role, NameOf(u)) == FindPermission(s.permissions, role, NameOf(u)) {
      FlagsDoNotMatter(s.permissions, i, ALL_ACTIONS, role, NameOf(u));
    }
    assert forall p :: p in rows ==> p == rows[i] || p in s.permissions;
  }

  lemma InsertRowLaw(s: Store, role: nat, t: SystemTable)
    requires RowsOk(s) && FindPermission(s.permissions, role, NameOf(t)).None?
    ensures var b := InsertPermission(s, role, NameOf(t), ALL_ACTIONS);
            RowStep(s, b, role) && FullRow(b.permissions, role, t)
  {
    var p := PermissionRow(s.nextPermission, Some(role), Some(NameOf(t)), ALL_ACTIONS);
    forall u ensures FullRow(s.permissions, role, u) || u == t ==> FullRow(s.permissions + [p], role, u) {
      FindAppended(s.permissions, p, role, NameOf(u));
    }
  }

  lemma EnsureRowLaw(fails: Faults, w: World, role: nat, t: SystemTable)
    requires RowsOk(w.base.rows)
    ensures var r := EnsureRow(fails, w, role, t);
            && r.world.calls >= w.calls && r.world.base.tables == w.base.tables
            && RowStep(w.base.rows, r.world.base.rows, role)
            && (r.ok ==> FullRow(r.world.base.rows.permissions, role, t))
            && (NoFaults(fails, w.calls) ==> r.ok)
            && (FullRow(w.base.rows.permissions, role, t) ==> r.world.base == w.base)
  {
    var s := w.base.rows;
    var i := FindPermission(s.permissions, role, NameOf(t));
    if i.Some? {
      assert s.permissions[i.value] in s.permissions;
      UpdateRowLaw(s, i.value, role, t);
    } else {
      InsertRowLaw(s, role, t);
    }
  }

  lemma RowStepTransitive(a: Store, b: Store, c: Store, role: nat)
    requires RowStep(a, b, role) && RowStep(b, c, role)
    ensures RowStep(a, c, role)
  {
    PermissionsGrowTransitive(a.permissions, b.permissions, c.permissions, role);
  }

  lemma {:induction false} EnsureRowsLaw(fails: Faults, w: World, role: nat, ts: seq<SystemTable>)
    requires RowsOk(w.base.rows)
    ensures var r := EnsureRows(fails, w, role, ts);
            && r.world.calls >= w.calls && r.world.base.tables == w.base.tables
            && RowStep(w.base.rows, r.world.base.rows, role)
            && (r.ok ==> forall t :: t in ts ==> FullRow(r.world.base.rows.permissions, role, t))
            && (NoFaults(fails, w.calls) ==> r.ok)
            && ((forall t :: t in ts ==> FullRow(w.base.rows.permissions, role, t)) ==> r.world.base == w.base)
  {
    if ts != [] {
      var front, last := ts[..|ts| - 1], ts[|ts| - 1];
      EnsureRowsLaw(fails, w, role, front);
      var before := EnsureRows(fails, w, role, front);
      EnsureRowLaw(fails, before.world, role, last);
      var after := EnsureRow(fails, before.world, role, last);
      RowStepTransitive(w.base.rows, before.world.base.rows, after.world.base.rows, role);
      assert last in ts && forall t :: t in ts ==> t in front || t == last;
    }
  }

  // ── The administrator role ────────────────────────────────────────────────

  lemma AdminRoleLaw(fails: Faults, w: World)
    requires RowsOk(w.base.rows)
    ensures var r := EnsureAdminRole(fails, w);
            && r.world.calls >= w.calls && r.world.base.tables == w.base.tables
            && RowsOk(r.world.base.rows) && RowsGrow(w.base.rows, r.world.base.rows)
            && r.world.base.rows.permissions == w.base.rows.permissions
            && (r.id.Some? ==> r.id.value == AdminId(w.base.rows) && FindRole(r.world.base.rows.roles, "admin").Some?)
            && (NoFaults(fails, w.calls) ==> r.id.Some?)
            && (FindRole(w.base.rows.roles, "admin").Some? ==> r.world.base == w.base)
  {
    var s := w.base.rows;
    if FindRole(s.roles, "admin").None? {
      var row := RoleRow(s.nextRole, Some("admin"));
      var i := FindRole(s.roles + [row], "admin");
      assert (s.roles + [row])[|s.roles|] == row;
      assert i.Some? && i.value >= |s.roles|;
    }
  }

  lemma AddedAdminIsFound(a: Store, b: Store)
    requires AddsAdmin(a, b)
    ensures FindRole(b.roles, "admin") == Some(|a.roles|)
  {
    assert b.roles[|a.roles|].name == Some("admin");
    assert forall k :: 0 <= k < |a.roles| ==> b.roles[k] == a.roles[k];
  }

  lemma RowsGrowTransitive(a: Store, b: Store, c: Store)
    requires RowsGrow(a, b) && RowsGrow(b, c)
    ensures RowsGrow(a, c)
  {
    if AddsAdmin(a, b) { AddedAdminIsFound(a, b); }
    PermissionsGrowTransitive(a.permissions, b.permissions, c.permissions, AdminId(a));
  }

  lemma RowStepGrows(a: Store, b: Store)
    requires RowStep(a, b, AdminId(a))
    ensures RowsGrow(a, b)
  {
  }

  lemma SeedRowsLaw(fails: Faults, w: World, role: nat)
    requires RowsOk(w.base.rows) && role == AdminId(w.base.rows)
    ensures var b := EnsureRows(fails, w, role, SYSTEM_TABLES).world.base;
            b.tables == w.base.tables && RowsOk(b.rows) && RowsGrow(w.base.rows, b.rows)
  {
    EnsureRowsLaw(fails, w, role, SYSTEM_TABLES);
    RowStepGrows(w.base.rows, EnsureRows(fails, w, role, SYSTEM_TABLES).world.base.rows);
  }

  lemma SeedLaw(fails: Faults, w: World)
    requires RowsOk(w.base.rows)
    ensures var b := Seed(fails, w).base;
            b.tables == w.base.tables && RowsOk(b.rows) && RowsGrow(w.base.rows, b.rows)
  {
    var asked := Called(Called(w));
    AdminRoleLaw(fails, asked);
    var admin := EnsureAdminRole(fails, asked);
    if admin.id.Some? {
      SeedRowsLaw(fails, admin.world, admin.id.value);
      var b := EnsureRows(fails, admin.world, admin.id.value, SYSTEM_TABLES).world.base;
      RowsGrowTransitive(w.base.rows, admin.world.base.rows, b.rows);
    }
  }

  // ── The complete state ────────────────────────────────────────────────────

  predicate RowsComplete(s: Store) {
    FindRole(s.roles, "admin").Some? && forall t :: FullRow(s.permissions, AdminId(s), t)
  }

  predicate Complete(b: Base) {
    (forall t :: TableComplete(b, t)) && RowsComplete(b.rows)
  }

  lemma EveryTableIsListed(t: SystemTable)
    ensures t in SYSTEM_TABLES
  {
    match t
    case Users => assert SYSTEM_TABLES[0] == t;
    case Roles => assert SYSTEM_TABLES[1] == t;
    case UserRoles => assert SYSTEM_TABLES[2] == t;
    case TablePermissions => assert SYSTEM_TABLES[3] == t;
  }

  lemma SeedRowsComplete(fails: Faults, w: World, role: nat)
    requires RowsOk(w.base.rows) && NoFaults(fails, w.calls)
    requires FindRole(w.base.rows.roles, "admin").Some? && role == AdminId(w.base.rows)
    ensures RowsComplete(EnsureRows(fails, w, role, SYSTEM_TABLES).world.base.rows)
  {
    EnsureRowsLaw(fails, w, role, SYSTEM_TABLES);
    var rows := EnsureRows(fails, w, role, SYSTEM_TABLES).world.base.rows;
    forall t ensures FullRow(rows.permissions, role, t) {
      EveryTableIsListed(t);
    }
  }

  lemma SeedCompletes(fails: Faults, w: World)
    requires RowsOk(w.base.rows) && NoFaults(fails, w.calls)
    requires Roles in w.base.tables && TablePermissions in w.base.tables
    ensures RowsComplete(Seed(fails, w).base.rows)
  {
    var asked := Called(Called(w));
    AdminRoleLaw(fails, asked);
    var admin := EnsureAdminRole(fails, asked);
    SeedRowsComplete(fails, admin.world, admin.id.value);
  }

  lemma SeedNothing(fails: Faults, w: World)
    requires RowsOk(w.base.rows) && RowsComplete(w.base.rows)
    ensures Seed(fails, w).base == w.base
  {
    var asked := Called(Called(w));
    AdminRoleLaw(fails, asked);
    var admin := EnsureAdminRole(fails, asked);
    if admin.id.Some? {
      EnsureRowsLaw(fails, admin.world, admin.id.value, SYSTEM_TABLES);
    }
  }

  // ── Whole starts ──────────────────────────────────────────────────────────

  /**
   Whichever calls fail, a start only adds tables, fields and rows, and changes
   only the flags of the administrator's rows for system tables, to all set.
   */
  lemma StartOnlyAdds(fails: Faults, w: World)
    requires RowsOk(w.base.rows)
    ensures var b := Initialize(fails, w).world.base;
            TablesGrow(w.base, b) && RowsGrow(w.base.rows, b.rows) && RowsOk(b.rows)
                && (NonLegacy(b) <==> NonLegacy(w.base))
  {
    var tables := EnsureTables(fails, w, SYSTEM_TABLES);
    EnsureTablesGrow(fails, w, SYSTEM_TABLES);
    SeedLaw(fails, tables.world);
    GrowthKeepsBaseNonLegacy(w.base, Initialize(fails, w).world.base);
  }

  lemma CleanTables(fails: Faults, w: World)
    requires NonLegacy(w.base) && NoFaults(fails, w.calls)
    ensures var e := EnsureTables(fails, w, SYSTEM_TABLES);
            && e.end == Ready && NoFaults(fails, e.world.calls) && e.world.base.rows == w.base.rows
            && forall t :: TableComplete(e.world.base, t)
  {
    EnsureTablesComplete(fails, w, SYSTEM_TABLES);
    EnsureTablesGrow(fails, w, SYSTEM_TABLES);
    forall t ensures TableComplete(EnsureTables(fails, w, SYSTEM_TABLES).world.base, t) { EveryTableIsListed(t); }
  }

  lemma CleanSeed(fails: Faults, w: World)
    requires RowsOk(w.base.rows) && NoFaults(fails, w.calls) && forall t :: TableComplete(w.base, t)
    ensures Complete(Seed(fails, w).base)
  {
    assert TableComplete(w.base, Roles) && TableComplete(w.base, TablePermissions);
    SeedCompletes(fails, w);
    SeedLaw(fails, w);
    forall t ensures TableComplete(Seed(fails, w).base, t) {
      assert TableComplete(w.base, t);
    }
  }

  /** A start without failures reaches the complete state exactly from a schema without legacy link fields. */
  lemma CleanStartCompletesIff(fails: Faults, w: World)
    requires RowsOk(w.base.rows) && NoFaults(fails, w.calls)
    ensures Complete(Initialize(fails, w).world.base) <==> NonLegacy(w.base)
    ensures Initialize(fails, w).end == (if NonLegacy(w.base) then Ready else Thrown)
  {
    if NonLegacy(w.base) {
      CleanTables(fails, w);
      CleanSeed(fails, EnsureTables(fails, w, SYSTEM_TABLES).world);
    } else {
      var t :| IsLegacy(t, FieldsIn(w.base, t));
      LegacyTableStops(fails, w, t);
    }
  }

  /** No start, failing or not, changes the complete state. */
  lemma CompleteIsFixed(fails: Faults, w: World)
    requires RowsOk(w.base.rows) && Complete(w.base)
    ensures Initialize(fails, w).world.base == w.base
  {
    EnsureTablesNothing(fails, w, SYSTEM_TABLES);
    SeedNothing(fails, EnsureTables(fails, w, SYSTEM_TABLES).world);
  }

  /** A legacy table stops every start: it stays as it is, and nothing is seeded. */
  lemma LegacyTableStops(fails: Faults, w: World, t: SystemTable)
    requires IsLegacy(t, FieldsIn(w.base, t))
    ensures var e := Initialize(fails, w);
            && e.end != Ready && (NoFaults(fails, w.calls) ==> e.end == Thrown)
            && FieldsIn(e.world.base, t) == FieldsIn(w.base, t) && e.world.base.rows == w.base.rows
            && !Complete(e.world.base)
  {
    EveryTableIsListed(t);
    EnsureTablesStopAtLegacy(fails, w, SYSTEM_TABLES, t);
    EnsureTablesGrow(fails, w, SYSTEM_TABLES);
    var b := EnsureTables(fails, w, SYSTEM_TABLES).world.base;
    assert IsLegacy(t, FieldsIn(b, t)) && !TableComplete(b, t);
  }

  // ── Restarts ──────────────────────────────────────────────────────────────

  /** One start after another, each with its own failures. */
  function Restarts(b: Base, starts: seq<Faults>): Base {
    if starts == [] then b
    else Initialize(starts[|starts| - 1], State(Restarts(b, starts[..|starts| - 1]), 0)).world.base
  }

  lemma {:induction false} RestartsOnlyAdd(b: Base, starts: seq<Faults>)
    requires RowsOk(b.rows)
    ensures var r := Restarts(b, starts);
            TablesGrow(b, r) && RowsGrow(b.rows, r.rows) && RowsOk(r.rows) && (NonLegacy(r) <==> NonLegacy(b))
  {
    if starts != [] {
      var front := starts[..|starts| - 1];
      RestartsOnlyAdd(b, front);
      var before := Restarts(b, front);
      StartOnlyAdds(starts[|starts| - 1], State(before, 0));
      TablesGrowTransitive(b, before, Restarts(b, starts));
      RowsGrowTransitive(b.rows, before.rows, Restarts(b, starts).rows);
    }
  }

  /**
   From any partial schema without legacy link fields, after any starts with any
   failures, one start without failures reaches the complete state, and no later
   start leaves it.
   */
  lemma {:induction false} StartupConverges(b: Base, before: seq<Faults>, clean: Faults, after: seq<Faults>)
    requires RowsOk(b.rows) && NonLegacy(b) && NoFaults(clean, 0)
    ensures Complete(Restarts(b, before + [clean]))
            && Restarts(b, before + [clean] + after) == Restarts(b, before + [clean])
  {
    var starts := before + [clean] + after;
    if after == [] {
      assert starts == before + [clean] && (before + [clean])[..|before|] == before;
      RestartsOnlyAdd(b, before);
      CleanStartCompletesIff(clean, State(Restarts(b, before), 0));
    } else {
      var front := after[..|after| - 1];
      StartupConverges(b, before, clean, front);
      assert starts[..|starts| - 1] == before + [clean] + front;
      RestartsOnlyAdd(b, before + [clean]);
      CompleteIsFixed(after[|after| - 1], State(Restarts(b, before + [clean]), 0));
    }
  }
}
