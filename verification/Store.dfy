/**
 The system tables as NocoDB stores them: sequences of rows with increasing
 ids per table, and the record calls the services make on them.
 */
module Store {
  import opened Wrappers
  import Filter

  datatype SystemTable = Users | Roles | UserRoles | TablePermissions

  datatype Action = Create | Read | Update | Delete

  datatype Flags = Flags(create: bool, read: bool, update: bool, delete: bool)

  /** A cell that does not convert to an integer, or is empty, is `None`. */
  datatype UserRow = UserRow(id: nat, username: Option<string>, email: Option<string>, active: Option<bool>,
                             provider: Option<string>, subject: Option<string>)
  datatype RoleRow = RoleRow(id: nat, name: Option<string>)
  datatype AssignmentRow = AssignmentRow(id: nat, userId: Option<int>, roleId: Option<int>)
  datatype PermissionRow = PermissionRow(id: nat, roleId: Option<int>, table: Option<string>, flags: Flags)

  datatype Store = Store(
    present: set<SystemTable>,
    users: seq<UserRow>, nextUser: nat,
    roles: seq<RoleRow>, nextRole: nat,
    assignments: seq<AssignmentRow>, nextAssignment: nat,
    permissions: seq<PermissionRow>, nextPermission: nat)

  function Has(f: Flags, a: Action): bool {
    match a
    case Create => f.create
    case Read => f.read
    case Update => f.update
    case Delete => f.delete
  }

  // ── Queries ───────────────────────────────────────────────────────────────

  function AssignmentsOf(s: Store, user: int): seq<AssignmentRow> {
    Select(s.assignments, (a: AssignmentRow) => a.userId == Some(user))
  }

  function RolesIn(s: Store, ids: seq<int>): seq<RoleRow> {
    Select(s.roles, (r: RoleRow) => r.id in ids)
  }

  function PermissionsIn(s: Store, ids: seq<int>): seq<PermissionRow> {
    Select(s.permissions, (p: PermissionRow) => p.roleId.Some? && p.roleId.value in ids)
  }

  /** The first element that satisfies p: `findOne` is a list call with limit 1. */
  function FindIndex<T>(rows: seq<T>, p: T -> bool): (r: Option<nat>)
    ensures r.Some? ==> r.value < |rows| && p(rows[r.value]) && forall j :: 0 <= j < r.value ==> !p(rows[j])
    ensures r.None? ==> forall j :: 0 <= j < |rows| ==> !p(rows[j])
  {
    if rows == [] then None
    else if p(rows[0]) then Some(0)
    else
      var rest := FindIndex(rows[1..], p);
      assert rest.None? ==> forall j :: 0 < j < |rows| ==> rows[j] == rows[1..][j - 1];
      assert rest.Some? ==> forall j :: 0 < j < rest.value + 1 ==> rows[j] == rows[1..][j - 1];
      if rest.Some? then Some(rest.value + 1) else None
  }

  function FindPermission(rows: seq<PermissionRow>, role: int, table: string): Option<nat> {
    FindIndex(rows, (p: PermissionRow) => p.roleId == Some(role) && p.table == Some(table))
  }

  function FindAssignment(rows: seq<AssignmentRow>, user: int, role: int): Option<nat> {
    FindIndex(rows, (a: AssignmentRow) => a.userId == Some(user) && a.roleId == Some(role))
  }

  function FindRole(rows: seq<RoleRow>, name: string): Option<nat> {
    FindIndex(rows, (r: RoleRow) => r.name == Some(name))
  }

  function FindUserById(rows: seq<UserRow>, id: int): Option<nat> {
    FindIndex(rows, (u: UserRow) => u.id == id)
  }

  // ── Record calls ──────────────────────────────────────────────────────────

  /** PATCH of the record with this id. */
  function UpdatePermissionById(rows: seq<PermissionRow>, id: nat, role: int, table: string, flags: Flags)
    : (r: seq<PermissionRow>)
    ensures |r| == |rows|
  {
    seq(|rows|, i requires 0 <= i < |rows| =>
      if rows[i].id == id then PermissionRow(id, Some(role), Some(table), flags) else rows[i])
  }

  function InsertPermission(s: Store, role: int, table: string, flags: Flags): Store {
    s.(permissions := s.permissions + [PermissionRow(s.nextPermission, Some(role), Some(table), flags)],
       nextPermission := s.nextPermission + 1)
  }

  function DeletePermissionById(rows: seq<PermissionRow>, id: nat): seq<PermissionRow> {
    Select(rows, (p: PermissionRow) => p.id != id)
  }

  function InsertAssignment(s: Store, user: int, role: int): Store {
    s.(assignments := s.assignments + [AssignmentRow(s.nextAssignment, Some(user), Some(role))],
       nextAssignment := s.nextAssignment + 1)
  }

  function InsertRole(s: Store, name: string): Store {
    s.(roles := s.roles + [RoleRow(s.nextRole, Some(name))], nextRole := s.nextRole + 1)
  }

  // ── What every record call keeps ──────────────────────────────────────────

  predicate UniquePermissionIds(s: Store) {
    && (forall i :: 0 <= i < |s.permissions| ==> s.permissions[i].id < s.nextPermission)
    && (forall i, j :: 0 <= i < j < |s.permissions| ==> s.permissions[i].id != s.permissions[j].id)
  }

  predicate UniqueAssignmentIds(s: Store) {
    && (forall i :: 0 <= i < |s.assignments| ==> s.assignments[i].id < s.nextAssignment)
    && (forall i, j :: 0 <= i < j < |s.assignments| ==> s.assignments[i].id != s.assignments[j].id)
  }

  predicate UniqueRoleIds(s: Store) {
    && (forall i :: 0 <= i < |s.roles| ==> s.roles[i].id < s.nextRole)
    && (forall i, j :: 0 <= i < j < |s.roles| ==> s.roles[i].id != s.roles[j].id)
  }

  /** Updating the found record by its id changes that row and no other. */
  lemma UpdateIsLocal(s: Store, i: nat, role: int, table: string, flags: Flags)
    requires i < |s.permissions| && UniquePermissionIds(s)
    ensures var id := s.permissions[i].id;
            UpdatePermissionById(s.permissions, id, role, table, flags)
            == s.permissions[i := PermissionRow(id, Some(role), Some(table), flags)]
  {
    var id := s.permissions[i].id;
    var a := UpdatePermissionById(s.permissions, id, role, table, flags);
    var b := s.permissions[i := PermissionRow(id, Some(role), Some(table), flags)];
    forall k | 0 <= k < |a| ensures a[k] == b[k] {
      if k < i { assert s.permissions[k].id != id; } else if i < k { assert s.permissions[k].id != id; }
    }
  }
}
