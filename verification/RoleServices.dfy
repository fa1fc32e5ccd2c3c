/** `UserRolesService` and `RolesService`: assignments and roles. */
module RoleServices {
  import opened Wrappers
  import FilterLaws
  import opened Store
  import opened Permissions

  function AssignRole(s: Store, user: int, role: int): Result<Store> {
    if UserRoles !in s.present then Err(NotFound)
    else if FindAssignment(s.assignments, user, role).Some? then Err(Conflict)
    else Ok(InsertAssignment(s, user, role))
  }

  /** Assigns each role in turn, skipping those already assigned. */
  datatype Assigned = Assigned(store: Store, count: nat, error: Option<Error>)

  function AssignRoles(s: Store, user: int, roles: seq<int>): Assigned {
    if roles == [] then Assigned(s, 0, None) else
      var b := AssignRoles(s, user, roles[..|roles| - 1]);
      if b.error.Some? then b else
        match AssignRole(b.store, user, roles[|roles| - 1])
        case Ok(s') => Assigned(s', b.count + 1, None)
        case Err(e) => if e == Conflict then b else b.(error := Some(e))
  }

  function DeleteAssignmentById(rows: seq<AssignmentRow>, id: nat): seq<AssignmentRow> {
    Select(rows, (a: AssignmentRow) => a.id != id)
  }

  function RemoveRole(s: Store, user: int, role: int): Result<Store> {
    if UserRoles !in s.present then Err(NotFound) else
      var i := FindAssignment(s.assignments, user, role);
      if i.None? then Err(NotFound)
      else Ok(s.(assignments := DeleteAssignmentById(s.assignments, s.assignments[i.value].id)))
  }

  function CreateRole(s: Store, name: string): Result<Store> {
    if Roles !in s.present then Err(NotFound)
    else if !FilterLaws.IsRoleName(name) then Err(BadRequest)
    else if FindRole(s.roles, name).Some? then Err(Conflict)
    else Ok(InsertRole(s, name))
  }

  function DeleteRole(s: Store, id: int): Result<Store> {
    if Roles !in s.present || !(exists r :: r in s.roles && r.id == id) then Err(NotFound)
    else Ok(s.(roles := Select(s.roles, (r: RoleRow) => r.id != id)))
  }

  // ── Laws ──────────────────────────────────────────────────────────────────

  /** At most one row per (user, role). */
  predicate UniqueAssignments(rows: seq<AssignmentRow>) {
    forall i, j :: 0 <= i < j < |rows| ==> rows[i].userId != rows[j].userId || rows[i].roleId != rows[j].roleId
  }

  predicate UniqueNames(rows: seq<RoleRow>) {
    forall i, j :: 0 <= i < j < |rows| ==> rows[i].name != rows[j].name || rows[i].name.None?
  }

  lemma AssignKeepsRows(s: Store, user: int, role: int)
    requires AssignRole(s, user, role).Ok? && UniqueAssignmentIds(s)
    ensures var s' := AssignRole(s, user, role).value;
            UniqueAssignmentIds(s') && (UniqueAssignments(s.assignments) ==> UniqueAssignments(s'.assignments))
            && FindAssignment(s'.assignments, user, role).Some?
  {
    var s' := AssignRole(s, user, role).value;
    assert s'.assignments[|s.assignments|] == AssignmentRow(s.nextAssignment, Some(user), Some(role));
  }

  /** When assigning, removing, creating and deleting are refused, and with what. */
  lemma AssignIsRefusedIff(s: Store, user: int, role: int)
    ensures AssignRole(s, user, role) == Err(NotFound) <==> UserRoles !in s.present
    ensures AssignRole(s, user, role) == Err(Conflict) <==>
              UserRoles in s.present
              && exists a :: a in s.assignments && a.userId == Some(user) && a.roleId == Some(role)
    ensures AssignRole(s, user, role).Err? ==> AssignRole(s, user, role).error in {NotFound, Conflict}
  {
    var i := FindAssignment(s.assignments, user, role);
    if i.Some? { assert s.assignments[i.value] in s.assignments; }
  }

  lemma RemoveIsRefusedIff(s: Store, user: int, role: int)
    ensures RemoveRole(s, user, role).Err? <==>
              UserRoles !in s.present
              || forall a :: a in s.assignments ==> a.userId != Some(user) || a.roleId != Some(role)
    ensures RemoveRole(s, user, role).Err? ==> RemoveRole(s, user, role).error == NotFound
  {
    var i := FindAssignment(s.assignments, user, role);
    if i.Some? { assert s.assignments[i.value] in s.assignments; }
  }

  lemma CreateIsRefusedIff(s: Store, name: string)
    ensures CreateRole(s, name) == Err(NotFound) <==> Roles !in s.present
    ensures CreateRole(s, name) == Err(BadRequest) <==> Roles in s.present && !FilterLaws.IsRoleName(name)
    ensures CreateRole(s, name) == Err(Conflict) <==>
              Roles in s.present && FilterLaws.IsRoleName(name) && exists r :: r in s.roles && r.name == Some(name)
    ensures CreateRole(s, name).Err? ==> CreateRole(s, name).error != Unavailable
  {
    var i := FindRole(s.roles, name);
    if i.Some? { assert s.roles[i.value] in s.roles; }
  }

  lemma DeleteIsRefusedIff(s: Store, id: int)
    ensures DeleteRole(s, id).Err? <==> Roles !in s.present || forall r :: r in s.roles ==> r.id != id
    ensures DeleteRole(s, id).Err? ==> DeleteRole(s, id).error == NotFound
  {
  }

  /** Removing an assignment deletes one row of that user and role and no other row. */
  lemma RemoveDeletesOneRow(s: Store, user: int, role: int)
    requires UniqueAssignmentIds(s) && RemoveRole(s, user, role).Ok?
    ensures var i := FindAssignment(s.assignments, user, role).value;
            RemoveRole(s, user, role).value == s.(assignments := s.assignments[..i] + s.assignments[i + 1..])
    ensures UniqueAssignmentIds(RemoveRole(s, user, role).value)
  {
    var i := FindAssignment(s.assignments, user, role).value;
    DeleteByIndex(s, i);
  }

  lemma DeleteByIndex(s: Store, i: nat)
    requires i < |s.assignments| && UniqueAssignmentIds(s)
    ensures DeleteAssignmentById(s.assignments, s.assignments[i].id) == s.assignments[..i] + s.assignments[i + 1..]
  {
    var rows := s.assignments;
    assert rows == rows[..i] + ([rows[i]] + rows[i + 1..]);
    assert forall a :: a in rows[..i] || a in rows[i + 1..] ==> a.id != rows[i].id;
    DeleteMiddle(rows[..i], rows[i], rows[i + 1..]);
  }

  lemma DeleteAppend(a: seq<AssignmentRow>, b: seq<AssignmentRow>, id: nat)
    ensures DeleteAssignmentById(a + b, id) == DeleteAssignmentById(a, id) + DeleteAssignmentById(b, id)
  {
    SelectAppend(a, b, (row: AssignmentRow) => row.id != id);
  }

  lemma DeleteAbsent(rows: seq<AssignmentRow>, id: nat)
    requires forall row :: row in rows ==> row.id != id
    ensures DeleteAssignmentById(rows, id) == rows
  {
    SelectAll(rows, (row: AssignmentRow) => row.id != id);
  }

  lemma DeleteHead(row: AssignmentRow, rest: seq<AssignmentRow>)
    requires forall x :: x in rest ==> x.id != row.id
    ensures DeleteAssignmentById([row] + rest, row.id) == rest
  {
    assert ([row] + rest)[1..] == rest;
    DeleteAbsent(rest, row.id);
  }

  lemma DeleteMiddle(front: seq<AssignmentRow>, row: AssignmentRow, rest: seq<AssignmentRow>)
    requires forall x :: x in front || x in rest ==> x.id != row.id
    ensures DeleteAssignmentById(front + ([row] + rest), row.id) == front + rest
  {
    DeleteAppend(front, [row] + rest, row.id);
    DeleteAbsent(front, row.id);
    DeleteHead(row, rest);
  }

  /** Removing a role undoes assigning it: the rows are as before. */
  lemma RemoveUndoesAssign(s: Store, user: int, role: int)
    requires UniqueAssignmentIds(s) && AssignRole(s, user, role).Ok?
    ensures RemoveRole(AssignRole(s, user, role).value, user, role)
            == Ok(s.(nextAssignment := s.nextAssignment + 1))
  {
    var s' := AssignRole(s, user, role).value;
    AssignKeepsRows(s, user, role);
    var i := FindAssignment(s'.assignments, user, role).value;
    assert forall k :: 0 <= k < |s.assignments| ==> s'.assignments[k] == s.assignments[k];
    assert i == |s.assignments|;
    RemoveDeletesOneRow(s', user, role);
    assert s'.assignments[..i] + s'.assignments[i + 1..] == s.assignments;
  }

  lemma {:induction false} AssignRolesKeepsRows(s: Store, user: int, roles: seq<int>)
    requires UserRoles in s.present && UniqueAssignmentIds(s) && UniqueAssignments(s.assignments)
    ensures AssignRoles(s, user, roles).error == None
    ensures UniqueAssignmentIds(AssignRoles(s, user, roles).store)
    ensures UniqueAssignments(AssignRoles(s, user, roles).store.assignments)
    ensures s.assignments <= AssignRoles(s, user, roles).store.assignments
    ensures AssignRoles(s, user, roles).store.present == s.present
  {
    if roles != [] {
      AssignRolesKeepsRows(s, user, roles[..|roles| - 1]);
      var b := AssignRoles(s, user, roles[..|roles| - 1]).store;
      if AssignRole(b, user, roles[|roles| - 1]).Ok? {
        AssignKeepsRows(b, user, roles[|roles| - 1]);
      }
    }
  }

  lemma {:induction false} AssignRolesFinds(s: Store, user: int, roles: seq<int>)
    requires UserRoles in s.present && UniqueAssignmentIds(s) && UniqueAssignments(s.assignments)
    ensures forall i :: 0 <= i < |roles| ==>
            FindAssignment(AssignRoles(s, user, roles).store.assignments, user, roles[i]).Some?
  {
    if roles != [] {
      var front, last := roles[..|roles| - 1], roles[|roles| - 1];
      AssignRolesFinds(s, user, front);
      AssignRolesKeepsRows(s, user, front);
      var b, after := AssignRoles(s, user, front).store, AssignRoles(s, user, roles).store;
      AssignFinds(b, user, last);
      assert after == if AssignRole(b, user, last).Ok? then AssignRole(b, user, last).value else b;
      forall i | 0 <= i < |roles| ensures FindAssignment(after.assignments, user, roles[i]).Some? {
        if i < |front| {
          assert front[i] == roles[i];
          FoundStays(b.assignments, after.assignments, user, roles[i]);
        }
      }
    }
  }

  lemma AssignFinds(s: Store, user: int, role: int)
    requires UserRoles in s.present && UniqueAssignmentIds(s)
    ensures var r := AssignRole(s, user, role);
            var t := if r.Ok? then r.value else s;
            s.assignments <= t.assignments && FindAssignment(t.assignments, user, role).Some?
  {
    if AssignRole(s, user, role).Ok? {
      AssignKeepsRows(s, user, role);
    }
  }

  lemma FoundStays(before: seq<AssignmentRow>, after: seq<AssignmentRow>, user: int, role: int)
    requires before <= after && FindAssignment(before, user, role).Some?
    ensures FindAssignment(after, user, role).Some?
  {
    var k := FindAssignment(before, user, role).value;
    assert after[k] == before[k];
  }

  /** A list is counted by the rows it adds, and refused only without the table. */
  lemma {:induction false} AssignRolesCounts(s: Store, user: int, roles: seq<int>)
    ensures var r := AssignRoles(s, user, roles);
            && |r.store.assignments| == |s.assignments| + r.count && r.store.present == s.present
            && (r.error == if roles != [] && UserRoles !in s.present then Some(NotFound) else None)
  {
    if roles != [] {
      AssignRolesCounts(s, user, roles[..|roles| - 1]);
    }
  }

  /** Assigning a list leaves every listed role assigned, exactly once, and adds rows only. */
  lemma AssignRolesLaw(s: Store, user: int, roles: seq<int>)
    requires UserRoles in s.present && UniqueAssignmentIds(s) && UniqueAssignments(s.assignments)
    ensures AssignRoles(s, user, roles).error == None
    ensures UniqueAssignmentIds(AssignRoles(s, user, roles).store)
    ensures UniqueAssignments(AssignRoles(s, user, roles).store.assignments)
    ensures s.assignments <= AssignRoles(s, user, roles).store.assignments
    ensures AssignRoles(s, user, roles).store.present == s.present
    ensures forall i :: 0 <= i < |roles| ==>
            FindAssignment(AssignRoles(s, user, roles).store.assignments, user, roles[i]).Some?
  {
    AssignRolesKeepsRows(s, user, roles);
    AssignRolesFinds(s, user, roles);
  }

  /** Role names stay unique, and ids are never reused. */
  lemma CreateRoleLaw(s: Store, name: string)
    requires UniqueRoleIds(s) && UniqueNames(s.roles) && CreateRole(s, name).Ok?
    ensures var s' := CreateRole(s, name).value;
            UniqueRoleIds(s') && UniqueNames(s'.roles) && s'.roles == s.roles + [RoleRow(s.nextRole, Some(name))]
            && forall r :: r in s.roles ==> r.id != s.nextRole
  {
  }

  /** Deleting a role leaves every other role, and no role with its id. */
  lemma DeleteRoleLaw(s: Store, id: int)
    requires UniqueRoleIds(s) && UniqueNames(s.roles) && DeleteRole(s, id).Ok?
    ensures var s' := DeleteRole(s, id).value;
            UniqueRoleIds(s') && UniqueNames(s'.roles)
            && forall r :: r in s'.roles <==> r in s.roles && r.id != id
  {
    var keep := (r: RoleRow) => r.id != id;
    var after := Select(s.roles, keep);
    SelectKeepsPairs(s.roles, keep, (a: RoleRow, b: RoleRow) => a.id != b.id);
    SelectKeepsPairs(s.roles, keep, (a: RoleRow, b: RoleRow) => a.name != b.name || a.name.None?);
    assert forall i :: 0 <= i < |after| ==> after[i] in s.roles;
  }

  // ── The services ──────────────────────────────────────────────────────────

  class UserRolesService {
    const permissions: PermissionsService

    constructor (permissions: PermissionsService)
      ensures this.permissions == permissions
    {
      this.permissions := permissions;
    }

    /** A new assignment clears the cached permissions of its user. */
    method Assign(user: int, role: int) returns (error: Option<Error>)
      modifies permissions.db`store, permissions`cache
      ensures var r := AssignRole(old(permissions.db.store), user, role);
              if r.Ok? then error == None && permissions.db.store == r.value
                            && permissions.cache == Clear(old(permissions.cache), Some(user))
              else error == Some(r.error) && permissions.db.store == old(permissions.db.store)
                   && permissions.cache == old(permissions.cache)
    {
      var s := permissions.db.store;
      if UserRoles !in s.present {
        return Some(NotFound);
      }
      var existing := FindAssignment(s.assignments, user, role);
      if existing.Some? {
        return Some(Conflict);
      }
      permissions.db.store := InsertAssignment(s, user, role);
      permissions.ClearCache(Some(user));
      error := None;
    }

    method AssignMultiple(user: int, roles: seq<int>) returns (count: nat, error: Option<Error>)
      modifies permissions.db`store, permissions`cache
      ensures AssignRoles(old(permissions.db.store), user, roles) == Assigned(permissions.db.store, count, error)
      ensures permissions.cache == if count > 0 then Clear(old(permissions.cache), Some(user))
              else old(permissions.cache)
    {
      count, error := 0, None;
      for i := 0 to |roles|
        invariant error == None
        invariant AssignRoles(old(permissions.db.store), user, roles[..i])
                  == Assigned(permissions.db.store, count, None)
        invariant permissions.cache == if count > 0 then Clear(old(permissions.cache), Some(user))
                  else old(permissions.cache)
      {
        AssignStep(old(permissions.db.store), user, roles, i);
        ClearTwice(old(permissions.cache), Some(user));
        var e := Assign(user, roles[i]);
        if e.None? {
          count := count + 1;
        } else if e.value != Conflict {
          error := e;
          return;
        }
      }
      assert roles[..|roles|] == roles;
    }

    /** Removing an assignment clears the cached permissions of its user. */
    method Remove(user: int, role: int) returns (error: Option<Error>)
      modifies permissions.db`store, permissions`cache
      ensures var r := RemoveRole(old(permissions.db.store), user, role);
              if r.Ok? then error == None && permissions.db.store == r.value
                            && permissions.cache == Clear(old(permissions.cache), Some(user))
              else error == Some(r.error) && permissions.db.store == old(permissions.db.store)
                   && permissions.cache == old(permissions.cache)
    {
      var s := permissions.db.store;
      if UserRoles !in s.present {
        return Some(NotFound);
      }
      var assignment := FindAssignment(s.assignments, user, role);
      if assignment.None? {
        return Some(NotFound);
      }
      permissions.db.store := s.(assignments :=
          DeleteAssignmentById(s.assignments, s.assignments[assignment.value].id));
      permissions.ClearCache(Some(user));
      error := None;
    }
  }

  lemma AssignStep(s: Store, user: int, roles: seq<int>, i: nat)
    requires i < |roles| && AssignRoles(s, user, roles[..i]).error == None
    ensures var b := AssignRoles(s, user, roles[..i]);
            var r := AssignRole(b.store, user, roles[i]);
            if r.Ok? then AssignRoles(s, user, roles[..i + 1]) == Assigned(r.value, b.count + 1, None)
            else if r.error == Conflict then AssignRoles(s, user, roles[..i + 1]) == b
            else AssignRoles(s, user, roles) == b.(error := Some(r.error))
  {
    assert roles[..i + 1][..i] == roles[..i];
    if AssignRoles(s, user, roles[..i + 1]).error.Some? {
      AssignStopsAtError(s, user, roles, i + 1);
    }
  }

  lemma {:induction false} AssignStopsAtError(s: Store, user: int, roles: seq<int>, i: nat)
    requires i <= |roles| && AssignRoles(s, user, roles[..i]).error.Some?
    ensures AssignRoles(s, user, roles) == AssignRoles(s, user, roles[..i])
  {
    if i < |roles| {
      var front := roles[..|roles| - 1];
      assert front[..i] == roles[..i];
      AssignStopsAtError(s, user, front, i);
    } else {
      assert roles[..i] == roles;
    }
  }

  lemma ClearTwice(c: Cache, user: Option<int>)
    ensures Clear(Clear(c, user), user) == Clear(c, user)
  {
    if user.Some? && user.value != 0 {
      WithoutAbsent(Without(c, user.value), user.value);
    }
  }

  class RolesService {
    const permissions: PermissionsService

    constructor (permissions: PermissionsService)
      ensures this.permissions == permissions
    {
      this.permissions := permissions;
    }

    /** A new role clears nothing: no one can lose a grant by it. */
    method Create(name: string) returns (error: Option<Error>)
      modifies permissions.db`store
      ensures var r := CreateRole(old(permissions.db.store), name);
              if r.Ok? then error == None && permissions.db.store == r.value
              else error == Some(r.error) && permissions.db.store == old(permissions.db.store)
    {
      var s := permissions.db.store;
      if Roles !in s.present {
        return Some(NotFound);
      }
      if !FilterLaws.IsRoleName(name) {
        return Some(BadRequest);
      }
      var existing := FindRole(s.roles, name);
      if existing.Some? {
        return Some(Conflict);
      }
      permissions.db.store := InsertRole(s, name);
      error := None;
    }

    method Delete(id: int) returns (error: Option<Error>)
      modifies permissions.db`store, permissions`cache
      ensures var r := DeleteRole(old(permissions.db.store), id);
              if r.Ok? then error == None && permissions.db.store == r.value && permissions.cache == []
              else error == Some(r.error) && permissions.db.store == old(permissions.db.store)
                   && permissions.cache == old(permissions.cache)
    {
      var r := DeleteRole(permissions.db.store, id);
      if r.Err? {
        return Some(r.error);
      }
      permissions.db.store := r.value;
      permissions.ClearCache(None);
      error := None;
    }
  }
}
