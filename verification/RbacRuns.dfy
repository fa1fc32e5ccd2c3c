/**
 Whole runs of the access-control services over one store and one cache, each
 call one atomic step: the cache never grants what a fresh join would not.
 */
module RbacRuns {
  import opened Wrappers
  import opened Store
  import opened Permissions
  import opened PermissionRows
  import opened RoleServices
  import opened Identity

  datatype System = System(store: Store, cache: Cache, now: nat)

  datatype Op =
    | Tick(dt: nat)
    | LoadUser(user: int)                       // getUserPermissions
    | SetOne(role: int, item: Item)             // setTablePermissions, of either service
    | SetBatch(role: int, items: seq<Item>)
    | Copy(source: int, target: int)
    | DeletePermissions(role: int)
    | Assign(user: int, role: int)
    | AssignMany(user: int, roles: seq<int>)
    | Unassign(user: int, role: int)
    | NewRole(name: string)
    | DropRole(id: int)
    | Provision(call: Call)                     // identities, local users, bootstrap
    | ClearFor(whom: Option<int>)

  function Stored(s: System, r: Result<Store>, cache: Cache): System {
    if r.Ok? then s.(store := r.value, cache := cache) else s
  }

  function Apply(s: System, op: Op): System {
    match op
    case Tick(dt) => s.(now := s.now + dt)
    case LoadUser(user) =>
      if Hit(s.cache, user, s.now).Some? || !Load(s.store, user).complete then s
      else s.(cache := Insert(s.cache, user, Load(s.store, user).value, s.now))
    case SetOne(role, item) => Stored(s, SetPermission(s.store, role, item), [])
    case SetBatch(role, items) => Batched(s, BatchSet(s.store, role, items))
    case Copy(source, target) => Batched(s, CopyPermissions(s.store, source, target))
    case DeletePermissions(role) => Stored(s, DeleteRolePermissions(s.store, role), [])
    case Assign(user, role) => Stored(s, AssignRole(s.store, user, role), Clear(s.cache, Some(user)))
    case AssignMany(user, roles) =>
      var b := AssignRoles(s.store, user, roles);
      s.(store := b.store, cache := if b.count > 0 then Clear(s.cache, Some(user)) else s.cache)
    case Unassign(user, role) => Stored(s, RemoveRole(s.store, user, role), Clear(s.cache, Some(user)))
    case NewRole(name) => Stored(s, CreateRole(s.store, name), s.cache)
    case DropRole(id) => Stored(s, DeleteRole(s.store, id), [])
    case Provision(call) => s.(store := Perform(s.store, call))
    case ClearFor(whom) => s.(cache := Clear(s.cache, whom))
  }

  function Batched(s: System, b: Batch): System {
    s.(store := b.store, cache := if b.applied > 0 then [] else s.cache)
  }

  function After(s: System, ops: seq<Op>): System {
    if ops == [] then s else Apply(After(s, ops[..|ops| - 1]), ops[|ops| - 1])
  }

  // ── What only adds ────────────────────────────────────────────────────────

  /** Every row that takes part in the join is kept. */
  ghost predicate Extends(s: Store, t: Store) {
    && s.present <= t.present
    && (forall a :: a in s.assignments ==> a in t.assignments)
    && (forall r :: r in s.roles ==> r in t.roles)
    && (forall p :: p in s.permissions ==> p in t.permissions)
  }

  /** Adding rows never takes a grant away. */
  lemma GrantedIsMonotone(s: Store, t: Store, user: int, table: string, action: Action)
    requires Extends(s, t) && Granted(s, user, table, action)
    ensures Granted(t, user, table, action)
  {
    var a, r, p :| a in s.assignments && r in s.roles && p in s.permissions && Chain(a, r, p, user, table, action);
    assert a in t.assignments && r in t.roles && p in t.permissions;
  }

  lemma {:induction false} AssignRolesExtends(s: Store, user: int, roles: seq<int>)
    requires UniqueAssignmentIds(s)
    ensures Extends(s, AssignRoles(s, user, roles).store) && UniqueAssignmentIds(AssignRoles(s, user, roles).store)
    ensures AssignRoles(s, user, roles).count == 0 ==> AssignRoles(s, user, roles).store == s
  {
    if roles != [] {
      AssignRolesExtends(s, user, roles[..|roles| - 1]);
    }
  }

  lemma {:induction false} AssignByNamesExtends(s: Store, user: nat, names: seq<string>)
    requires UniqueAssignmentIds(s)
    ensures Extends(s, AssignRolesByName(s, user, names).store)
    ensures UniqueAssignmentIds(AssignRolesByName(s, user, names).store)
  {
    if names != [] {
      AssignByNamesExtends(s, user, names[..|names| - 1]);
    }
  }

  lemma CreateLocalExtends(s: Store, dto: LocalUser)
    requires UniqueAssignmentIds(s)
    ensures Extends(s, CreateLocalUser(s, dto).store) && UniqueAssignmentIds(CreateLocalUser(s, dto).store)
  {
    AssignByNamesExtends(InsertUser(s, NewLocalUser(dto)), s.nextUser, dto.roles);
  }

  lemma BootstrapExtends(s: Store, username: string, email: string)
    requires UniqueAssignmentIds(s)
    ensures Extends(s, BootstrapAdmin(s, username, email).store)
    ensures UniqueAssignmentIds(BootstrapAdmin(s, username, email).store)
    ensures Extends(s, InterruptedBootstrap(s, username, email).store)
    ensures UniqueAssignmentIds(InterruptedBootstrap(s, username, email).store)
  {
  }

  lemma ProvisionExtends(s: Store, call: Call)
    requires UniqueAssignmentIds(s)
    ensures Extends(s, Perform(s, call)) && UniqueAssignmentIds(Perform(s, call))
  {
    match call
    case Upsert(claims) =>
    case CreateLocal(dto) => CreateLocalExtends(s, dto);
    case SetStatus(id, active) =>
    case Bootstrap(username, email) => BootstrapExtends(s, username, email);
    case CutBootstrap(username, email) => BootstrapExtends(s, username, email);
  }

  // ── The cache never over-grants ───────────────────────────────────────────

  ghost predicate Sound(store: Store, e: Entry) {
    forall t, a :: Allows(e.value, t, a) ==> Granted(store, e.user, t, a)
  }

  ghost predicate Inv(s: System) {
    && UniqueAssignmentIds(s.store)
    && CacheOk(s.cache, s.now)
    && forall e :: e in s.cache ==> Sound(s.store, e)
  }

  lemma ExtendKeepsSound(s: Store, t: Store, e: Entry)
    requires Extends(s, t) && Sound(s, e)
    ensures Sound(t, e)
  {
    forall tb, a | Allows(e.value, tb, a) ensures Granted(t, e.user, tb, a) {
      GrantedIsMonotone(s, t, e.user, tb, a);
    }
  }

  /** Removing an assignment of one user leaves the grants of every other user. */
  lemma RemoveKeepsOthers(s: Store, user: int, role: int, other: int, table: string, action: Action)
    requires UniqueAssignmentIds(s) && RemoveRole(s, user, role).Ok? && other != user
    requires Granted(s, other, table, action)
    ensures Granted(RemoveRole(s, user, role).value, other, table, action)
  {
    RemoveDeletesOneRow(s, user, role);
    var i := FindAssignment(s.assignments, user, role).value;
    var t := RemoveRole(s, user, role).value;
    var a, r, p :| a in s.assignments && r in s.roles && p in s.permissions && Chain(a, r, p, other, table, action);
    assert a != s.assignments[i];
    assert a in t.assignments;
  }

  lemma UnassignKeepsInv(s: System, user: int, role: int)
    requires Inv(s)
    ensures Inv(Apply(s, Unassign(user, role)))
  {
    if RemoveRole(s.store, user, role).Ok? {
      var t := Apply(s, Unassign(user, role));
      RemoveDeletesOneRow(s.store, user, role);
      ClearKeepsOk(s.cache, Some(user), s.now);
      forall e | e in t.cache ensures Sound(t.store, e) {
        forall tb, a | Allows(e.value, tb, a) ensures Granted(t.store, e.user, tb, a) {
          RemoveKeepsOthers(s.store, user, role, e.user, tb, a);
        }
      }
    }
  }

  lemma ClearKeepsOk(c: Cache, user: Option<int>, now: nat)
    requires CacheOk(c, now)
    ensures CacheOk(Clear(c, user), now) && forall e :: e in Clear(c, user) ==> e in c && Some(e.user) != user
  {
    if user.Some? && user.value != 0 {
      SelectKeepsOk(c, (e: Entry) => e.user != user.value, now);
    }
  }

  lemma LoadKeepsInv(s: System, user: int)
    requires Inv(s)
    ensures Inv(Apply(s, LoadUser(user)))
  {
    var t := Apply(s, LoadUser(user));
    if t != s {
      var value := Load(s.store, user).value;
      InsertKeepsOk(s.cache, user, value, s.now, s.now);
      InsertMembers(s.cache, user, value, s.now);
      forall e | e in t.cache ensures Sound(t.store, e) {
        if e !in s.cache {
          forall tb, a | Allows(e.value, tb, a) ensures Granted(t.store, e.user, tb, a) {
            LoadMeetsSpecification(s.store, user, tb, a);
          }
        }
      }
    }
  }

  /** The calls that write permission rows or delete a role, and then clear everything. */
  predicate ClearsAll(op: Op) {
    op.SetOne? || op.SetBatch? || op.Copy? || op.DeletePermissions? || op.DropRole?
  }

  lemma ClearAllStep(s: System, op: Op)
    requires ClearsAll(op)
    ensures Apply(s, op).store.assignments == s.store.assignments
    ensures Apply(s, op).store.nextAssignment == s.store.nextAssignment
    ensures Apply(s, op) == s || Apply(s, op).cache == []
  {
    match op
    case SetOne(role, item) =>
    case SetBatch(role, items) => BatchAssignments(s.store, role, items);
    case Copy(source, target) =>
      BatchAssignments(s.store, target, ItemsOf(RowsOf(s.store.permissions, Some(source))));
    case DeletePermissions(role) =>
    case DropRole(id) =>
  }

  lemma AssignStepKeepsInv(s: System, op: Op)
    requires Inv(s) && (op.Assign? || op.AssignMany?)
    ensures Inv(Apply(s, op))
  {
    ClearKeepsOk(s.cache, Some(op.user), s.now);
    if op.AssignMany? {
      AssignRolesExtends(s.store, op.user, op.roles);
    }
    ExtendStep(s, Apply(s, op));
  }

  lemma StepKeepsInv(s: System, op: Op)
    requires Inv(s)
    ensures Inv(Apply(s, op))
  {
    if ClearsAll(op) {
      ClearAllStep(s, op);
    } else if op.Assign? || op.AssignMany? {
      AssignStepKeepsInv(s, op);
    } else {
      match op
      case Tick(dt) => CacheAgesOk(s.cache, s.now, s.now + dt);
      case LoadUser(user) => LoadKeepsInv(s, user);
      case Unassign(user, role) => UnassignKeepsInv(s, user, role);
      case NewRole(name) => ExtendStep(s, Apply(s, op));
      case Provision(call) => ProvisionExtends(s.store, call); ExtendStep(s, Apply(s, op));
      case ClearFor(whom) => ClearKeepsOk(s.cache, whom, s.now);
    }
  }

  lemma CacheAgesOk(c: Cache, now: nat, later: nat)
    requires CacheOk(c, now) && now <= later
    ensures CacheOk(c, later)
  {
  }

  lemma {:induction false} BatchAssignments(s: Store, role: int, items: seq<Item>)
    ensures BatchSet(s, role, items).store.assignments == s.assignments
    ensures BatchSet(s, role, items).store.nextAssignment == s.nextAssignment
    ensures BatchSet(s, role, items).applied == 0 ==> BatchSet(s, role, items).store == s
  {
    if items != [] {
      BatchAssignments(s, role, items[..|items| - 1]);
    }
  }

  /** A step that only adds rows and at most drops cache entries. */
  lemma ExtendStep(s: System, t: System)
    requires Inv(s) && Extends(s.store, t.store) && UniqueAssignmentIds(t.store)
    requires CacheOk(t.cache, t.now) && forall e :: e in t.cache ==> e in s.cache
    ensures Inv(t)
  {
    forall e | e in t.cache ensures Sound(t.store, e) {
      ExtendKeepsSound(s.store, t.store, e);
    }
  }

  lemma {:induction false} RunKeepsInv(s: System, ops: seq<Op>)
    requires Inv(s)
    ensures Inv(After(s, ops))
  {
    if ops != [] {
      RunKeepsInv(s, ops[..|ops| - 1]);
      StepKeepsInv(After(s, ops[..|ops| - 1]), ops[|ops| - 1]);
    }
  }

  /**
   In every state reachable from an empty cache, whatever calls were made and
   whether they succeeded, an action the cache allows is granted by a fresh join.
   */
  lemma NeverOverGrants(store: Store, now: nat, ops: seq<Op>, user: int, table: string, action: Action)
    requires UniqueAssignmentIds(store)
    ensures var s := After(System(store, [], now), ops);
            var hit := Hit(s.cache, user, s.now);
            hit.Some? && Allows(hit.value, table, action) ==> Granted(s.store, user, table, action)
  {
    RunKeepsInv(System(store, [], now), ops);
    var s := After(System(store, [], now), ops);
    if Hit(s.cache, user, s.now).Some? {
      assert Sound(s.store, Lookup(s.cache, user).value);
    }
  }

  /** In every reachable state the cache is ordered by expiry, has one entry per user and at most 1000. */
  lemma CacheStaysOrdered(store: Store, now: nat, ops: seq<Op>)
    requires UniqueAssignmentIds(store)
    ensures var s := After(System(store, [], now), ops); CacheOk(s.cache, s.now) && |s.cache| <= 1000
  {
    RunKeepsInv(System(store, [], now), ops);
  }

  /** Calls about one user, and calls that only add, leave the entries of all other users. */
  lemma OtherEntriesStay(s: System, op: Op, e: Entry)
    requires e in s.cache
    requires (op.Assign? || op.AssignMany? || op.Unassign?) ==> op.user != 0 && op.user != e.user
    requires op.Assign? || op.AssignMany? || op.Unassign? || op.NewRole? || op.Provision? || op.Tick?
    ensures e in Apply(s, op).cache
  {
  }

  /** A call that is refused at once changes neither the tables nor the cache. */
  lemma RefusedChangesNothing(s: System, op: Op)
    requires match op
             case SetOne(role, item) => SetPermission(s.store, role, item).Err?
             case SetBatch(role, items) => BatchSet(s.store, role, items).applied == 0
             case Copy(source, target) => CopyPermissions(s.store, source, target).applied == 0
             case DeletePermissions(role) => DeleteRolePermissions(s.store, role).Err?
             case Assign(user, role) => AssignRole(s.store, user, role).Err?
             case AssignMany(user, roles) => AssignRoles(s.store, user, roles).count == 0
             case Unassign(user, role) => RemoveRole(s.store, user, role).Err?
             case NewRole(name) => CreateRole(s.store, name).Err?
             case DropRole(id) => DeleteRole(s.store, id).Err?
             case _ => false
    ensures Apply(s, op) == s
  {
    match op
    case SetBatch(role, items) => BatchAssignments(s.store, role, items);
    case Copy(source, target) =>
      BatchAssignments(s.store, target, ItemsOf(RowsOf(s.store.permissions, Some(source))));
    case AssignMany(user, roles) => NothingAssigned(s.store, user, roles);
    case _ =>
  }

  lemma {:induction false} NothingAssigned(s: Store, user: int, roles: seq<int>)
    requires AssignRoles(s, user, roles).count == 0
    ensures AssignRoles(s, user, roles).store == s
  {
    if roles != [] {
      NothingAssigned(s, user, roles[..|roles| - 1]);
    }
  }

  // ── Clearing operations keep the cache exact ──────────────────────────────

  /** Every call but those that add rows without clearing. */
  predicate Clears(op: Op) {
    !op.NewRole? && !op.Provision?
  }

  predicate Exact(store: Store, e: Entry) {
    Load(store, e.user) == Loaded(e.value, true)
  }

  ghost predicate ExactInv(s: System) {
    UniqueAssignmentIds(s.store) && CacheOk(s.cache, s.now) && forall e :: e in s.cache ==> Exact(s.store, e)
  }

  /** The join of a user only reads that user's assignments. */
  lemma LoadOnlyReadsOwnAssignments(s: Store, t: Store, user: int)
    requires t == s.(assignments := t.assignments, nextAssignment := t.nextAssignment)
    requires AssignmentsOf(s, user) == AssignmentsOf(t, user)
    ensures Load(s, user) == Load(t, user)
  {
  }

  lemma AssignKeepsOthersRows(s: Store, user: int, role: int, other: int)
    requires other != user
    ensures AssignmentsOf(InsertAssignment(s, user, role), other) == AssignmentsOf(s, other)
  {
    SelectAppend(s.assignments, [AssignmentRow(s.nextAssignment, Some(user), Some(role))],
        (a: AssignmentRow) => a.userId == Some(other));
  }

  lemma {:induction false} AssignManyKeepsOthersRows(s: Store, user: int, roles: seq<int>, other: int)
    requires other != user
    ensures var t := AssignRoles(s, user, roles).store;
            t == s.(assignments := t.assignments, nextAssignment := t.nextAssignment)
            && AssignmentsOf(t, other) == AssignmentsOf(s, other)
  {
    if roles != [] {
      AssignManyKeepsOthersRows(s, user, roles[..|roles| - 1], other);
      AssignKeepsOthersRows(AssignRoles(s, user, roles[..|roles| - 1]).store, user, roles[|roles| - 1], other);
    }
  }

  /** The selection behind `AssignmentsOf`. */
  function RowsOfUser(rows: seq<AssignmentRow>, user: int): seq<AssignmentRow> {
    Select(rows, (a: AssignmentRow) => a.userId == Some(user))
  }

  lemma RowsOfUserAppend(a: seq<AssignmentRow>, b: seq<AssignmentRow>, user: int)
    ensures RowsOfUser(a + b, user) == RowsOfUser(a, user) + RowsOfUser(b, user)
  {
    SelectAppend(a, b, (r: AssignmentRow) => r.userId == Some(user));
  }

  lemma RowsOfUserWithout(front: seq<AssignmentRow>, row: AssignmentRow, rest: seq<AssignmentRow>, user: int)
    requires row.userId != Some(user)
    ensures RowsOfUser(front + ([row] + rest), user) == RowsOfUser(front + rest, user)
  {
    RowsOfUserAppend(front, [row] + rest, user);
    RowsOfUserAppend(front, rest, user);
    assert ([row] + rest)[1..] == rest;
  }

  lemma RemoveKeepsOthersRows(s: Store, user: int, role: int, other: int)
    requires UniqueAssignmentIds(s) && RemoveRole(s, user, role).Ok? && other != user
    ensures AssignmentsOf(RemoveRole(s, user, role).value, other) == AssignmentsOf(s, other)
  {
    RemoveDeletesOneRow(s, user, role);
    var i := FindAssignment(s.assignments, user, role).value;
    var rows := s.assignments;
    assert rows == rows[..i] + ([rows[i]] + rows[i + 1..]);
    RowsOfUserWithout(rows[..i], rows[i], rows[i + 1..], other);
  }

  lemma OwnClearKeepsExact(s: System, t: System, user: int)
    requires ExactInv(s) && UniqueAssignmentIds(t.store) && t.now == s.now
    requires t.cache == Clear(s.cache, Some(user))
    requires forall other :: other != user ==> Load(s.store, other) == Load(t.store, other)
    ensures ExactInv(t)
  {
    ClearKeepsOk(s.cache, Some(user), s.now);
    forall e | e in t.cache ensures Exact(t.store, e) {
      assert Exact(s.store, e) && e.user != user;
    }
  }

  lemma AssignStepKeepsExact(s: System, op: Op)
    requires ExactInv(s) && (op.Assign? || op.AssignMany?)
    ensures ExactInv(Apply(s, op))
  {
    var t, user := Apply(s, op), op.user;
    if op.AssignMany? {
      AssignRolesExtends(s.store, user, op.roles);
    }
    if t != s {
      forall other | other != user ensures Load(s.store, other) == Load(t.store, other) {
        if op.Assign? {
          AssignKeepsOthersRows(s.store, user, op.role, other);
        } else {
          AssignManyKeepsOthersRows(s.store, user, op.roles, other);
        }
        LoadOnlyReadsOwnAssignments(s.store, t.store, other);
      }
      OwnClearKeepsExact(s, t, user);
    }
  }

  lemma UnassignKeepsExact(s: System, user: int, role: int)
    requires ExactInv(s) && RemoveRole(s.store, user, role).Ok?
    ensures ExactInv(Apply(s, Unassign(user, role)))
  {
    var t := Apply(s, Unassign(user, role));
    RemoveDeletesOneRow(s.store, user, role);
    forall other | other != user ensures Load(s.store, other) == Load(t.store, other) {
      RemoveKeepsOthersRows(s.store, user, role, other);
      LoadOnlyReadsOwnAssignments(s.store, t.store, other);
    }
    OwnClearKeepsExact(s, t, user);
  }

  lemma LoadKeepsExact(s: System, user: int)
    requires ExactInv(s)
    ensures ExactInv(Apply(s, LoadUser(user)))
  {
    if Apply(s, LoadUser(user)) != s {
      InsertKeepsOk(s.cache, user, Load(s.store, user).value, s.now, s.now);
      InsertMembers(s.cache, user, Load(s.store, user).value, s.now);
    }
  }

  lemma StepKeepsExact(s: System, op: Op)
    requires ExactInv(s) && Clears(op)
    ensures ExactInv(Apply(s, op))
  {
    if ClearsAll(op) {
      ClearAllStep(s, op);
    } else if op.Assign? || op.AssignMany? {
      AssignStepKeepsExact(s, op);
    } else {
      match op
      case Tick(dt) => CacheAgesOk(s.cache, s.now, s.now + dt);
      case LoadUser(user) => LoadKeepsExact(s, user);
      case Unassign(user, role) =>
        if RemoveRole(s.store, user, role).Ok? {
          UnassignKeepsExact(s, user, role);
        }
      case ClearFor(whom) => ClearKeepsOk(s.cache, whom, s.now);
    }
  }

  lemma {:induction false} RunKeepsExact(s: System, ops: seq<Op>)
    requires ExactInv(s) && forall i :: 0 <= i < |ops| ==> Clears(ops[i])
    ensures ExactInv(After(s, ops))
  {
    if ops != [] {
      RunKeepsExact(s, ops[..|ops| - 1]);
      StepKeepsExact(After(s, ops[..|ops| - 1]), ops[|ops| - 1]);
    }
  }

  /** After any run of clearing operations a cached answer is the fresh one, names and all. */
  lemma CachedEqualsFresh(store: Store, now: nat, ops: seq<Op>, user: int)
    requires UniqueAssignmentIds(store) && forall i :: 0 <= i < |ops| ==> Clears(ops[i])
    ensures var s := After(System(store, [], now), ops);
            var hit := Hit(s.cache, user, s.now);
            hit.Some? ==> Load(s.store, user) == Loaded(hit.value, true)
  {
    RunKeepsExact(System(store, [], now), ops);
    var s := After(System(store, [], now), ops);
    if Hit(s.cache, user, s.now).Some? {
      assert Exact(s.store, Lookup(s.cache, user).value);
    }
  }

  // ── An operation that is not atomic ───────────────────────────────────────

  /** The store when the delete call after the first n of a role's rows fails. */
  function InterruptedDelete(s: Store, role: int, n: nat): Store
    requires n <= |RowsOf(s.permissions, Some(role))|
  {
    s.(permissions := WithoutIds(s.permissions, RowsOf(s.permissions, Some(role))[..n]))
  }

  const TWO_ROWS := Store(
    {Users, Roles, UserRoles, TablePermissions},
    [UserRow(1, Some("ada"), None, Some(true), None, None)], 2,
    [RoleRow(1, Some("editor"))], 2,
    [AssignmentRow(1, Some(1), Some(1))], 2,
    [PermissionRow(1, Some(1), Some("a"), Flags(false, true, false, false)),
     PermissionRow(2, Some(1), Some("b"), Flags(false, true, false, false))], 3)

  lemma TwoRowsGrant()
    ensures Allows(Load(TWO_ROWS, 1).value, "a", Read)
  {
    assert TWO_ROWS.assignments[0] in TWO_ROWS.assignments && TWO_ROWS.roles[0] in TWO_ROWS.roles;
    assert TWO_ROWS.permissions[0] in TWO_ROWS.permissions;
    assert Chain(TWO_ROWS.assignments[0], TWO_ROWS.roles[0], TWO_ROWS.permissions[0], 1, "a", Read);
    LoadMeetsSpecification(TWO_ROWS, 1, "a", Read);
  }

  lemma AllowedIsComplete(s: Store, user: int, table: string, action: Action)
    requires Allows(Load(s, user).value, table, action)
    ensures Load(s, user).complete && Load(s, user).value.user == user
  {
  }

  lemma AfterOne(s: System, op: Op)
    ensures After(s, [op]) == Apply(s, op)
  {
    assert After(s, [op][..0]) == s;
  }

  /** A first load that completes is found in the cache. */
  lemma FirstLoadIsCached(store: Store, user: int)
    requires Load(store, user).complete && Load(store, user).value.user == user
    ensures var s := Apply(System(store, [], 0), LoadUser(user));
            s.store == store && Hit(s.cache, user, s.now) == Some(Load(store, user).value)
  {
    InsertKeepsOk([], user, Load(store, user).value, 0, 0);
  }

  lemma TwoRowsCached()
    ensures var s := After(System(TWO_ROWS, [], 0), [LoadUser(1)]);
            && s.store == TWO_ROWS && Hit(s.cache, 1, s.now).Some?
            && Allows(Hit(s.cache, 1, s.now).value, "a", Read)
  {
    TwoRowsGrant();
    AllowedIsComplete(TWO_ROWS, 1, "a", Read);
    FirstLoadIsCached(TWO_ROWS, 1);
    AfterOne(System(TWO_ROWS, [], 0), LoadUser(1));
  }

  lemma TwoRowsInterrupted()
    ensures |RowsOf(TWO_ROWS.permissions, Some(1))| == 2
    ensures !Granted(InterruptedDelete(TWO_ROWS, 1, 1), 1, "a", Read)
  {
    var rows := TWO_ROWS.permissions;
    assert RowsOf(rows, Some(1)) == rows;
    assert rows[..1] == [rows[0]];
    assert WithoutIds(rows, [rows[0]]) == [rows[1]];
    assert forall p :: p in [rows[1]] ==> p.table != Some("a");
  }

  /**
   `deleteRolePermissions` clears the cache only after its last delete call. If
   one fails half-way, the rows deleted so far stay granted by the cache.
   */
  lemma InterruptedDeleteOverGrants()
    ensures |RowsOf(TWO_ROWS.permissions, Some(1))| == 2
    ensures var s := After(System(TWO_ROWS, [], 0), [LoadUser(1)]);
            && s.store == TWO_ROWS && Hit(s.cache, 1, s.now).Some? && Allows(Hit(s.cache, 1, s.now).value, "a", Read)
            && !Granted(InterruptedDelete(TWO_ROWS, 1, 1), 1, "a", Read)
  {
    TwoRowsCached();
    TwoRowsInterrupted();
  }

  /** A row that grants nothing. */
  predicate Idle(p: PermissionRow) {
    p.table.None? || p.table.value == "" || p.flags == Flags(false, false, false, false)
  }

  /** The user is assigned the role, and the role exists. */
  ghost predicate Holds(s: Store, user: int, role: int) {
    && role > 0 && (exists a :: a in s.assignments && a.userId == Some(user) && a.roleId == Some(role))
    && exists r :: r in s.roles && r.id == role
  }

  lemma DeletedIffListed(s: Store, role: int, n: nat, p: PermissionRow)
    requires UniquePermissionIds(s) && p in s.permissions && n <= |RowsOf(s.permissions, Some(role))|
    ensures p in InterruptedDelete(s, role, n).permissions <==> p !in RowsOf(s.permissions, Some(role))[..n]
  {
    var gone := RowsOf(s.permissions, Some(role))[..n];
    forall g | g in gone && g.id == p.id ensures g == p {
      assert g in RowsOf(s.permissions, Some(role));
      var i :| 0 <= i < |s.permissions| && s.permissions[i] == g;
      var j :| 0 <= j < |s.permissions| && s.permissions[j] == p;
      assert i == j;
    }
  }

  lemma UniqueKey(rows: seq<PermissionRow>, p: PermissionRow, q: PermissionRow)
    requires UniqueKeys(rows) && p in rows && q in rows
    requires p.roleId.Some? && p.table.Some? && p.roleId == q.roleId && p.table == q.table
    ensures p == q
  {
    var i :| 0 <= i < |rows| && rows[i] == p;
    var j :| 0 <= j < |rows| && rows[j] == q;
    assert i == j;
  }

  /** A row of one of the user's roles that gives the action on the table. */
  ghost predicate GivesTo(s: Store, user: int, p: PermissionRow, table: string, action: Action) {
    && p.roleId.Some? && Holds(s, user, p.roleId.value)
    && p.table == Some(table) && table != "" && Has(p.flags, action)
  }

  lemma GrantedByRow(s: Store, user: int, table: string, action: Action)
    requires AllPresent(s)
    ensures Granted(s, user, table, action) <==> exists p :: p in s.permissions && GivesTo(s, user, p, table, action)
  {
    if p :| p in s.permissions && GivesTo(s, user, p, table, action) {
      var a :| a in s.assignments && a.userId == Some(user) && a.roleId == p.roleId;
      var r :| r in s.roles && r.id == p.roleId.value;
      assert Chain(a, r, p, user, table, action);
    }
    if Granted(s, user, table, action) {
      var a, r, p :| a in s.assignments && r in s.roles && p in s.permissions && Chain(a, r, p, user, table, action);
      assert GivesTo(s, user, p, table, action);
    }
  }

  ghost predicate KeepsGrants(s: Store, t: Store, user: int) {
    forall table, action :: Granted(s, user, table, action) ==> Granted(t, user, table, action)
  }

  /** The user keeps the action on the table without the rows that are gone. */
  ghost predicate Covered(s: Store, user: int, gone: seq<PermissionRow>, table: string, action: Action) {
    exists p :: p in s.permissions && p !in gone && GivesTo(s, user, p, table, action)
  }

  /** Everything the rows that are gone gave on their tables. */
  ghost predicate AllCovered(s: Store, user: int, gone: seq<PermissionRow>) {
    forall g, action :: g in gone && g.table.Some? && g.table.value != "" && Has(g.flags, action)
                        ==> Covered(s, user, gone, g.table.value, action)
  }

  lemma UncoveredIsLost(s: Store, role: int, n: nat, user: int, g: PermissionRow, action: Action)
    requires UniquePermissionIds(s) && AllPresent(s) && Holds(s, user, role)
    requires n <= |RowsOf(s.permissions, Some(role))| && g in RowsOf(s.permissions, Some(role))[..n]
    requires g.table.Some? && g.table.value != "" && Has(g.flags, action)
    requires !Covered(s, user, RowsOf(s.permissions, Some(role))[..n], g.table.value, action)
    ensures Granted(s, user, g.table.value, action)
    ensures !Granted(InterruptedDelete(s, role, n), user, g.table.value, action)
  {
    var t := InterruptedDelete(s, role, n);
    assert g in RowsOf(s.permissions, Some(role));
    assert GivesTo(s, user, g, g.table.value, action);
    GrantedByRow(s, user, g.table.value, action);
    GrantedByRow(t, user, g.table.value, action);
    forall p | p in t.permissions ensures !GivesTo(t, user, p, g.table.value, action) {
      if GivesTo(t, user, p, g.table.value, action) {
        assert GivesTo(s, user, p, g.table.value, action);
        DeletedIffListed(s, role, n, p);
      }
    }
  }

  lemma CoveredIsKept(s: Store, role: int, n: nat, user: int, table: string, action: Action)
    requires UniquePermissionIds(s) && AllPresent(s) && n <= |RowsOf(s.permissions, Some(role))|
    requires Granted(s, user, table, action)
    requires Holds(s, user, role) ==> AllCovered(s, user, RowsOf(s.permissions, Some(role))[..n])
    ensures Granted(InterruptedDelete(s, role, n), user, table, action)
  {
    var gone := RowsOf(s.permissions, Some(role))[..n];
    GrantedByRow(s, user, table, action);
    GrantedByRow(InterruptedDelete(s, role, n), user, table, action);
    var p :| p in s.permissions && GivesTo(s, user, p, table, action);
    var kept := p;
    if p in gone {
      assert p in RowsOf(s.permissions, Some(role));
      kept :| kept in s.permissions && kept !in gone && GivesTo(s, user, kept, table, action);
    }
    DeletedIffListed(s, role, n, kept);
    assert GivesTo(InterruptedDelete(s, role, n), user, kept, table, action);
  }

  /**
   For any stored rows, duplicates included, an interrupted delete takes nothing
   from a user exactly when the user does not hold the role, or everything the
   deleted rows gave on their tables is also given by a row that is left, of this
   role or another one the user holds.
   */
  lemma InterruptedDeleteIsHarmlessIff(s: Store, role: int, n: nat, user: int)
    requires UniquePermissionIds(s) && AllPresent(s) && n <= |RowsOf(s.permissions, Some(role))|
    ensures KeepsGrants(s, InterruptedDelete(s, role, n), user)
            <==> !Holds(s, user, role) || AllCovered(s, user, RowsOf(s.permissions, Some(role))[..n])
  {
    var gone := RowsOf(s.permissions, Some(role))[..n];
    if Holds(s, user, role) ==> AllCovered(s, user, gone) {
      forall table, action | Granted(s, user, table, action)
        ensures Granted(InterruptedDelete(s, role, n), user, table, action)
      {
        CoveredIsKept(s, role, n, user, table, action);
      }
    } else {
      var g, action :| g in gone && g.table.Some? && g.table.value != "" && Has(g.flags, action)
                       && !Covered(s, user, gone, g.table.value, action);
      UncoveredIsLost(s, role, n, user, g, action);
    }
  }

  /** A cached answer that was the fresh one is left an over-grant by the interrupted delete exactly otherwise. */
  lemma InterruptedDeleteLeavesEntrySoundIff(s: Store, role: int, n: nat, e: Entry)
    requires UniquePermissionIds(s) && AllPresent(s) && Exact(s, e) && n <= |RowsOf(s.permissions, Some(role))|
    ensures Sound(InterruptedDelete(s, role, n), e)
            <==> !Holds(s, e.user, role) || AllCovered(s, e.user, RowsOf(s.permissions, Some(role))[..n])
  {
    forall table, action ensures Allows(e.value, table, action) <==> Granted(s, e.user, table, action) {
      LoadMeetsSpecification(s, e.user, table, action);
    }
    InterruptedDeleteIsHarmlessIff(s, role, n, e.user);
  }

  /** What a row gives is also given by a row of another role the user holds. */
  ghost predicate CoveredByOther(s: Store, user: int, role: int, table: string, action: Action) {
    exists p :: p in s.permissions && p.roleId != Some(role) && GivesTo(s, user, p, table, action)
  }

  ghost predicate AllCoveredByOther(s: Store, user: int, role: int, gone: seq<PermissionRow>) {
    forall g, action :: g in gone && g.table.Some? && g.table.value != "" && Has(g.flags, action)
                        ==> CoveredByOther(s, user, role, g.table.value, action)
  }

  lemma CoveredWithUniqueKeys(s: Store, user: int, role: int, n: nat, g: PermissionRow, action: Action)
    requires UniqueKeys(s.permissions) && n <= |RowsOf(s.permissions, Some(role))|
    requires g in RowsOf(s.permissions, Some(role))[..n] && g.table.Some?
    ensures Covered(s, user, RowsOf(s.permissions, Some(role))[..n], g.table.value, action)
            <==> CoveredByOther(s, user, role, g.table.value, action)
  {
    var rows := RowsOf(s.permissions, Some(role));
    var gone := rows[..n];
    assert g in rows && forall p :: p in gone ==> p in rows;
    if Covered(s, user, gone, g.table.value, action) {
      var p :| p in s.permissions && p !in gone && GivesTo(s, user, p, g.table.value, action);
      if p.roleId == Some(role) {
        UniqueKey(s.permissions, p, g);
      }
    }
    if p :| p in s.permissions && p.roleId != Some(role) && GivesTo(s, user, p, g.table.value, action) {
      assert p !in gone;
    }
  }

  /** While every (role, table) has one row, only the user's other roles can give what is gone. */
  lemma UniqueKeysInterruptedDeleteIff(s: Store, role: int, n: nat, user: int)
    requires UniquePermissionIds(s) && UniqueKeys(s.permissions) && AllPresent(s)
    requires n <= |RowsOf(s.permissions, Some(role))|
    ensures KeepsGrants(s, InterruptedDelete(s, role, n), user)
            <==> !Holds(s, user, role) || AllCoveredByOther(s, user, role, RowsOf(s.permissions, Some(role))[..n])
  {
    InterruptedDeleteIsHarmlessIff(s, role, n, user);
    var gone := RowsOf(s.permissions, Some(role))[..n];
    forall g, action | g in gone && g.table.Some?
      ensures Covered(s, user, gone, g.table.value, action) <==> CoveredByOther(s, user, role, g.table.value, action)
    {
      CoveredWithUniqueKeys(s, user, role, n, g, action);
    }
  }

  /** A row of this role that is left gives the action on the table. */
  ghost predicate LeftInRole(s: Store, role: int, gone: seq<PermissionRow>, table: string, action: Action) {
    exists p :: p in s.permissions && p !in gone && p.roleId == Some(role) && p.table == Some(table)
        && Has(p.flags, action)
  }

  ghost predicate AllLeftInRole(s: Store, role: int, gone: seq<PermissionRow>) {
    forall g, action :: g in gone && g.table.Some? && g.table.value != "" && Has(g.flags, action)
                        ==> LeftInRole(s, role, gone, g.table.value, action)
  }

  /** For a user with this one role: what the deleted rows gave is given by rows of it that are left. */
  lemma OneRoleInterruptedDeleteIff(s: Store, role: int, n: nat, user: int)
    requires UniquePermissionIds(s) && AllPresent(s) && n <= |RowsOf(s.permissions, Some(role))|
    requires Holds(s, user, role) && forall other :: Holds(s, user, other) ==> other == role
    ensures KeepsGrants(s, InterruptedDelete(s, role, n), user)
            <==> AllLeftInRole(s, role, RowsOf(s.permissions, Some(role))[..n])
  {
    InterruptedDeleteIsHarmlessIff(s, role, n, user);
    var gone := RowsOf(s.permissions, Some(role))[..n];
    forall table: string, action | table != ""
      ensures Covered(s, user, gone, table, action) <==> LeftInRole(s, role, gone, table, action)
    {
      OneRoleCovered(s, role, gone, user, table, action);
    }
  }

  lemma OneRoleCovered(s: Store, role: int, gone: seq<PermissionRow>, user: int, table: string, action: Action)
    requires Holds(s, user, role) && (forall other :: Holds(s, user, other) ==> other == role) && table != ""
    ensures Covered(s, user, gone, table, action) <==> LeftInRole(s, role, gone, table, action)
  {
    if LeftInRole(s, role, gone, table, action) {
      var p :| p in s.permissions && p !in gone && p.roleId == Some(role) && p.table == Some(table)
               && Has(p.flags, action);
      assert GivesTo(s, user, p, table, action);
    }
  }

  /** And while every (role, table) has one row: exactly when the rows deleted so far granted nothing. */
  lemma OneRoleUniqueKeysInterruptedDeleteIff(s: Store, role: int, n: nat, user: int)
    requires UniquePermissionIds(s) && UniqueKeys(s.permissions) && AllPresent(s)
    requires Holds(s, user, role) && forall other :: Holds(s, user, other) ==> other == role
    requires n <= |RowsOf(s.permissions, Some(role))|
    ensures KeepsGrants(s, InterruptedDelete(s, role, n), user)
            <==> forall g :: g in RowsOf(s.permissions, Some(role))[..n] ==> Idle(g)
  {
    UniqueKeysInterruptedDeleteIff(s, role, n, user);
    var gone := RowsOf(s.permissions, Some(role))[..n];
    forall table, action ensures !CoveredByOther(s, user, role, table, action) {
    }
    forall g | g in gone && !Idle(g) ensures exists action :: Has(g.flags, action) {
      FlagOf(g.flags);
    }
  }

  lemma FlagOf(f: Flags)
    requires f != Flags(false, false, false, false)
    ensures exists action :: Has(f, action)
  {
    assert Has(f, if f.create then Create else if f.read then Read else if f.update then Update else Delete);
  }
}
