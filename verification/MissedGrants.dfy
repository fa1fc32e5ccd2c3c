/**
 What the cache may miss: role creation, bootstrap and local users add grants
 without clearing it. Over runs of all calls, when a valid cached answer allows
 exactly what a fresh join would.
 */
module MissedGrants {
  import opened Wrappers
  import Text
  import Filter
  import FilterLaws
  import opened Store
  import opened Permissions
  import opened PermissionRows
  import opened RoleServices
  import opened Identity
  import opened RbacRuns

  // ── Roles a call gives ────────────────────────────────────────────────────

  /** The user a bootstrap makes an administrator, by the guards of its branches. */
  function BootstrapTarget(s: Store, username: string, email: string): Option<nat> {
    if AddsAdmin(s, username, email) then Some(s.nextUser)
    else if {Users, Roles, UserRoles} <= s.present && Filter.NormalizeText(username).Ok?
        && Filter.NormalizeText(email).Ok?
            && FindRole(s.roles, "admin").Some? && FindByName(s.users, Text.Trim(username)).Some?
    then Some(s.users[FindByName(s.users, Text.Trim(username)).value].id)
    else None
  }

  /** One of the names, before the first that cannot be looked up, is the name of this role. */
  ghost predicate NamesRole(s: Store, names: seq<string>, role: int) {
    exists i :: 0 <= i < |names| && NameIsRole(s, names[i], role)
                && forall j :: 0 <= j < i ==> Filter.NormalizeText(names[j]).Ok?
  }

  predicate NameIsRole(s: Store, name: string, role: int) {
    && Filter.NormalizeText(name).Ok? && FindRole(s.roles, Text.Trim(name)).Some?
    && s.roles[FindRole(s.roles, Text.Trim(name)).value].id == role
  }

  /** Whether the call makes the user hold the role. */
  ghost predicate GivesRole(s: Store, op: Op, user: int, role: int) {
    role > 0 &&
    match op
    case NewRole(name) =>
      && Roles in s.present && FilterLaws.IsRoleName(name) && FindRole(s.roles, name).None? && role == s.nextRole
      && exists a :: a in s.assignments && a.userId == Some(user) && a.roleId == Some(role)
    case Provision(Bootstrap(username, email)) =>
      && BootstrapTarget(s, username, email) == Some(user)
      && role == s.roles[FindRole(s.roles, "admin").value].id
    case Provision(CreateLocal(dto)) =>
      && AddsLocal(s, dto) && Roles in s.present && UserRoles in s.present && user == s.nextUser
      && NamesRole(s, dto.roles, role)
    case _ => false
  }

  /** The calls that add rows of the join without clearing the cache. */
  predicate AddsUncleared(op: Op) {
    op.NewRole? || op.Provision?
  }

  lemma InsertedHolds(s: Store, t: Store, user: int, given: int, other: int, role: int)
    requires t.assignments == InsertAssignment(s, user, given).assignments && t.roles == s.roles
    requires exists r :: r in s.roles && r.id == given
    ensures Holds(t, other, role) <==> Holds(s, other, role) || (other == user && role == given && role > 0)
  {
    assert t.assignments[|s.assignments|] == AssignmentRow(s.nextAssignment, Some(user), Some(given));
    assert forall a :: a in t.assignments <==> a in s.assignments || a == t.assignments[|s.assignments|];
  }

  lemma SameHolds(s: Store, t: Store, user: int, role: int)
    requires t.assignments == s.assignments && t.roles == s.roles
    ensures Holds(t, user, role) <==> Holds(s, user, role)
  {
  }

  lemma FoundHolds(s: Store, user: int, role: int)
    requires FindAssignment(s.assignments, user, role).Some? && (exists r :: r in s.roles && r.id == role) && role > 0
    ensures Holds(s, user, role)
  {
    assert s.assignments[FindAssignment(s.assignments, user, role).value] in s.assignments;
  }

  lemma NewRoleHolds(s: Store, name: string, user: int, role: int)
    requires CreateRole(s, name).Ok?
    ensures Holds(CreateRole(s, name).value, user, role)
            <==> Holds(s, user, role) || GivesRole(s, NewRole(name), user, role)
  {
    var t := CreateRole(s, name).value;
    var row := RoleRow(s.nextRole, Some(name));
    assert t.roles[|s.roles|] == row;
    assert forall r :: r in t.roles <==> r in s.roles || r == row;
  }

  lemma BootstrapIsInsert(s: Store, username: string, email: string)
    ensures var t, target := BootstrapAdmin(s, username, email).store, BootstrapTarget(s, username, email);
            && t.roles == s.roles
            && match target
               case None => t.assignments == s.assignments
               case Some(user) =>
                 var admin := FindRole(s.roles, "admin");
                 && admin.Some?
                 && var role := s.roles[admin.value].id;
                    || (t.assignments == s.assignments && FindAssignment(s.assignments, user, role).Some?)
                    || t.assignments == InsertAssignment(s, user, role).assignments
  {
  }

  lemma BootstrapHolds(s: Store, username: string, email: string, user: int, role: int)
    ensures Holds(BootstrapAdmin(s, username, email).store, user, role)
            <==> Holds(s, user, role) || GivesRole(s, Provision(Bootstrap(username, email)), user, role)
  {
    BootstrapIsInsert(s, username, email);
    var t := BootstrapAdmin(s, username, email).store;
    var target := BootstrapTarget(s, username, email);
    if target.None? {
      SameHolds(s, t, user, role);
    } else {
      var admin := s.roles[FindRole(s.roles, "admin").value];
      assert admin in s.roles;
      if t.assignments == s.assignments {
        SameHolds(s, t, user, role);
        if admin.id > 0 { FoundHolds(s, target.value, admin.id); }
      } else {
        InsertedHolds(s, t, target.value, admin.id, user, role);
      }
    }
  }

  lemma AssignByNameHolds(s: Store, user: nat, name: string, other: int, role: int)
    requires Filter.NormalizeText(name).Ok?
    ensures var t := AssignByName(s, user, name).store;
            && AssignByName(s, user, name).error == None && t.roles == s.roles
            && (Holds(t, other, role)
               <==> Holds(s, other, role) || (other == user && role > 0 && NameIsRole(s, name, role)))
  {
    var i := FindRole(s.roles, Text.Trim(name));
    if i.Some? {
      var found := s.roles[i.value];
      assert found in s.roles;
      if FindAssignment(s.assignments, user, found.id).Some? {
        if found.id > 0 { FoundHolds(s, user, found.id); }
      } else {
        InsertedHolds(s, AssignByName(s, user, name).store, user, found.id, other, role);
      }
    }
  }

  lemma AssignByNamesStep(s: Store, user: nat, front: seq<string>, last: string)
    ensures var b, r := AssignRolesByName(s, user, front), AssignRolesByName(s, user, front + [last]);
            if b.error == None && Filter.NormalizeText(last).Ok?
                then r.store == AssignByName(b.store, user, last).store
            else r.store == b.store
  {
    assert (front + [last])[..|front|] == front;
  }

  lemma SameNames(s: Store, t: Store, name: string, role: int)
    requires s.roles == t.roles
    ensures NameIsRole(s, name, role) <==> NameIsRole(t, name, role)
  {
  }

  lemma {:induction false} AssignByNamesHolds(s: Store, user: nat, names: seq<string>, other: int, role: int)
    ensures Holds(AssignRolesByName(s, user, names).store, other, role)
            <==> Holds(s, other, role) || (other == user && role > 0 && NamesRole(s, names, role))
  {
    if names != [] {
      var front, last := names[..|names| - 1], names[|names| - 1];
      assert names == front + [last];
      AssignByNamesHolds(s, user, front, other, role);
      AssignByNamesStops(s, user, front);
      AssignByNamesStep(s, user, front, last);
      NamesRoleSnoc(s, front, last, role);
      var b := AssignRolesByName(s, user, front);
      if b.error == None && Filter.NormalizeText(last).Ok? {
        AssignByNameHolds(b.store, user, last, other, role);
        SameNames(s, b.store, last, role);
      }
    }
  }

  lemma NamesRoleSnoc(s: Store, front: seq<string>, last: string, role: int)
    ensures NamesRole(s, front + [last], role)
            <==> NamesRole(s, front, role) || (NameIsRole(s, last, role) && AllLookedUp(front))
  {
    var names := front + [last];
    assert forall i :: 0 <= i < |front| ==> names[i] == front[i];
    assert names[|front|] == last;
    if NamesRole(s, front, role) {
      var i :| 0 <= i < |front| && NameIsRole(s, front[i], role)
               && forall j :: 0 <= j < i ==> Filter.NormalizeText(front[j]).Ok?;
      assert NameIsRole(s, names[i], role);
    }
    if NameIsRole(s, last, role) && AllLookedUp(front) {
      assert NameIsRole(s, names[|front|], role);
    }
  }

  lemma CreateLocalHolds(s: Store, dto: LocalUser, user: int, role: int)
    ensures Holds(CreateLocalUser(s, dto).store, user, role)
            <==> Holds(s, user, role) || GivesRole(s, Provision(CreateLocal(dto)), user, role)
  {
    var t := InsertUser(s, NewLocalUser(dto));
    AssignByNamesHolds(t, s.nextUser, dto.roles, user, role);
    SameHolds(s, t, user, role);
    SameNamesRole(s, t, dto.roles, role);
    CreateLocalIsInsert(s, dto);
    if AddsLocal(s, dto) && !(Roles in s.present && UserRoles in s.present) {
      SameHolds(s, CreateLocalUser(s, dto).store, user, role);
    }
  }

  lemma SameNamesRole(s: Store, t: Store, names: seq<string>, role: int)
    requires s.roles == t.roles
    ensures NamesRole(s, names, role) <==> NamesRole(t, names, role)
  {
    forall i | 0 <= i < |names| ensures NameIsRole(s, names[i], role) <==> NameIsRole(t, names[i], role) {
      SameNames(s, t, names[i], role);
    }
  }

  /** The store a local user leaves, by its guards. */
  lemma CreateLocalIsInsert(s: Store, dto: LocalUser)
    ensures var t, added := CreateLocalUser(s, dto).store, InsertUser(s, NewLocalUser(dto));
            if !AddsLocal(s, dto) then t == s
            else if !(Roles in s.present && UserRoles in s.present) then t == added
            else t == AssignRolesByName(added, s.nextUser, dto.roles).store
  {
  }

  /** After such a call a user holds what it held and what the call gives. */
  lemma HoldsAfter(s: System, op: Op, user: int, role: int)
    requires AddsUncleared(op)
    ensures Holds(Apply(s, op).store, user, role)
            <==> Holds(s.store, user, role) || GivesRole(s.store, op, user, role)
  {
    match op
    case NewRole(name) =>
      if CreateRole(s.store, name).Ok? {
        NewRoleHolds(s.store, name, user, role);
      }
    case Provision(Upsert(claims)) => SameHolds(s.store, Apply(s, op).store, user, role);
    case Provision(CreateLocal(dto)) => CreateLocalHolds(s.store, dto, user, role);
    case Provision(SetStatus(_, _)) => SameHolds(s.store, Apply(s, op).store, user, role);
    case Provision(Bootstrap(username, email)) => BootstrapHolds(s.store, username, email, user, role);
    case Provision(CutBootstrap(_, _)) => SameHolds(s.store, Apply(s, op).store, user, role);
  }

  // ── Grants a call adds ────────────────────────────────────────────────────

  /** A row of a role the call gives to the user allows something the user was not granted. */
  ghost predicate Gains(s: Store, op: Op, user: int) {
    exists p, table, action :: p in s.permissions && GainsBy(s, op, user, p, table, action)
  }

  ghost predicate GainsBy(s: Store, op: Op, user: int, p: PermissionRow, table: string, action: Action) {
    && AllPresent(s) && p.roleId.Some? && GivesRole(s, op, user, p.roleId.value)
    && p.table == Some(table) && table != "" && Has(p.flags, action) && !Granted(s, user, table, action)
  }

  lemma CreateLocalKeepsTables(s: Store, dto: LocalUser)
    ensures var t := CreateLocalUser(s, dto).store; t.permissions == s.permissions && t.present == s.present
  {
    AssignByNamesKeepTables(InsertUser(s, NewLocalUser(dto)), s.nextUser, dto.roles);
  }

  lemma BootstrapKeepsTables(s: Store, username: string, email: string)
    ensures var t := BootstrapAdmin(s, username, email).store;
            t.permissions == s.permissions && t.present == s.present
  {
  }

  lemma AddsKeepTables(s: System, op: Op)
    requires AddsUncleared(op)
    ensures var t := Apply(s, op);
            t.store.permissions == s.store.permissions && t.store.present == s.store.present
            && t.cache == s.cache && t.now == s.now
  {
    match op
    case NewRole(name) =>
    case Provision(CreateLocal(dto)) => CreateLocalKeepsTables(s.store, dto);
    case Provision(Bootstrap(username, email)) => BootstrapKeepsTables(s.store, username, email);
    case Provision(CutBootstrap(username, email)) => BootstrapKeepsTables(s.store, username, email);
    case Provision(_) =>
  }

  lemma {:induction false} AssignByNamesKeepTables(s: Store, user: nat, names: seq<string>)
    ensures var t := AssignRolesByName(s, user, names).store; t.permissions == s.permissions && t.present == s.present
  {
    if names != [] {
      AssignByNamesKeepTables(s, user, names[..|names| - 1]);
    }
  }

  /** The grants of a user after such a call: those before and those gained. */
  lemma GrantedAfter(s: System, op: Op, user: int, table: string, action: Action)
    requires AddsUncleared(op) && AllPresent(s.store)
    ensures Granted(Apply(s, op).store, user, table, action)
            <==> Granted(s.store, user, table, action)
                 || exists p :: p in s.store.permissions && GainsBy(s.store, op, user, p, table, action)
  {
    var t := Apply(s, op).store;
    AddsKeepTables(s, op);
    GrantedByRow(s.store, user, table, action);
    GrantedByRow(t, user, table, action);
    forall p | p in s.store.permissions && p.roleId.Some?
      ensures Holds(t, user, p.roleId.value)
              <==> Holds(s.store, user, p.roleId.value) || GivesRole(s.store, op, user, p.roleId.value)
    {
      HoldsAfter(s, op, user, p.roleId.value);
    }
    forall p | p in s.store.permissions
      ensures GivesTo(t, user, p, table, action)
              ==> Granted(s.store, user, table, action) || GainsBy(s.store, op, user, p, table, action)
    {
    }
    forall p | p in s.store.permissions && GainsBy(s.store, op, user, p, table, action)
      ensures GivesTo(t, user, p, table, action)
    {
    }
    forall p | p in s.store.permissions && GivesTo(s.store, user, p, table, action)
      ensures GivesTo(t, user, p, table, action)
    {
    }
  }

  ghost predicate SameGrants(s: Store, t: Store, user: int) {
    forall table, action :: Granted(s, user, table, action) <==> Granted(t, user, table, action)
  }

  lemma SameGrantsIff(s: System, op: Op, user: int)
    requires AddsUncleared(op)
    ensures SameGrants(s.store, Apply(s, op).store, user) <==> !Gains(s.store, op, user)
  {
    AddsKeepTables(s, op);
    if AllPresent(s.store) {
      forall table, action
        ensures Granted(Apply(s, op).store, user, table, action)
                <==> Granted(s.store, user, table, action)
                     || exists p :: p in s.store.permissions && GainsBy(s.store, op, user, p, table, action)
      {
        GrantedAfter(s, op, user, table, action);
      }
      if p, table, action :| p in s.store.permissions && GainsBy(s.store, op, user, p, table, action) {
        assert Granted(Apply(s, op).store, user, table, action) && !Granted(s.store, user, table, action);
      }
    }
  }

  // ── The cache over runs ───────────────────────────────────────────────────

  /** The entry allows exactly what a fresh join grants. */
  ghost predicate Matches(store: Store, e: Entry) {
    forall table, action :: Allows(e.value, table, action) <==> Granted(store, e.user, table, action)
  }

  /** Every valid entry does. */
  ghost predicate Complete(s: System) {
    forall e :: e in s.cache && e.expiresAt > s.now ==> Matches(s.store, e)
  }

  ghost predicate GrantInv(s: System) {
    UniqueAssignmentIds(s.store) && CacheOk(s.cache, s.now)
  }

  /** The call gains nothing for a user with a valid entry. */
  ghost predicate Harmless(s: System, op: Op) {
    AddsUncleared(op) ==> forall e :: e in s.cache && e.expiresAt > s.now ==> !Gains(s.store, op, e.user)
  }

  lemma AddsKeepCompleteIff(s: System, op: Op)
    requires Complete(s) && AddsUncleared(op)
    ensures Complete(Apply(s, op)) <==> Harmless(s, op)
  {
    AddsKeepTables(s, op);
    var t := Apply(s, op);
    forall e | e in s.cache && e.expiresAt > s.now ensures Matches(t.store, e) <==> !Gains(s.store, op, e.user) {
      SameGrantsIff(s, op, e.user);
      MatchesIff(s.store, t.store, e);
    }
  }

  lemma MatchesIff(s: Store, t: Store, e: Entry)
    requires Matches(s, e)
    ensures Matches(t, e) <==> SameGrants(s, t, e.user)
  {
  }

  lemma SameLoadSameGrants(s: Store, t: Store, user: int)
    requires Load(s, user) == Load(t, user)
    ensures SameGrants(s, t, user)
  {
    forall table, action ensures Granted(s, user, table, action) <==> Granted(t, user, table, action) {
      LoadMeetsSpecification(s, user, table, action);
      LoadMeetsSpecification(t, user, table, action);
    }
  }

  lemma OwnClearKeepsComplete(s: System, t: System, user: int)
    requires Complete(s) && CacheOk(s.cache, s.now) && t.now == s.now && t.cache == Clear(s.cache, Some(user))
    requires forall other :: other != user ==> Load(s.store, other) == Load(t.store, other)
    ensures Complete(t)
  {
    ClearKeepsOk(s.cache, Some(user), s.now);
    forall e | e in t.cache && e.expiresAt > t.now ensures Matches(t.store, e) {
      SameLoadSameGrants(s.store, t.store, e.user);
      MatchesIff(s.store, t.store, e);
    }
  }

  lemma AssignKeepsComplete(s: System, op: Op)
    requires Complete(s) && GrantInv(s) && (op.Assign? || op.AssignMany?)
    ensures Complete(Apply(s, op))
  {
    var t, user := Apply(s, op), op.user;
    if op.AssignMany? {
      AssignRolesExtends(s.store, user, op.roles);
    }
    if t != s {
      forall other | other != user ensures Load(s.store, other) == Load(t.store, other) {
        if op.Assign? {
          AssignKeepsOthersRows(s.store, user, op.role, other);
        } else {
          AssignManyKeepsOthersRows(s.store, user, op.roles, other);
        }
        LoadOnlyReadsOwnAssignments(s.store, t.store, other);
      }
      OwnClearKeepsComplete(s, t, user);
    }
  }

  lemma UnassignKeepsComplete(s: System, user: int, role: int)
    requires Complete(s) && GrantInv(s) && RemoveRole(s.store, user, role).Ok?
    ensures Complete(Apply(s, Unassign(user, role)))
  {
    var t := Apply(s, Unassign(user, role));
    RemoveDeletesOneRow(s.store, user, role);
    forall other | other != user ensures Load(s.store, other) == Load(t.store, other) {
      RemoveKeepsOthersRows(s.store, user, role, other);
      LoadOnlyReadsOwnAssignments(s.store, t.store, other);
    }
    OwnClearKeepsComplete(s, t, user);
  }

  lemma LoadKeepsComplete(s: System, user: int)
    requires Complete(s)
    ensures Complete(Apply(s, LoadUser(user)))
  {
    var t := Apply(s, LoadUser(user));
    if t != s {
      var value := Load(s.store, user).value;
      InsertMembers(s.cache, user, value, s.now);
      forall e | e in t.cache && e.expiresAt > t.now ensures Matches(t.store, e) {
        if e !in s.cache {
          forall table, action ensures Allows(value, table, action) <==> Granted(s.store, user, table, action) {
            LoadMeetsSpecification(s.store, user, table, action);
          }
        }
      }
    }
  }

  lemma StepKeepsCompleteIff(s: System, op: Op)
    requires GrantInv(s) && Complete(s)
    ensures Complete(Apply(s, op)) <==> Harmless(s, op)
  {
    if AddsUncleared(op) {
      AddsKeepCompleteIff(s, op);
    } else if ClearsAll(op) {
      ClearAllStep(s, op);
    } else if op.Assign? || op.AssignMany? {
      AssignKeepsComplete(s, op);
    } else {
      match op
      case Tick(dt) =>
      case LoadUser(user) => LoadKeepsComplete(s, user);
      case Unassign(user, role) =>
        if RemoveRole(s.store, user, role).Ok? {
          UnassignKeepsComplete(s, user, role);
        }
      case ClearFor(whom) => ClearKeepsOk(s.cache, whom, s.now);
    }
  }

  lemma RunKeepsGrantInv(store: Store, now: nat, ops: seq<Op>)
    requires UniqueAssignmentIds(store)
    ensures GrantInv(After(System(store, [], now), ops))
  {
    RunKeepsInv(System(store, [], now), ops);
  }

  /** After every prefix of the run each valid cached answer allows exactly what is granted. */
  ghost predicate AlwaysComplete(s: System, ops: seq<Op>) {
    forall k :: 0 <= k <= |ops| ==> Complete(After(s, ops[..k]))
  }

  ghost predicate AlwaysHarmless(s: System, ops: seq<Op>) {
    forall k :: 0 <= k < |ops| ==> Harmless(After(s, ops[..k]), ops[k])
  }

  lemma AlwaysCompleteSnoc(s: System, front: seq<Op>, last: Op)
    ensures AlwaysComplete(s, front + [last]) <==> AlwaysComplete(s, front) && Complete(After(s, front + [last]))
  {
    var ops := front + [last];
    assert forall k :: 0 <= k <= |front| ==> ops[..k] == front[..k];
    assert ops[..|ops|] == ops;
    if AlwaysComplete(s, ops) {
      forall k | 0 <= k <= |front| ensures Complete(After(s, front[..k])) {
        assert Complete(After(s, ops[..k]));
      }
    }
  }

  lemma AlwaysHarmlessSnoc(s: System, front: seq<Op>, last: Op)
    ensures AlwaysHarmless(s, front + [last]) <==> AlwaysHarmless(s, front) && Harmless(After(s, front), last)
  {
    var ops := front + [last];
    assert forall k :: 0 <= k <= |front| ==> ops[..k] == front[..k];
    assert front[..|front|] == front && ops[|front|] == last;
    if AlwaysHarmless(s, ops) {
      forall k | 0 <= k < |front| ensures Harmless(After(s, front[..k]), front[k]) {
        assert Harmless(After(s, ops[..k]), ops[k]);
      }
      assert Harmless(After(s, ops[..|front|]), ops[|front|]);
    }
  }

  lemma OneMoreOp(store: Store, now: nat, front: seq<Op>, last: Op)
    requires UniqueAssignmentIds(store)
    requires AlwaysComplete(System(store, [], now), front) <==> AlwaysHarmless(System(store, [], now), front)
    ensures AlwaysComplete(System(store, [], now), front + [last])
            <==> AlwaysHarmless(System(store, [], now), front + [last])
  {
    var s := System(store, [], now);
    AlwaysCompleteSnoc(s, front, last);
    AlwaysHarmlessSnoc(s, front, last);
    if AlwaysComplete(s, front) {
      assert front[..|front|] == front;
      assert Complete(After(s, front));
      RunKeepsGrantInv(store, now, front);
      StepKeepsCompleteIff(After(s, front), last);
      assert (front + [last])[..|front|] == front;
    }
  }

  /**
   Over any run from an empty cache, every valid cached answer allows exactly what
   a fresh join grants, all along, exactly when no role creation, bootstrap or
   local user gains a grant for a user with a valid entry where it happens.
   */
  lemma {:induction false} CacheStaysCompleteIff(store: Store, now: nat, ops: seq<Op>)
    requires UniqueAssignmentIds(store)
    ensures AlwaysComplete(System(store, [], now), ops) <==> AlwaysHarmless(System(store, [], now), ops)
  {
    if ops != [] {
      CacheStaysCompleteIff(store, now, ops[..|ops| - 1]);
      assert ops == ops[..|ops| - 1] + [ops[|ops| - 1]];
      OneMoreOp(store, now, ops[..|ops| - 1], ops[|ops| - 1]);
    }
  }

  /** External identities, status changes and local users without roles never gain one. */
  predicate GivesNoRole(op: Op) {
    match op
    case NewRole(_) => false
    case Provision(Bootstrap(_, _)) => false
    case Provision(CreateLocal(dto)) => dto.roles == []
    case _ => true
  }

  /** So over runs of those and of all clearing calls a valid cached answer grants what a fresh join does. */
  lemma CachedGrantsAreFresh(store: Store, now: nat, ops: seq<Op>, user: int, table: string, action: Action)
    requires UniqueAssignmentIds(store) && forall i :: 0 <= i < |ops| ==> GivesNoRole(ops[i])
    ensures var s := After(System(store, [], now), ops);
            var hit := Hit(s.cache, user, s.now);
            hit.Some? ==> (Allows(hit.value, table, action) <==> Granted(s.store, user, table, action))
  {
    var start := System(store, [], now);
    forall k | 0 <= k < |ops| ensures Harmless(After(start, ops[..k]), ops[k]) {
      assert GivesNoRole(ops[k]);
    }
    CacheStaysCompleteIff(store, now, ops);
    assert ops[..|ops|] == ops;
    assert Complete(After(start, ops));
  }

  /**
   A bootstrap that finds the user by name and makes it an administrator leaves
   the user's cached answer without what only the administrator role gives.
   */
  lemma BootstrapIsMissed(store: Store, username: string, email: string, user: nat, p: PermissionRow, action: Action)
    requires Load(store, user).complete && Load(store, user).value.user == user
    requires BootstrapTarget(store, username, email) == Some(user) && !AddsAdmin(store, username, email)
    requires p in store.permissions && p.roleId == Some(store.roles[FindRole(store.roles, "admin").value].id)
    requires p.roleId.value > 0 && p.table.Some? && p.table.value != "" && Has(p.flags, action)
    requires !Granted(store, user, p.table.value, action)
    ensures var s := Apply(Apply(System(store, [], 0), LoadUser(user)), Provision(Bootstrap(username, email)));
            var hit := Hit(s.cache, user, s.now);
            hit.Some? && !Allows(hit.value, p.table.value, action) && Granted(s.store, user, p.table.value, action)
  {
    FirstLoadIsCached(store, user);
    var s := Apply(System(store, [], 0), LoadUser(user));
    var op := Provision(Bootstrap(username, email));
    LoadMeetsSpecification(store, user, p.table.value, action);
    CompleteIsPresent(store, user);
    assert GainsBy(store, op, user, p, p.table.value, action);
    GrantedAfter(s, op, user, p.table.value, action);
    AddsKeepTables(s, op);
  }

  lemma CompleteIsPresent(store: Store, user: int)
    requires Load(store, user).complete
    ensures AllPresent(store)
  {
  }
}
