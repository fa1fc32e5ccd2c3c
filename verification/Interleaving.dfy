/**
 Permission loads split at every await and interleaved with arbitrary writes,
 cache clears, other loads and the passing of time. Each await is two steps:
 the server answers from the store of that moment (`Serve`), and the load goes
 on with the answer (`Resume`).
 */
module Interleaving {
  import opened Wrappers
  import opened Paging
  import opened Store
  import opened Permissions

  const PAGE: nat := 1000

  /** What a load is waiting for. */
  datatype Phase =
    | FindUsers | ReadUser | FindUserRoles | AssignmentPages
    | FindRoles | RolePages | FindPermissions | PermissionPages

  datatype Answer =
    | Present(yes: bool)
    | UserName(name: string)
    | AssignmentPage(assignments: seq<AssignmentRow>)
    | RolePage(roles: seq<RoleRow>)
    | PermissionPage(permissions: seq<PermissionRow>)

  /** The `…By` fields are the steps at which the last page of each table was served. */
  datatype Loading = Loading(
    user: int, phase: Phase, answer: Option<Answer>, offset: nat, username: string,
    assignments: seq<AssignmentRow>, roles: seq<RoleRow>, permissions: seq<PermissionRow>,
    assignmentsBy: nat, rolesBy: nat, permissionsBy: nat)

  datatype Returned = Returned(user: int, value: UserPermissions)

  /** `loads` is keyed by the step of the call; `returned` is what the last step handed to a caller. */
  datatype State = State(
    now: nat, step: nat, cap: nat, store: Store, cache: Cache, loads: map<nat, Loading>, returned: Option<Returned>)

  datatype Event =
    | Call(user: int)
    | Serve(id: nat)
    | Resume(id: nat)
    | Fail(id: nat)                   // a store call throws, and with it the load
    | Write(store: Store)             // any change of the tables, by anyone
    | ClearCache(whom: Option<int>)
    | Tick(dt: nat)

  // ── One load ──────────────────────────────────────────────────────────────

  function Begin(user: int, step: nat): Loading {
    Loading(user, FindUsers, None, 0, "unknown", [], [], [], step, step, step)
  }

  function ActiveIds(l: Loading): seq<int> {
    Active(RoleIds(l.assignments), Ids(l.roles))
  }

  /** The server's answer to what the load waits for. */
  function AnswerOf(s: Store, cap: nat, l: Loading): Answer {
    match l.phase
    case FindUsers => Present(Users in s.present)
    case ReadUser => UserName(Username(s, l.user))
    case FindUserRoles => Present(UserRoles in s.present)
    case AssignmentPages => AssignmentPage(Page(AssignmentsOf(s, l.user), l.offset, PAGE, cap))
    case FindRoles => Present(Roles in s.present)
    case RolePages => RolePage(Page(RolesIn(s, RoleIds(l.assignments)), l.offset, PAGE, cap))
    case FindPermissions => Present(TablePermissions in s.present)
    case PermissionPages => PermissionPage(Page(PermissionsIn(s, ActiveIds(l)), l.offset, PAGE, cap))
  }

  function Served(l: Loading, a: Answer, step: nat): Loading {
    match a
    case AssignmentPage(_) => l.(answer := Some(a), assignmentsBy := step)
    case RolePage(_) => l.(answer := Some(a), rolesBy := step)
    case PermissionPage(_) => l.(answer := Some(a), permissionsBy := step)
    case _ => l.(answer := Some(a))
  }

  datatype Next = Goes(l: Loading) | Returns(value: UserPermissions, complete: bool)

  function NextPhase(p: Phase): Phase {
    match p
    case FindUsers => ReadUser
    case ReadUser => FindUserRoles
    case FindUserRoles => AssignmentPages
    case AssignmentPages => FindRoles
    case FindRoles => RolePages
    case RolePages => FindPermissions
    case FindPermissions => PermissionPages
    case PermissionPages => PermissionPages
  }

  function Onward(l: Loading): Loading {
    l.(phase := NextPhase(l.phase), answer := None, offset := 0)
  }

  function MorePages(l: Loading): Loading {
    l.(answer := None, offset := l.offset + PAGE)
  }

  function Nothing(l: Loading): Next {
    Returns(NoPermissions(l.user, l.username), false)
  }

  /** The code up to the next await. */
  function Continue(l: Loading, a: Answer): Next {
    match a
    case Present(yes) => if yes then Goes(Onward(l)) else Nothing(l)
    case UserName(name) => Goes(Onward(l.(username := name)))
    case AssignmentPage(rows) =>
      var l' := l.(assignments := l.assignments + rows);
      if |rows| >= PAGE then Goes(MorePages(l'))
      else if RoleIds(l'.assignments) == [] then Nothing(l')
      else Goes(Onward(l'))
    case RolePage(rows) =>
      var l' := l.(roles := l.roles + rows);
      if |rows| >= PAGE then Goes(MorePages(l'))
      else if ActiveIds(l') == [] then Nothing(l')
      else Goes(Onward(l'))
    case PermissionPage(rows) =>
      var l' := l.(permissions := l.permissions + rows);
      if |rows| >= PAGE then Goes(MorePages(l'))
      else Returns(UserPermissions(l.user, l.username, Names(l.roles), Aggregate(l'.permissions, Ids(l.roles))), true)
  }

  // ── The system ────────────────────────────────────────────────────────────

  function Step(s: State, e: Event): State {
    var t := s.(step := s.step + 1, returned := None);
    match e
    case Call(user) =>
      var hit := Hit(s.cache, user, s.now);
      if hit.Some? then t.(returned := Some(Returned(user, hit.value)))
      else t.(loads := s.loads[s.step := Begin(user, s.step)])
    case Serve(id) =>
      if id !in s.loads || s.loads[id].answer.Some? then t
      else t.(loads := s.loads[id := Served(s.loads[id], AnswerOf(s.store, s.cap, s.loads[id]), s.step)])
    case Resume(id) =>
      if id !in s.loads || s.loads[id].answer.None? then t else
        var l := s.loads[id];
        (match Continue(l, l.answer.value)
         case Goes(l') => t.(loads := s.loads[id := l'])
         case Returns(value, complete) =>
           t.(loads := s.loads - {id}, returned := Some(Returned(l.user, value)),
              cache := if complete then Insert(s.cache, l.user, value, s.now) else s.cache))
    case Fail(id) => t.(loads := s.loads - {id})
    case Write(store) => t.(store := store)
    case ClearCache(whom) => t.(cache := Clear(s.cache, whom))
    case Tick(dt) => t.(now := s.now + dt)
  }

  /** All states of a run, the first included. */
  function Run(s: State, es: seq<Event>): (hist: seq<State>)
    ensures |hist| == |es| + 1
  {
    if es == [] then [s] else
      var before := Run(s, es[..|es| - 1]);
      before + [Step(before[|es| - 1], es[|es| - 1])]
  }

  function Last(hist: seq<State>): State
    requires |hist| > 0
  {
    hist[|hist| - 1]
  }

  predicate Start(s: State) {
    s.step == 0 && s.cache == [] && s.loads == map[] && s.returned.None?
  }

  // ── What an answer rests on ───────────────────────────────────────────────

  ghost predicate AssignmentSeen(hist: seq<State>, lo: nat, hi: nat, a: AssignmentRow) {
    exists k :: lo <= k <= hi && k < |hist| && a in hist[k].store.assignments
  }

  ghost predicate RoleSeen(hist: seq<State>, lo: nat, hi: nat, r: RoleRow) {
    exists k :: lo <= k <= hi && k < |hist| && r in hist[k].store.roles
  }

  ghost predicate PermissionSeen(hist: seq<State>, lo: nat, hi: nat, p: PermissionRow) {
    exists k :: lo <= k <= hi && k < |hist| && p in hist[k].store.permissions
  }

  /**
   An assignment, a role and a permission row that grant the action and were
   stored, in this order, at moments between `lo` and `hi`.
   */
  ghost predicate Rests(hist: seq<State>, lo: nat, hi: nat, user: int, table: string, action: Action) {
    exists m1: nat, m2: nat, a, r, p ::
      && lo <= m1 <= m2 <= hi && Chain(a, r, p, user, table, action)
      && AssignmentSeen(hist, lo, m1, a) && RoleSeen(hist, m1, m2, r) && PermissionSeen(hist, m2, hi, p)
  }

  /** One load ran from its call at step `from` until its continuation at step `to` returned the value. */
  ghost predicate Completed(hist: seq<State>, user: int, value: UserPermissions, from: nat, to: nat) {
    && from < to && to + 1 < |hist|
    && from !in hist[from].loads && from !in hist[to + 1].loads
    && (forall k :: from < k <= to ==> from in hist[k].loads && hist[k].loads[from].user == user)
    && hist[to + 1].returned == Some(Returned(user, value))
  }

  ghost predicate Justified(hist: seq<State>, user: int, value: UserPermissions, from: nat, to: nat) {
    && Completed(hist, user, value, from, to)
    && forall table, action :: Allows(value, table, action) ==> Rests(hist, from, to, user, table, action)
  }

  // ── The invariant ─────────────────────────────────────────────────────────

  function Rank(p: Phase): nat {
    match p
    case FindUsers => 0
    case ReadUser => 1
    case FindUserRoles => 2
    case AssignmentPages => 3
    case FindRoles => 4
    case RolePages => 5
    case FindPermissions => 6
    case PermissionPages => 7
  }

  /** An answer is of the kind the phase asks for. */
  predicate Fits(p: Phase, a: Answer) {
    match a
    case Present(_) => p == FindUsers || p == FindUserRoles || p == FindRoles || p == FindPermissions
    case UserName(_) => p == ReadUser
    case AssignmentPage(_) => p == AssignmentPages
    case RolePage(_) => p == RolePages
    case PermissionPage(_) => p == PermissionPages
  }

  /** The rows a load has been sent, whether or not it has taken them in. */
  function SentAssignments(l: Loading): seq<AssignmentRow> {
    l.assignments + if l.answer.Some? && l.answer.value.AssignmentPage? then l.answer.value.assignments else []
  }

  function SentRoles(l: Loading): seq<RoleRow> {
    l.roles + if l.answer.Some? && l.answer.value.RolePage? then l.answer.value.roles else []
  }

  function SentPermissions(l: Loading): seq<PermissionRow> {
    l.permissions + if l.answer.Some? && l.answer.value.PermissionPage? then l.answer.value.permissions else []
  }

  ghost predicate AssignmentsOk(hist: seq<State>, id: nat, l: Loading) {
    forall a :: a in SentAssignments(l) ==> a.userId == Some(l.user) && AssignmentSeen(hist, id, l.assignmentsBy, a)
  }

  ghost predicate RolesOk(hist: seq<State>, l: Loading) {
    forall r :: r in SentRoles(l) ==> r.id in RoleIds(l.assignments) && RoleSeen(hist, l.assignmentsBy, l.rolesBy, r)
  }

  ghost predicate PermissionsOk(hist: seq<State>, l: Loading) {
    forall p :: p in SentPermissions(l) ==> PermissionSeen(hist, l.rolesBy, l.permissionsBy, p)
  }

  predicate PhaseOk(l: Loading) {
    && (l.answer.Some? ==> Fits(l.phase, l.answer.value))
    && (Rank(l.phase) < 5 ==> l.roles == [])
    && (Rank(l.phase) < 7 ==> l.permissions == [])
  }

  predicate MarksOk(id: nat, l: Loading, step: nat) {
    && id <= l.assignmentsBy <= step && id <= l.rolesBy <= step && id <= l.permissionsBy <= step
    && (Rank(l.phase) >= 5 && SentRoles(l) != [] ==> l.assignmentsBy <= l.rolesBy)
    && (Rank(l.phase) >= 7 && SentPermissions(l) != [] ==> l.rolesBy <= l.permissionsBy)
  }

  ghost predicate InFlight(hist: seq<State>, id: nat, user: int) {
    && id + 1 < |hist| && id !in hist[id].loads
    && forall k :: id < k < |hist| ==> id in hist[k].loads && hist[k].loads[id].user == user
  }

  ghost predicate LoadOk(hist: seq<State>, id: nat, l: Loading) {
    && InFlight(hist, id, l.user) && PhaseOk(l) && MarksOk(id, l, |hist| - 1)
    && AssignmentsOk(hist, id, l) && RolesOk(hist, l) && PermissionsOk(hist, l)
  }

  ghost predicate EntryOk(hist: seq<State>, e: Entry) {
    exists from: nat, to: nat ::
      Justified(hist, e.user, e.value, from, to) && hist[to].now + CACHE_TTL == e.expiresAt
  }

  /** The answer of the last step is that of the load that just ended, or of one that ended less than the TTL ago. */
  ghost predicate AnswerOk(hist: seq<State>, r: Returned) {
    exists from: nat, to: nat ::
      && Justified(hist, r.user, r.value, from, to)
      && (to + 2 == |hist| || Last(hist).now < hist[to].now + CACHE_TTL)
  }

  ghost predicate Inv(hist: seq<State>) {
    |hist| > 0 &&
    var s := Last(hist);
    && s.step == |hist| - 1
    && (forall id :: id in s.loads ==> id < s.step && LoadOk(hist, id, s.loads[id]))
    && (forall e :: e in s.cache ==> EntryOk(hist, e))
    && (s.returned.Some? ==> AnswerOk(hist, s.returned.value))
  }

  // ── Facts about the past stay facts ───────────────────────────────────────

  lemma SeenStays(hist: seq<State>, t: State, lo: nat, hi: nat)
    ensures forall a :: AssignmentSeen(hist, lo, hi, a) ==> AssignmentSeen(hist + [t], lo, hi, a)
    ensures forall r :: RoleSeen(hist, lo, hi, r) ==> RoleSeen(hist + [t], lo, hi, r)
    ensures forall p :: PermissionSeen(hist, lo, hi, p) ==> PermissionSeen(hist + [t], lo, hi, p)
  {
    var hist' := hist + [t];
    forall a | AssignmentSeen(hist, lo, hi, a) ensures AssignmentSeen(hist', lo, hi, a) {
      var k :| lo <= k <= hi && k < |hist| && a in hist[k].store.assignments;
      assert hist'[k] == hist[k];
    }
    forall r | RoleSeen(hist, lo, hi, r) ensures RoleSeen(hist', lo, hi, r) {
      var k :| lo <= k <= hi && k < |hist| && r in hist[k].store.roles;
      assert hist'[k] == hist[k];
    }
    forall p | PermissionSeen(hist, lo, hi, p) ensures PermissionSeen(hist', lo, hi, p) {
      var k :| lo <= k <= hi && k < |hist| && p in hist[k].store.permissions;
      assert hist'[k] == hist[k];
    }
  }

  lemma RestsStays(hist: seq<State>, t: State, lo: nat, hi: nat, user: int, table: string, action: Action)
    requires Rests(hist, lo, hi, user, table, action)
    ensures Rests(hist + [t], lo, hi, user, table, action)
  {
    var m1: nat, m2: nat, a, r, p :|
      && lo <= m1 <= m2 <= hi && Chain(a, r, p, user, table, action)
      && AssignmentSeen(hist, lo, m1, a) && RoleSeen(hist, m1, m2, r) && PermissionSeen(hist, m2, hi, p);
    SeenStays(hist, t, lo, m1);
    SeenStays(hist, t, m1, m2);
    SeenStays(hist, t, m2, hi);
  }

  lemma JustifiedStays(hist: seq<State>, t: State, user: int, value: UserPermissions, from: nat, to: nat)
    requires Justified(hist, user, value, from, to)
    ensures Justified(hist + [t], user, value, from, to)
  {
    forall table, action | Allows(value, table, action) ensures Rests(hist + [t], from, to, user, table, action) {
      RestsStays(hist, t, from, to, user, table, action);
    }
  }

  lemma EntryStays(hist: seq<State>, t: State, e: Entry)
    requires EntryOk(hist, e)
    ensures EntryOk(hist + [t], e)
  {
    var from: nat, to: nat :| Justified(hist, e.user, e.value, from, to) && hist[to].now + CACHE_TTL == e.expiresAt;
    JustifiedStays(hist, t, e.user, e.value, from, to);
    assert (hist + [t])[to] == hist[to];
  }

  lemma InFlightStays(hist: seq<State>, t: State, id: nat, user: int)
    requires InFlight(hist, id, user) && id in t.loads && t.loads[id].user == user
    ensures InFlight(hist + [t], id, user)
  {
  }

  lemma LoadStays(hist: seq<State>, t: State, id: nat, l: Loading)
    requires |hist| > 0 && LoadOk(hist, id, l) && id in t.loads && t.loads[id].user == l.user
    ensures LoadOk(hist + [t], id, l)
  {
    InFlightStays(hist, t, id, l.user);
    SeenStays(hist, t, id, l.assignmentsBy);
    SeenStays(hist, t, l.assignmentsBy, l.rolesBy);
    SeenStays(hist, t, l.rolesBy, l.permissionsBy);
  }

  // ── Steps of one load ─────────────────────────────────────────────────────

  lemma PageMembers<T>(rows: seq<T>, offset: nat, limit: nat, cap: nat)
    ensures forall x :: x in Page(rows, offset, limit, cap) ==> x in rows
  {
  }

  lemma SeenNow(hist: seq<State>, lo: nat, s: Store, last: nat)
    requires lo <= last < |hist| && s == hist[last].store
    ensures forall a :: a in s.assignments ==> AssignmentSeen(hist, lo, last, a)
    ensures forall r :: r in s.roles ==> RoleSeen(hist, lo, last, r)
    ensures forall p :: p in s.permissions ==> PermissionSeen(hist, lo, last, p)
  {
  }

  lemma SeenLater(hist: seq<State>, lo: nat, hi: nat, later: nat)
    requires hi <= later
    ensures forall a :: AssignmentSeen(hist, lo, hi, a) ==> AssignmentSeen(hist, lo, later, a)
    ensures forall r :: RoleSeen(hist, lo, hi, r) ==> RoleSeen(hist, lo, later, r)
    ensures forall p :: PermissionSeen(hist, lo, hi, p) ==> PermissionSeen(hist, lo, later, p)
  {
  }

  lemma ServeKeepsLoad(hist: seq<State>, id: nat, l: Loading, cap: nat)
    requires |hist| > 0 && LoadOk(hist, id, l) && l.answer.None?
    ensures LoadOk(hist, id, Served(l, AnswerOf(Last(hist).store, cap, l), |hist| - 1))
  {
    var step, s := |hist| - 1, Last(hist).store;
    match l.phase
    case AssignmentPages =>
      PageMembers(AssignmentsOf(s, l.user), l.offset, PAGE, cap);
      SeenNow(hist, id, s, step);
      SeenLater(hist, id, l.assignmentsBy, step);
    case RolePages =>
      PageMembers(RolesIn(s, RoleIds(l.assignments)), l.offset, PAGE, cap);
      SeenNow(hist, l.assignmentsBy, s, step);
      SeenLater(hist, l.assignmentsBy, l.rolesBy, step);
    case PermissionPages =>
      PageMembers(PermissionsIn(s, ActiveIds(l)), l.offset, PAGE, cap);
      SeenNow(hist, l.rolesBy, s, step);
      SeenLater(hist, l.rolesBy, l.permissionsBy, step);
    case _ =>
  }

  /** Taking an answer in changes neither the rows sent nor their marks. */
  lemma ContinueTakesIn(l: Loading, l': Loading)
    requires PhaseOk(l) && l.answer.Some? && Continue(l, l.answer.value) == Goes(l')
    ensures SentAssignments(l') == SentAssignments(l) && SentRoles(l') == SentRoles(l)
            && SentPermissions(l') == SentPermissions(l)
    ensures SentRoles(l) == [] || l'.assignments == l.assignments
    ensures PhaseOk(l') && l'.answer.None? && Rank(l'.phase) <= Rank(l.phase) + 1
    ensures Rank(l.phase) < 5 ==> SentRoles(l) == []
    ensures Rank(l.phase) < 7 ==> SentPermissions(l) == []
    ensures l'.user == l.user && l'.assignmentsBy == l.assignmentsBy && l'.rolesBy == l.rolesBy
            && l'.permissionsBy == l.permissionsBy
  {
    assert SentAssignments(l') == SentAssignments(l);
    assert SentRoles(l') == SentRoles(l);
    assert SentPermissions(l') == SentPermissions(l);
  }

  lemma ContinueKeepsLoad(hist: seq<State>, id: nat, l: Loading, l': Loading)
    requires |hist| > 0 && LoadOk(hist, id, l) && l.answer.Some? && Continue(l, l.answer.value) == Goes(l')
    ensures LoadOk(hist, id, l') && l'.user == l.user
  {
    ContinueTakesIn(l, l');
  }

  /** The grants of a finished load are the aggregate of the permission rows it was sent. */
  lemma ReturnAggregates(l: Loading, table: string, action: Action)
    requires PhaseOk(l) && l.answer.Some? && Continue(l, l.answer.value).Returns?
    requires Allows(Continue(l, l.answer.value).value, table, action)
    ensures SentAssignments(l) == l.assignments && SentRoles(l) == l.roles
    ensures Allows(UserPermissions(l.user, l.username, [], Aggregate(SentPermissions(l), Ids(l.roles))), table,
            action)
  {
    assert l.answer.value.PermissionPage?;
  }

  lemma AggregateChain(l: Loading, permissions: seq<PermissionRow>, table: string, action: Action)
    returns (a: AssignmentRow, r: RoleRow, p: PermissionRow)
    requires Allows(UserPermissions(l.user, l.username, [], Aggregate(permissions, Ids(l.roles))), table, action)
    requires forall a :: a in l.assignments ==> a.userId == Some(l.user)
    requires forall r :: r in l.roles ==> r.id in RoleIds(l.assignments)
    ensures a in l.assignments && r in l.roles && p in permissions && Chain(a, r, p, l.user, table, action)
  {
    AggregateMembers(permissions, Ids(l.roles), table, action);
    p :| p in permissions && Gives(p, Ids(l.roles), table, action);
    r :| r in l.roles && p.roleId == Some(r.id);
    RoleIdsMembers(l.assignments, r.id);
    a :| a in l.assignments && a.roleId == Some(r.id);
  }

  /** What a finished load allows rests on rows it was sent. */
  lemma ReturnRests(hist: seq<State>, id: nat, l: Loading, table: string, action: Action)
    requires |hist| > 0 && LoadOk(hist, id, l) && l.answer.Some? && Continue(l, l.answer.value).Returns?
    requires Allows(Continue(l, l.answer.value).value, table, action)
    ensures Rests(hist, id, |hist| - 1, l.user, table, action)
  {
    ReturnAggregates(l, table, action);
    var a, r, p := AggregateChain(l, SentPermissions(l), table, action);
    SeenLater(hist, l.rolesBy, l.permissionsBy, |hist| - 1);
    assert AssignmentSeen(hist, id, l.assignmentsBy, a) && RoleSeen(hist, l.assignmentsBy, l.rolesBy, r);
    assert PermissionSeen(hist, l.rolesBy, |hist| - 1, p);
  }

  // ── Steps of the system ───────────────────────────────────────────────────

  /** Loads and entries that a step leaves alone. */
  lemma Untouched(hist: seq<State>, t: State)
    requires Inv(hist)
    ensures var s := Last(hist);
            && (forall id :: id in s.loads && id in t.loads && t.loads[id].user == s.loads[id].user
                             ==> LoadOk(hist + [t], id, s.loads[id]))
            && (forall e :: e in s.cache ==> EntryOk(hist + [t], e))
  {
    var s := Last(hist);
    forall id | id in s.loads && id in t.loads && t.loads[id].user == s.loads[id].user
      ensures LoadOk(hist + [t], id, s.loads[id])
    {
      LoadStays(hist, t, id, s.loads[id]);
    }
    forall e | e in s.cache ensures EntryOk(hist + [t], e) {
      EntryStays(hist, t, e);
    }
  }

  lemma HitStep(hist: seq<State>, user: int)
    requires Inv(hist) && Hit(Last(hist).cache, user, Last(hist).now).Some?
    ensures Inv(hist + [Step(Last(hist), Call(user))])
  {
    var s := Last(hist);
    var t := Step(s, Call(user));
    Untouched(hist, t);
    var e := Lookup(s.cache, user).value;
    EntryStays(hist, t, e);
    var from: nat, to: nat :|
      Justified(hist + [t], e.user, e.value, from, to) && (hist + [t])[to].now + CACHE_TTL == e.expiresAt;
    assert AnswerOk(hist + [t], t.returned.value);
  }

  lemma BeginStep(hist: seq<State>, user: int)
    requires Inv(hist) && Hit(Last(hist).cache, user, Last(hist).now).None?
    ensures Inv(hist + [Step(Last(hist), Call(user))])
  {
    var s := Last(hist);
    var t := Step(s, Call(user));
    Untouched(hist, t);
    assert s.step !in s.loads;
    assert InFlight(hist + [t], s.step, user);
    assert LoadOk(hist + [t], s.step, Begin(user, s.step));
  }

  /** A load is replaced by its next state, with the same user. */
  lemma ReplaceStep(hist: seq<State>, id: nat, l: Loading, t: State)
    requires Inv(hist) && id in Last(hist).loads && LoadOk(hist, id, l)
    requires l.user == Last(hist).loads[id].user
    requires t == Last(hist).(step := |hist|, returned := None, loads := Last(hist).loads[id := l])
    ensures Inv(hist + [t])
  {
    Untouched(hist, t);
    LoadStays(hist, t, id, l);
  }

  lemma ReturnStep(hist: seq<State>, id: nat)
    requires Inv(hist) && id in Last(hist).loads && Last(hist).loads[id].answer.Some?
    requires Continue(Last(hist).loads[id], Last(hist).loads[id].answer.value).Returns?
    ensures Inv(hist + [Step(Last(hist), Resume(id))])
  {
    var s := Last(hist);
    var t, l := Step(s, Resume(id)), s.loads[id];
    var next := Continue(l, l.answer.value);
    Untouched(hist, t);
    ReturnIsJustified(hist, id, l, t);
    assert (hist + [t])[s.step] == s;
    assert AnswerOk(hist + [t], t.returned.value);
    if next.complete {
      InsertMembers(s.cache, l.user, next.value, s.now);
      assert EntryOk(hist + [t], Entry(l.user, next.value, s.now + CACHE_TTL));
    }
  }

  lemma ReturnIsJustified(hist: seq<State>, id: nat, l: Loading, t: State)
    requires |hist| > 0 && id < |hist| - 1 && LoadOk(hist, id, l) && l.answer.Some?
             && Continue(l, l.answer.value).Returns?
    requires id !in t.loads && t.returned == Some(Returned(l.user, Continue(l, l.answer.value).value))
    ensures Justified(hist + [t], l.user, Continue(l, l.answer.value).value, id, |hist| - 1)
  {
    var value := Continue(l, l.answer.value).value;
    EndCompletes(hist, id, l.user, value, t);
    forall table, action | Allows(value, table, action)
      ensures Rests(hist + [t], id, |hist| - 1, l.user, table, action)
    {
      ReturnRests(hist, id, l, table, action);
      RestsStays(hist, t, id, |hist| - 1, l.user, table, action);
    }
  }

  lemma EndCompletes(hist: seq<State>, id: nat, user: int, value: UserPermissions, t: State)
    requires InFlight(hist, id, user) && id !in t.loads && t.returned == Some(Returned(user, value))
    ensures Completed(hist + [t], user, value, id, |hist| - 1)
  {
  }

  lemma QuietStep(hist: seq<State>, t: State)
    requires Inv(hist) && t.step == |hist| && t.returned.None?
    requires forall id :: id in t.loads ==> id in Last(hist).loads && t.loads[id] == Last(hist).loads[id]
    requires forall e :: e in t.cache ==> e in Last(hist).cache
    ensures Inv(hist + [t])
  {
    Untouched(hist, t);
  }

  lemma ServeStep(hist: seq<State>, id: nat)
    requires Inv(hist) && id in Last(hist).loads && Last(hist).loads[id].answer.None?
    ensures Inv(hist + [Step(Last(hist), Serve(id))])
  {
    var l := ServeLoad(hist, id, Last(hist));
    ReplaceStep(hist, id, l, Step(Last(hist), Serve(id)));
  }

  lemma ServeLoad(hist: seq<State>, id: nat, s: State) returns (l: Loading)
    requires |hist| > 0 && s == Last(hist) && s.step == |hist| - 1
    requires id in s.loads && s.loads[id].answer.None? && LoadOk(hist, id, s.loads[id])
    ensures LoadOk(hist, id, l) && l.user == s.loads[id].user
    ensures Step(s, Serve(id)) == s.(step := s.step + 1, returned := None, loads := s.loads[id := l])
  {
    l := Served(s.loads[id], AnswerOf(s.store, s.cap, s.loads[id]), s.step);
    ServeIs(s, id, l);
    ServeKeepsLoad(hist, id, s.loads[id], s.cap);
  }

  lemma ServeIs(s: State, id: nat, l: Loading)
    requires id in s.loads && s.loads[id].answer.None?
    requires l == Served(s.loads[id], AnswerOf(s.store, s.cap, s.loads[id]), s.step)
    ensures Step(s, Serve(id)) == s.(step := s.step + 1, returned := None, loads := s.loads[id := l])
    ensures l.user == s.loads[id].user
  {
  }

  lemma StepKeepsInv(hist: seq<State>, e: Event)
    requires Inv(hist)
    ensures Inv(hist + [Step(Last(hist), e)])
  {
    var s := Last(hist);
    if e.Call? && Hit(s.cache, e.user, s.now).Some? {
      HitStep(hist, e.user);
    } else if e.Call? {
      BeginStep(hist, e.user);
    } else if e.Serve? && e.id in s.loads && s.loads[e.id].answer.None? {
      ServeStep(hist, e.id);
    } else if e.Resume? && e.id in s.loads && s.loads[e.id].answer.Some? {
      ResumeStep(hist, e.id);
    } else {
      OtherStep(s, e);
      QuietStep(hist, Step(s, e));
    }
  }

  lemma OtherStep(s: State, e: Event)
    requires !e.Call?
    requires e.Serve? ==> e.id !in s.loads || s.loads[e.id].answer.Some?
    requires e.Resume? ==> e.id !in s.loads || s.loads[e.id].answer.None?
    ensures var t := Step(s, e);
            && t.step == s.step + 1 && t.returned.None?
            && (forall id :: id in t.loads ==> id in s.loads && t.loads[id] == s.loads[id])
            && (forall x :: x in t.cache ==> x in s.cache)
  {
  }

  lemma ResumeStep(hist: seq<State>, id: nat)
    requires Inv(hist) && id in Last(hist).loads && Last(hist).loads[id].answer.Some?
    ensures Inv(hist + [Step(Last(hist), Resume(id))])
  {
    var s := Last(hist);
    var l := s.loads[id];
    match Continue(l, l.answer.value)
    case Goes(l') =>
      ContinueKeepsLoad(hist, id, l, l');
      ReplaceStep(hist, id, l', Step(s, Resume(id)));
    case Returns(value, complete) => ReturnStep(hist, id);
  }

  lemma {:induction false} RunKeepsInv(s: State, es: seq<Event>)
    requires Start(s)
    ensures Inv(Run(s, es))
  {
    if es != [] {
      RunKeepsInv(s, es[..|es| - 1]);
      StepKeepsInv(Run(s, es[..|es| - 1]), es[|es| - 1]);
    }
  }

  // ── Bounded staleness ─────────────────────────────────────────────────────

  /**
   Under every interleaving, an action an answer allows rests on an assignment,
   a role and a permission row that were stored, in this order, during one load;
   and that load ended with this very step, or less than five minutes before it.
   */
  lemma BoundedStaleness(s: State, es: seq<Event>)
    requires Start(s)
    ensures var hist := Run(s, es);
            var end := hist[|es|];
            end.returned.Some? ==>
              exists from: nat, to: nat ::
                && Completed(hist, end.returned.value.user, end.returned.value.value, from, to)
                && (to + 1 == |es| || end.now < hist[to].now + 5 * 60 * 1000)
                && (forall table, action :: Allows(end.returned.value.value, table, action) ==>
                      Rests(hist, from, to, end.returned.value.user, table, action))
  {
    RunKeepsInv(s, es);
    var hist := Run(s, es);
    if hist[|es|].returned.Some? {
      var r := hist[|es|].returned.value;
      var from: nat, to: nat :| Justified(hist, r.user, r.value, from, to)
                                && (to + 2 == |hist| || Last(hist).now < hist[to].now + CACHE_TTL);
      assert Completed(hist, r.user, r.value, from, to);
    }
  }
}
