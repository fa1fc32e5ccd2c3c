/**
 `PermissionsService`: the three-table join that yields a user's grants, and
 the cache in front of it.
 */
module Permissions {
  import opened Wrappers
  import opened RateLimiter
  import opened Paging
  import opened Store

  type Grants = map<string, set<Action>>

  datatype UserPermissions = UserPermissions(user: int, username: string, roles: seq<string>, grants: Grants)

  predicate Allows(p: UserPermissions, table: string, action: Action) {
    table in p.grants && action in p.grants[table]
  }

  // ── The join ──────────────────────────────────────────────────────────────

  /** The distinct positive integer role ids of assignments, in order of first occurrence. */
  function RoleIds(rows: seq<AssignmentRow>): seq<int> {
    if rows == [] then [] else
      var before, last := RoleIds(rows[..|rows| - 1]), rows[|rows| - 1].roleId;
      if last.Some? && last.value > 0 && last.value !in before then before + [last.value] else before
  }

  function ActionsOf(f: Flags): set<Action> {
    (if f.create then {Create} else {}) + (if f.read then {Read} else {})
    + (if f.update then {Update} else {}) + (if f.delete then {Delete} else {})
  }

  /** Whether a permission record takes part: it names a table and its role still exists. */
  predicate Counts(p: PermissionRow, existing: set<int>) {
    p.table.Some? && p.table.value != "" && p.roleId.Some? && p.roleId.value in existing
  }

  function AddRecord(grants: Grants, p: PermissionRow, existing: set<int>): Grants {
    if !Counts(p, existing) then grants else
      var table := p.table.value;
      grants[table := (if table in grants then grants[table] else {}) + ActionsOf(p.flags)]
  }

  function Aggregate(rows: seq<PermissionRow>, existing: set<int>): Grants {
    if rows == [] then map[] else AddRecord(Aggregate(rows[..|rows| - 1], existing), rows[|rows| - 1], existing)
  }

  function Ids(roles: seq<RoleRow>): set<int> {
    set r | r in roles :: r.id as int
  }

  /** `roleNames.filter(Boolean)` */
  function Names(roles: seq<RoleRow>): seq<string> {
    if roles == [] then [] else
      (if roles[0].name.Some? && roles[0].name.value != "" then [roles[0].name.value] else []) + Names(roles[1..])
  }

  function Active(roleIds: seq<int>, existing: set<int>): seq<int> {
    Select(roleIds, (id: int) => id in existing)
  }

  function Username(s: Store, user: int): string {
    var i := FindUserById(s.users, user);
    if i.Some? && s.users[i.value].username.Some? then s.users[i.value].username.value else "unknown"
  }

  function NoPermissions(user: int, username: string): UserPermissions {
    UserPermissions(user, username, [], map[])
  }

  /** What a load returns, and whether it reached the end and may be cached. */
  datatype Loaded = Loaded(value: UserPermissions, complete: bool)

  /** A load on a fixed store. */
  function Load(s: Store, user: int): Loaded {
    if Users !in s.present then Loaded(NoPermissions(user, "unknown"), false) else
      var username := Username(s, user);
      var none := Loaded(NoPermissions(user, username), false);
      if UserRoles !in s.present then none else
        var roleIds := RoleIds(AssignmentsOf(s, user));
        if roleIds == [] || Roles !in s.present then none else
          var roles := RolesIn(s, roleIds);
          var active := Active(roleIds, Ids(roles));
          if active == [] || TablePermissions !in s.present then none else
            Loaded(UserPermissions(user, username, Names(roles), Aggregate(PermissionsIn(s, active), Ids(roles))),
                true)
  }

  // ── Its relational specification ──────────────────────────────────────────

  /** An assignment, a role and a permission row that together grant an action. */
  predicate Chain(a: AssignmentRow, r: RoleRow, p: PermissionRow, user: int, table: string, action: Action) {
    && a.userId == Some(user) && a.roleId == Some(r.id) && r.id > 0
    && p.roleId == Some(r.id) && p.table == Some(table) && table != "" && Has(p.flags, action)
  }

  predicate AllPresent(s: Store) {
    Users in s.present && Roles in s.present && UserRoles in s.present && TablePermissions in s.present
  }

  ghost predicate Granted(s: Store, user: int, table: string, action: Action) {
    AllPresent(s) && exists a, r, p :: a in s.assignments && r in s.roles && p in s.permissions
                                       && Chain(a, r, p, user, table, action)
  }

  lemma {:induction false} RoleIdsMembers(rows: seq<AssignmentRow>, id: int)
    ensures id in RoleIds(rows) <==> id > 0 && exists a :: a in rows && a.roleId == Some(id)
  {
    if rows != [] {
      var front, last := rows[..|rows| - 1], rows[|rows| - 1];
      RoleIdsMembers(front, id);
      assert forall a :: a in rows <==> a in front || a == last;
    }
  }

  lemma {:induction false} RoleIdsDistinct(rows: seq<AssignmentRow>)
    ensures forall i, j :: 0 <= i < j < |RoleIds(rows)| ==> RoleIds(rows)[i] != RoleIds(rows)[j]
  {
    if rows != [] {
      RoleIdsDistinct(rows[..|rows| - 1]);
    }
  }

  lemma ActionsOfHas(f: Flags, action: Action)
    ensures action in ActionsOf(f) <==> Has(f, action)
  {
  }

  /** A row that gives an action on a table. */
  predicate Gives(p: PermissionRow, existing: set<int>, table: string, action: Action) {
    Counts(p, existing) && p.table.value == table && Has(p.flags, action)
  }

  lemma AddRecordMembers(g: Grants, p: PermissionRow, existing: set<int>, table: string, action: Action)
    ensures var h := AddRecord(g, p, existing);
            table in h && action in h[table] <==>
                (table in g && action in g[table]) || Gives(p, existing, table, action)
  {
    ActionsOfHas(p.flags, action);
  }

  lemma {:induction false} AggregateMembers(rows: seq<PermissionRow>, existing: set<int>, table: string,
      action: Action)
    ensures var g := Aggregate(rows, existing);
            table in g && action in g[table] <==> exists p :: p in rows && Gives(p, existing, table, action)
  {
    if rows != [] {
      var front, last := rows[..|rows| - 1], rows[|rows| - 1];
      AggregateMembers(front, existing, table, action);
      AddRecordMembers(Aggregate(front, existing), last, existing, table, action);
      assert forall p :: p in front ==> p in rows;
      if p :| p in rows && Gives(p, existing, table, action) {
        assert p in front || p == last;
      }
    }
  }

  /**
   On a fixed store an action is granted exactly when an assigned, existing role
   with a positive id has a permission row with the flag, whatever duplicate or
   dangling rows there are.
   */
  lemma LoadMeetsSpecification(s: Store, user: int, table: string, action: Action)
    ensures Allows(Load(s, user).value, table, action) <==> Granted(s, user, table, action)
  {
    var given := AssignmentsOf(s, user);
    var roleIds := RoleIds(given);
    var roles := RolesIn(s, roleIds);
    var active := Active(roleIds, Ids(roles));
    var rows := PermissionsIn(s, active);
    AggregateMembers(rows, Ids(roles), table, action);
    if Granted(s, user, table, action) {
      var a, r, p :| a in s.assignments && r in s.roles && p in s.permissions && Chain(a, r, p, user, table, action);
      RoleIdsMembers(given, r.id);
      assert a in given;
      assert r in roles && r.id in active && p in rows;
      assert Gives(p, Ids(roles), table, action);
    }
    if Allows(Load(s, user).value, table, action) {
      assert Load(s, user).complete;
      var p :| p in rows && Gives(p, Ids(roles), table, action);
      var r :| r in roles && p.roleId == Some(r.id);
      RoleIdsMembers(given, r.id);
      var a :| a in given && a.roleId == Some(r.id);
      assert Chain(a, r, p, user, table, action);
    }
  }

  // ── The rest of the answer ────────────────────────────────────────────────

  /** The user is assigned a role that exists. */
  ghost predicate HasRole(s: Store, user: int, r: RoleRow) {
    r in s.roles && r.id > 0 && exists a :: a in s.assignments && a.userId == Some(user) && a.roleId == Some(r.id)
  }

  lemma ActiveAre(s: Store, user: int, id: int)
    ensures var ids := RoleIds(AssignmentsOf(s, user));
            id in Active(ids, Ids(RolesIn(s, ids))) <==> exists r :: HasRole(s, user, r) && r.id == id
  {
    var given := AssignmentsOf(s, user);
    var ids := RoleIds(given);
    RoleIdsMembers(given, id);
    if r :| HasRole(s, user, r) && r.id == id {
      var a :| a in s.assignments && a.userId == Some(user) && a.roleId == Some(r.id);
      assert a in given && r in RolesIn(s, ids);
    }
    if id in Active(ids, Ids(RolesIn(s, ids))) {
      var r :| r in RolesIn(s, ids) && r.id == id;
      var a :| a in given && a.roleId == Some(id);
      assert HasRole(s, user, r);
    }
  }

  /** A load gets to its end, and may be cached, exactly if the tables are there and the user has an existing role. */
  lemma LoadIsCachedIff(s: Store, user: int)
    ensures Load(s, user).complete <==> AllPresent(s) && exists r :: HasRole(s, user, r)
  {
    var ids := RoleIds(AssignmentsOf(s, user));
    var active := Active(ids, Ids(RolesIn(s, ids)));
    if active != [] {
      assert active[0] in active;
      ActiveAre(s, user, active[0]);
    }
    if r :| HasRole(s, user, r) {
      ActiveAre(s, user, r.id);
      assert r.id in ids;
    }
  }

  lemma {:induction false} NamesMembers(roles: seq<RoleRow>, name: string)
    ensures name in Names(roles) <==> name != "" && exists r :: r in roles && r.name == Some(name)
  {
    if roles != [] {
      NamesMembers(roles[1..], name);
      assert roles == [roles[0]] + roles[1..];
    }
  }

  lemma RolesInAreHeld(s: Store, user: int, r: RoleRow)
    ensures r in RolesIn(s, RoleIds(AssignmentsOf(s, user))) <==> HasRole(s, user, r)
  {
    var given := AssignmentsOf(s, user);
    RoleIdsMembers(given, r.id);
    if a :| a in s.assignments && a.userId == Some(user) && a.roleId == Some(r.id) {
      assert a in given;
    }
  }

  /** The role names answered by a complete load are those of the user's existing roles; else there are none. */
  lemma LoadNamesRoles(s: Store, user: int, name: string)
    ensures var p := Load(s, user).value;
            name in p.roles <==>
              Load(s, user).complete && name != "" && exists r :: HasRole(s, user, r) && r.name == Some(name)
  {
    var roles := RolesIn(s, RoleIds(AssignmentsOf(s, user)));
    NamesMembers(roles, name);
    forall r ensures r in roles <==> HasRole(s, user, r) {
      RolesInAreHeld(s, user, r);
    }
  }

  /** The user name answered is that of the first user with the id, and "unknown" if there is none. */
  lemma LoadNamesUser(s: Store, user: int)
    ensures Load(s, user).value.user == user
    ensures Users !in s.present || (forall u :: u in s.users ==> u.id != user)
            ==> Load(s, user).value.username == "unknown"
    ensures forall i :: 0 <= i < |s.users| && Users in s.present && s.users[i].id == user
                        && (forall j :: 0 <= j < i ==> s.users[j].id != user) ==>
              Load(s, user).value.username == if s.users[i].username.Some? then s.users[i].username.value
                  else "unknown"
  {
    var k := FindUserById(s.users, user);
    if k.Some? { assert s.users[k.value] in s.users; }
  }

  /** A row with these flags lets its role do just what they say. */
  lemma FlagsGrant(s: Store, user: int, a: AssignmentRow, r: RoleRow, p: PermissionRow, table: string)
    requires AllPresent(s) && a in s.assignments && r in s.roles && p in s.permissions && r.id > 0 && table != ""
    requires a.userId == Some(user) && a.roleId == Some(r.id) && p.roleId == Some(r.id) && p.table == Some(table)
    ensures p.flags.create ==> Granted(s, user, table, Create)
    ensures p.flags.read ==> Granted(s, user, table, Read)
    ensures p.flags.update ==> Granted(s, user, table, Update)
    ensures p.flags.delete ==> Granted(s, user, table, Delete)
    ensures (forall q :: q in s.permissions && q.table == Some(table) ==> q == p) ==>
              && (Granted(s, user, table, Create) ==> p.flags.create)
                 && (Granted(s, user, table, Read) ==> p.flags.read)
              && (Granted(s, user, table, Update) ==> p.flags.update)
                 && (Granted(s, user, table, Delete) ==> p.flags.delete)
  {
    forall action | Has(p.flags, action) ensures Granted(s, user, table, action) {
      assert Chain(a, r, p, user, table, action);
    }
  }

  // ── The cache ─────────────────────────────────────────────────────────────

  const CACHE_TTL: nat := 300000
  const MAX_ENTRIES: nat := 1000

  datatype Entry = Entry(user: int, value: UserPermissions, expiresAt: nat)

  /** A Map in insertion order. */
  type Cache = seq<Entry>

  predicate UniqueUsers(c: Cache) {
    forall i, j :: 0 <= i < j < |c| ==> c[i].user != c[j].user
  }

  /** What holds of the cache at time `now`. */
  predicate CacheOk(c: Cache, now: nat) {
    && UniqueUsers(c)
    && |c| <= MAX_ENTRIES
    && (forall i, j :: 0 <= i <= j < |c| ==> c[i].expiresAt <= c[j].expiresAt)
    && (forall i :: 0 <= i < |c| ==> c[i].expiresAt <= now + CACHE_TTL && c[i].value.user == c[i].user)
  }

  function Lookup(c: Cache, user: int): (r: Option<Entry>)
    ensures r.Some? ==> r.value in c && r.value.user == user
    ensures r.None? ==> forall e :: e in c ==> e.user != user
  {
    if c == [] then None else if c[0].user == user then Some(c[0]) else Lookup(c[1..], user)
  }

  function Without(c: Cache, user: int): Cache {
    Select(c, (e: Entry) => e.user != user)
  }

  function Sweep(c: Cache, now: nat): Cache {
    Select(c, (e: Entry) => e.expiresAt > now)
  }

  /** Room for one more: the oldest entries go. */
  function Evict(c: Cache): (r: Cache)
    ensures |r| < MAX_ENTRIES
  {
    if |c| < MAX_ENTRIES then c else c[|c| - (MAX_ENTRIES - 1)..]
  }

  function Insert(c: Cache, user: int, value: UserPermissions, now: nat): Cache {
    Evict(Without(Sweep(c, now), user)) + [Entry(user, value, now + CACHE_TTL)]
  }

  /** `clearCache(userId?)`: a missing or zero id clears everything. */
  function Clear(c: Cache, user: Option<int>): Cache {
    if user.Some? && user.value != 0 then Without(c, user.value) else []
  }

  /** A valid unexpired entry, if there is one. */
  function Hit(c: Cache, user: int, now: nat): Option<UserPermissions> {
    var e := Lookup(c, user);
    if e.Some? && e.value.expiresAt > now then Some(e.value.value) else None
  }

  /** A clear for a user drops that user's entry; without one, or for id 0, it drops every entry. */
  lemma ClearDrops(c: Cache, user: Option<int>, e: Entry)
    ensures e in Clear(c, user) <==> e in c && user.Some? && user.value != 0 && e.user != user.value
  {
  }

  lemma SelectKeepsUsers(c: Cache, p: Entry -> bool)
    requires UniqueUsers(c)
    ensures UniqueUsers(Select(c, p))
  {
    SelectKeepsPairs(c, p, (a: Entry, b: Entry) => a.user != b.user);
  }

  lemma SelectKeepsOrder(c: Cache, p: Entry -> bool)
    requires forall i, j :: 0 <= i <= j < |c| ==> c[i].expiresAt <= c[j].expiresAt
    ensures forall i, j :: 0 <= i <= j < |Select(c, p)| ==> Select(c, p)[i].expiresAt <= Select(c, p)[j].expiresAt
  {
    SelectKeepsPairs(c, p, (a: Entry, b: Entry) => a.expiresAt <= b.expiresAt);
  }

  lemma SelectKeepsOk(c: Cache, p: Entry -> bool, now: nat)
    requires CacheOk(c, now)
    ensures CacheOk(Select(c, p), now)
  {
    SelectKeepsUsers(c, p);
    SelectKeepsOrder(c, p);
    var r := Select(c, p);
    assert forall i :: 0 <= i < |r| ==> r[i] in c;
  }

  lemma EvictKeepsOk(c: Cache, now: nat)
    requires CacheOk(c, now)
    ensures CacheOk(Evict(c), now) && forall e :: e in Evict(c) ==> e in c
  {
  }

  lemma AppendKeepsOk(c: Cache, e: Entry, before: nat, now: nat)
    requires CacheOk(c, before) && before <= now && |c| < MAX_ENTRIES
    requires e.expiresAt == now + CACHE_TTL && e.value.user == e.user && forall x :: x in c ==> x.user != e.user
    ensures CacheOk(c + [e], now)
  {
    assert forall i :: 0 <= i < |c| ==> c[i] in c;
  }

  /** After an insert no expired entry remains, and the new entry is found. */
  lemma InsertKeepsOk(c: Cache, user: int, value: UserPermissions, before: nat, now: nat)
    requires CacheOk(c, before) && before <= now && value.user == user
    ensures CacheOk(Insert(c, user, value, now), now)
    ensures forall e :: e in Insert(c, user, value, now) ==> e.expiresAt > now
    ensures Lookup(Insert(c, user, value, now), user) == Some(Entry(user, value, now + CACHE_TTL))
  {
    var swept := Sweep(c, now);
    var others := Without(swept, user);
    var entry := Entry(user, value, now + CACHE_TTL);
    SelectKeepsOk(c, (e: Entry) => e.expiresAt > now, before);
    SelectKeepsOk(swept, (e: Entry) => e.user != user, before);
    EvictKeepsOk(others, before);
    AppendKeepsOk(Evict(others), entry, before, now);
    LookupLast(Evict(others), entry);
  }

  lemma InsertMembers(c: Cache, user: int, value: UserPermissions, now: nat)
    ensures forall e :: e in Insert(c, user, value, now) ==>
            e == Entry(user, value, now + CACHE_TTL) || (e in c && e.user != user)
  {
    var others := Without(Sweep(c, now), user);
    assert forall e :: e in Evict(others) ==> e in others;
  }

  lemma {:induction false} LookupLast(c: Cache, e: Entry)
    requires forall x :: x in c ==> x.user != e.user
    ensures Lookup(c + [e], e.user) == Some(e)
  {
    if c == [] {
      assert c + [e] == [e];
    } else {
      assert (c + [e])[1..] == c[1..] + [e];
      LookupLast(c[1..], e);
    }
  }

  lemma EvictDropsOldest(c: Cache, gone: Entry, now: nat)
    requires CacheOk(c, now) && gone in c
    ensures gone in Evict(c) || (|c| == MAX_ENTRIES && forall e :: e in Evict(c) ==> gone.expiresAt <= e.expiresAt)
  {
    var i :| 0 <= i < |c| && c[i] == gone;
    if |c| == MAX_ENTRIES && i > 0 {
      assert Evict(c)[i - 1] == gone;
    }
  }

  /**
   An insert drops an unexpired entry of another user only when the cache is
   full, and then one that expires no later than any survivor.
   */
  lemma EvictsOldestFirst(c: Cache, user: int, value: UserPermissions, before: nat, now: nat, gone: Entry)
    requires CacheOk(c, before) && before <= now
    requires gone in c && gone.expiresAt > now && gone.user != user
    ensures var r := Insert(c, user, value, now);
            gone in r || (|r| == 1000 && forall e :: e in r ==> gone.expiresAt <= e.expiresAt)
  {
    var swept := Sweep(c, now);
    SelectKeepsOk(c, (e: Entry) => e.expiresAt > now, before);
    SelectKeepsOk(swept, (e: Entry) => e.user != user, before);
    var others := Without(swept, user);
    EvictDropsOldest(others, gone, before);
    assert gone.expiresAt <= before + CACHE_TTL;
  }

  // ── The service ───────────────────────────────────────────────────────────

  /** NocoDB behind the rate limiter; `cap` is the largest page it serves. */
  class NocoDB {
    var store: Store
    const limiter: Limiter
    const cap: nat

    constructor (store: Store, limiter: Limiter, cap: nat)
      ensures this.store == store && this.limiter == limiter && this.cap == cap
    {
      this.store := store;
      this.limiter := limiter;
      this.cap := cap;
    }

    /** All rows of a stable query result, read in pages of 1000 with one limiter slot a page. */
    method ListAll<T>(matching: seq<T>) returns (rows: seq<T>)
      requires cap >= 1000
      modifies limiter
      ensures rows == matching && limiter.granted == old(limiter.granted) + |matching| / 1000 + 1
    {
      var query := new Query(matching, cap, limiter);
      rows := query.ListAll(1000);
      ReadAllComplete(matching, 1000, cap);
    }
  }

  class PermissionsService {
    const db: NocoDB
    var cache: Cache

    constructor (db: NocoDB)
      ensures this.db == db && cache == []
    {
      this.db := db;
      cache := [];
    }

    /**
     The grants of a user, from the cache or by a load; `now` is the time of the
     call and `later` the time its last answer arrives.
     */
    method GetUserPermissions(user: int, now: nat, later: nat) returns (p: UserPermissions)
      requires db.cap >= 1000 && UniqueUsers(cache)
      modifies this`cache, db.limiter
      ensures p == if Hit(old(cache), user, now).Some? then Hit(old(cache), user, now).value
              else Load(db.store, user).value
      ensures cache == if Hit(old(cache), user, now).Some? || !Load(db.store, user).complete then old(cache)
                       else Insert(old(cache), user, p, later)
    {
      var cached := Lookup(cache, user);
      if cached.Some? && cached.value.expiresAt > now {
        return cached.value.value;
      }
      var s := db.store;
      if Users !in s.present {
        return NoPermissions(user, "unknown");
      }
      var username := Username(s, user);
      if UserRoles !in s.present {
        return NoPermissions(user, username);
      }
      var userRoles := db.ListAll(AssignmentsOf(s, user));
      var roleIds := RoleIds(userRoles);
      if roleIds == [] || Roles !in s.present {
        return NoPermissions(user, username);
      }
      var roles := db.ListAll(RolesIn(s, roleIds));
      var existing := Ids(roles);
      var active := Active(roleIds, existing);
      if active == [] || TablePermissions !in s.present {
        return NoPermissions(user, username);
      }
      var records := db.ListAll(PermissionsIn(s, active));
      var grants := AggregateRecords(records, existing);
      p := UserPermissions(user, username, Names(roles), grants);
      CachePermissions(user, p, later);
    }

    /** The loop over the permission records. */
    method AggregateRecords(records: seq<PermissionRow>, existing: set<int>) returns (grants: Grants)
      ensures grants == Aggregate(records, existing)
    {
      grants := map[];
      for i := 0 to |records|
        invariant grants == Aggregate(records[..i], existing)
      {
        var perm := records[i];
        assert records[..i + 1][..i] == records[..i];
        if Counts(perm, existing) {
          var table := perm.table.value;
          var actions := if table in grants then grants[table] else {};
          if perm.flags.create { actions := actions + {Create}; }
          if perm.flags.read { actions := actions + {Read}; }
          if perm.flags.update { actions := actions + {Update}; }
          if perm.flags.delete { actions := actions + {Delete}; }
          assert actions == (if table in grants then grants[table] else {}) + ActionsOf(perm.flags);
          grants := grants[table := actions];
        }
      }
      assert records[..|records|] == records;
    }

    /** Deletes every expired entry by its key. */
    method SweepExpired(now: nat)
      requires UniqueUsers(cache)
      modifies this`cache
      ensures cache == Sweep(old(cache), now)
    {
      var entries := cache;
      assert Sweep(entries[..0], now) + entries[0..] == entries;
      for i := 0 to |entries|
        invariant cache == Sweep(entries[..i], now) + entries[i..]
      {
        SweepStep(entries, i, now);
        if entries[i].expiresAt <= now {
          cache := Without(cache, entries[i].user);
        }
      }
      assert entries[..|entries|] == entries;
    }

    /** Deletes the first key while the cache is full. */
    method MakeRoom()
      modifies this`cache
      ensures cache == Evict(old(cache))
    {
      ghost var all := cache;
      while |cache| >= MAX_ENTRIES
        invariant |cache| <= |all| && cache == all[|all| - |cache|..]
        invariant |all| >= MAX_ENTRIES ==> |cache| >= MAX_ENTRIES - 1
        invariant |all| < MAX_ENTRIES ==> cache == all
      {
        cache := cache[1..];
      }
    }

    /** Sweeps expired entries, removes the user, makes room, and appends. */
    method CachePermissions(user: int, value: UserPermissions, now: nat)
      requires UniqueUsers(cache)
      modifies this`cache
      ensures cache == Insert(old(cache), user, value, now)
    {
      SweepExpired(now);
      cache := Without(cache, user);
      MakeRoom();
      cache := cache + [Entry(user, value, now + CACHE_TTL)];
    }

    method ClearCache(user: Option<int>)
      modifies this`cache
      ensures cache == Clear(old(cache), user)
    {
      if user.Some? && user.value != 0 {
        cache := Without(cache, user.value);
      } else {
        cache := [];
      }
    }

    /** The answer the guards ask for. */
    method CanUserPerformAction(user: int, table: string, action: Action, now: nat, later: nat)
      returns (allowed: bool)
      requires db.cap >= 1000 && UniqueUsers(cache)
      modifies this`cache, db.limiter
      ensures Hit(old(cache), user, now).None? ==> (allowed <==> Granted(db.store, user, table, action))
      ensures Hit(old(cache), user, now).Some?
              ==> (allowed <==> Allows(Hit(old(cache), user, now).value, table, action))
    {
      var p := GetUserPermissions(user, now, later);
      LoadMeetsSpecification(db.store, user, table, action);
      allowed := table in p.grants && action in p.grants[table];
    }
  }

  lemma SweepFront(front: Cache, e: Entry, now: nat)
    ensures Sweep(front + [e], now) == Sweep(front, now) + (if e.expiresAt > now then [e] else [])
  {
    SelectAppend(front, [e], (x: Entry) => x.expiresAt > now);
  }

  lemma WithoutAppend(a: Cache, b: Cache, user: int)
    ensures Without(a + b, user) == Without(a, user) + Without(b, user)
  {
    SelectAppend(a, b, (e: Entry) => e.user != user);
  }

  lemma WithoutAbsent(c: Cache, user: int)
    requires forall e :: e in c ==> e.user != user
    ensures Without(c, user) == c
  {
    SelectAll(c, (e: Entry) => e.user != user);
  }

  lemma WithoutMiddle(front: Cache, e: Entry, rest: Cache)
    requires forall x :: x in front || x in rest ==> x.user != e.user
    ensures Without(front + ([e] + rest), e.user) == front + rest
  {
    WithoutAppend(front, [e] + rest, e.user);
    WithoutAbsent(front, e.user);
    WithoutHead(e, rest);
  }

  lemma WithoutHead(e: Entry, rest: Cache)
    requires forall x :: x in rest ==> x.user != e.user
    ensures Without([e] + rest, e.user) == rest
  {
    assert ([e] + rest)[1..] == rest;
    WithoutAbsent(rest, e.user);
  }

  /** Deleting an expired entry by its key, while walking the entries. */
  lemma SweepStep(entries: Cache, i: nat, now: nat)
    requires i < |entries| && UniqueUsers(entries)
    ensures var cache := Sweep(entries[..i], now) + entries[i..];
            Sweep(entries[..i + 1], now) + entries[i + 1..]
            == if entries[i].expiresAt <= now then Without(cache, entries[i].user) else cache
  {
    var e, front, rest := entries[i], entries[..i], entries[i + 1..];
    assert entries[..i + 1] == front + [e] && entries[i..] == [e] + rest;
    SweepFront(front, e, now);
    if e.expiresAt <= now {
      WithoutMiddle(Sweep(front, now), e, rest);
      assert Sweep(front, now) + [] == Sweep(front, now);
    } else {
      assert Sweep(front, now) + ([e] + rest) == Sweep(front, now) + [e] + rest;
    }
  }
}
