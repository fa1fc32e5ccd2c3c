/**
 Where user rows come from: identity provisioning, local users and the
 bootstrap administrator.
 */
module Identity {
  import opened Wrappers
  import Text
  import Filter
  import opened Store
  import Permissions
  import opened RoleServices

  /** Claims after normalisation; `provider` is "external" on every wired path. */
  datatype Claims = Claims(provider: string, subject: string, email: Option<string>, username: Option<string>,
                           roles: seq<string>)

  datatype LocalUser = LocalUser(username: string, email: string, active: Option<bool>, roles: seq<string>)

  const EXTERNAL := "external"
  const LOCAL := "local"

  /** What provisioning answers. The JWT strategy refuses a user that is not active. */
  datatype Resolved = Resolved(userId: nat, username: string, email: Option<string>, active: bool, roles: seq<string>)

  /** What the bootstrap answers. */
  datatype Bootstrapped = Bootstrapped(userId: nat, username: string, created: bool)

  /** The store after a call, and its answer or the error thrown. */
  datatype Outcome<+A> = Outcome(store: Store, result: Result<A>)

  // ── Record calls on users ─────────────────────────────────────────────────

  function FindByName(rows: seq<UserRow>, name: string): Option<nat> {
    FindIndex(rows, (u: UserRow) => u.username == Some(name))
  }

  function FindByEmail(rows: seq<UserRow>, email: string): Option<nat> {
    FindIndex(rows, (u: UserRow) => u.email == Some(email))
  }

  function FindBySubject(rows: seq<UserRow>, provider: string, subject: string): Option<nat> {
    FindIndex(rows, (u: UserRow) => u.provider == Some(provider) && u.subject == Some(subject))
  }

  function InsertUser(s: Store, u: UserRow): Store {
    s.(users := s.users + [u.(id := s.nextUser)], nextUser := s.nextUser + 1)
  }

  /** PATCH of the record with this id. */
  function UpdateUserById(rows: seq<UserRow>, id: nat, u: UserRow): (r: seq<UserRow>)
    ensures |r| == |rows|
  {
    seq(|rows|, i requires 0 <= i < |rows| => if rows[i].id == id then u.(id := id) else rows[i])
  }

  // ── The services ──────────────────────────────────────────────────────────

  function Or<T>(a: Option<T>, b: Option<T>): Option<T> {
    if a.Some? then a else b
  }

  function BeforeAt(email: string): string {
    if email == "" || email[0] == '@' then "" else [email[0]] + BeforeAt(email[1..])
  }

  function DefaultUsername(c: Claims): string {
    if c.email.Some? then BeforeAt(c.email.value) else "user_" + c.subject
  }

  /** `toResolvedIdentity` of a stored row; an empty `is_active` counts as active. */
  function Resolve(u: UserRow, roles: seq<string>): Resolved {
    Resolved(u.id, if u.username.Some? then u.username.value else "unknown", u.email, u.active != Some(false), roles)
  }

  /** The user an identity maps to: found by subject, else linked by email, else created. */
  function UpsertIdentityUser(s: Store, c: Claims): Outcome<Resolved> {
    if Users !in s.present then Outcome(s, Err(NotFound)) else
      match Filter.NormalizeText(c.subject)
      case Err(e) => Outcome(s, Err(e))
      case Ok(subject) =>
        var hasEmail := c.email.Some? && c.email.value != "";
        if hasEmail && Filter.NormalizeText(c.email.value).Err? then Outcome(s, Err(BadRequest)) else
          var bySubject := FindBySubject(s.users, c.provider, subject);
          var byEmail := if hasEmail then FindByEmail(s.users, Filter.NormalizeText(c.email.value).value) else None;
          if bySubject.Some? && byEmail.Some? && s.users[bySubject.value].id != s.users[byEmail.value].id then
            Outcome(s, Err(Conflict))
          else if bySubject.Some? then
            var u := s.users[bySubject.value];
            var changed := u.(email := Or(c.email, u.email), username := Or(c.username, u.username));
            Outcome(s.(users := UpdateUserById(s.users, u.id, changed)), Ok(Resolve(changed, c.roles)))
          else if byEmail.Some? then
            var u := s.users[byEmail.value];
            var changed :=
              u.(provider := Some(c.provider), subject := Some(c.subject), username := Or(c.username, u.username));
            Outcome(s.(users := UpdateUserById(s.users, u.id, changed)), Ok(Resolve(changed, c.roles)))
          else
            Outcome(InsertUser(s, NewUser(c)), Ok(Resolve(NewUser(c).(id := s.nextUser), c.roles)))
  }

  /** The row created for an identity that maps to nobody. */
  function NewUser(c: Claims): UserRow {
    UserRow(0, Or(c.username, Some(DefaultUsername(c))), c.email, Some(true), Some(c.provider), Some(c.subject))
  }

  /** Looks up each role by name and adds the missing assignments; unknown names are skipped. */
  datatype Roled = Roled(store: Store, error: Option<Error>)

  function AssignByName(s: Store, user: nat, name: string): Roled {
    match Filter.NormalizeText(name)
    case Err(e) => Roled(s, Some(e))
    case Ok(key) =>
      var i := FindRole(s.roles, key);
      if i.None? || FindAssignment(s.assignments, user, s.roles[i.value].id).Some? then Roled(s, None)
      else Roled(InsertAssignment(s, user, s.roles[i.value].id), None)
  }

  function AssignRolesByName(s: Store, user: nat, names: seq<string>): Roled {
    if names == [] then Roled(s, None) else
      var r := AssignRolesByName(s, user, names[..|names| - 1]);
      if r.error.Some? then r else AssignByName(r.store, user, names[|names| - 1])
  }

  /** The row of a local user; its subject is its email. */
  function NewLocalUser(dto: LocalUser): UserRow {
    UserRow(0, Some(dto.username), Some(dto.email), Or(dto.active, Some(true)), Some(LOCAL), Some(dto.email))
  }

  function CreateLocalUser(s: Store, dto: LocalUser): Outcome<Resolved> {
    if Users !in s.present then Outcome(s, Err(NotFound)) else
      match Filter.NormalizeText(dto.username)
      case Err(e) => Outcome(s, Err(e))
      case Ok(name) =>
        if FindByName(s.users, name).Some? then Outcome(s, Err(Conflict)) else
          match Filter.NormalizeText(dto.email)
          case Err(e) => Outcome(s, Err(e))
          case Ok(email) =>
            if FindByEmail(s.users, email).Some? then Outcome(s, Err(Conflict)) else
              var s' := InsertUser(s, NewLocalUser(dto));
              var resolved := Resolve(NewLocalUser(dto).(id := s.nextUser), dto.roles);
              if dto.roles == [] then Outcome(s', Ok(resolved))
              else if Roles !in s.present || UserRoles !in s.present then Outcome(s', Err(NotFound))
              else
                var r := AssignRolesByName(s', s.nextUser, dto.roles);
                Outcome(r.store, if r.error.Some? then Err(r.error.value) else Ok(resolved))
  }

  function SetUserStatus(s: Store, id: int, active: bool): Outcome<Resolved> {
    var i := FindUserById(s.users, id);
    if Users !in s.present || i.None? then Outcome(s, Err(NotFound))
    else
      var changed := s.users[i.value].(active := Some(active));
      Outcome(s.(users := UpdateUserById(s.users, changed.id, changed)), Ok(Resolve(changed, [])))
  }

  /** Behind the bootstrap token: finds or creates the user and makes it an administrator. */
  function BootstrapAdmin(s: Store, username: string, email: string): Outcome<Bootstrapped> {
    if !({Users, Roles, UserRoles} <= s.present) then Outcome(s, Err(NotFound)) else
      match Filter.NormalizeText(username)
      case Err(e) => Outcome(s, Err(e))
      case Ok(name) =>
        match Filter.NormalizeText(email)
        case Err(e) => Outcome(s, Err(e))
        case Ok(mail) =>
          var byName, byEmail := FindByName(s.users, name), FindByEmail(s.users, mail);
          if byEmail.Some? && byName.None? && Or(s.users[byEmail.value].username, Some("")).value != username then
            Outcome(s, Err(Conflict))
          else
            var admin := FindRole(s.roles, "admin");
            if admin.None? then Outcome(s, Err(NotFound)) else
              var role := s.roles[admin.value].id;
              if byName.Some? then
                var user := s.users[byName.value].id;
                Outcome(if FindAssignment(s.assignments, user, role).Some? then s
                    else InsertAssignment(s, user, role),
                        Ok(Bootstrapped(user, username, false)))
              else
                var s' := InsertUser(s, NewAdmin(username, email));
                Outcome(InsertAssignment(s', s.nextUser, role), Ok(Bootstrapped(s.nextUser, username, true)))
  }

  /** The same when the call that assigns the role fails: a user created before stays, without it. */
  function InterruptedBootstrap(s: Store, username: string, email: string): Outcome<Bootstrapped> {
    var o := BootstrapAdmin(s, username, email);
    if o.store.assignments == s.assignments then o
    else Outcome(o.store.(assignments := s.assignments, nextAssignment := s.nextAssignment), Err(Unavailable))
  }

  // ── The invariant ─────────────────────────────────────────────────────────

  predicate UniqueUserIds(s: Store) {
    && (forall i :: 0 <= i < |s.users| ==> s.users[i].id < s.nextUser)
    && (forall i, j :: 0 <= i < j < |s.users| ==> s.users[i].id != s.users[j].id)
  }

  predicate UniqueEmails(rows: seq<UserRow>) {
    forall i, j :: 0 <= i < j < |rows| ==> rows[i].email.None? || rows[i].email != rows[j].email
  }

  predicate SameIdentity(a: UserRow, b: UserRow) {
    a.provider.Some? && a.subject.Some? && a.provider == b.provider && a.subject == b.subject
  }

  predicate UniqueSubjects(rows: seq<UserRow>) {
    forall i, j :: 0 <= i < j < |rows| ==> !SameIdentity(rows[i], rows[j])
  }

  /** A local identity is named by its own email. */
  predicate LocalByEmail(rows: seq<UserRow>) {
    forall i :: 0 <= i < |rows| && rows[i].provider == Some(LOCAL)
        ==> rows[i].email.Some? && rows[i].subject == rows[i].email
  }

  predicate IdentityOk(s: Store) {
    UniqueUserIds(s) && UniqueEmails(s.users) && UniqueSubjects(s.users) && LocalByEmail(s.users)
  }

  lemma UpdateUserIsLocal(s: Store, i: nat, u: UserRow)
    requires i < |s.users| && UniqueUserIds(s) && u.id == s.users[i].id
    ensures UpdateUserById(s.users, u.id, u) == s.users[i := u]
  {
    var a, b := UpdateUserById(s.users, u.id, u), s.users[i := u];
    forall k | 0 <= k < |a| ensures a[k] == b[k] {
      if k < i { assert s.users[k].id != u.id; } else if i < k { assert s.users[k].id != u.id; }
    }
  }

  /** Replacing one row keeps the invariant if its new email and subject are its own or nobody's. */
  lemma ReplaceKeepsOk(s: Store, i: nat, u: UserRow)
    requires IdentityOk(s) && i < |s.users| && u.id == s.users[i].id
    requires u.email.Some? ==> forall k :: 0 <= k < |s.users| && k != i ==> s.users[k].email != u.email
    requires forall k :: 0 <= k < |s.users| && k != i ==> !SameIdentity(s.users[k], u)
    requires u.provider == Some(LOCAL) ==> u.email.Some? && u.subject == u.email
    ensures IdentityOk(s.(users := s.users[i := u]))
  {
    var rows := s.users[i := u];
    forall a, b | 0 <= a < b < |rows| ensures rows[a].email.None? || rows[a].email != rows[b].email {
      if a != i && b != i { assert s.users[a].email.None? || s.users[a].email != s.users[b].email; }
    }
    forall a, b | 0 <= a < b < |rows| ensures !SameIdentity(rows[a], rows[b]) {
      if a != i && b != i { assert !SameIdentity(s.users[a], s.users[b]); }
      if a == i { assert !SameIdentity(s.users[b], u); }
    }
  }

  lemma AppendKeepsOk(s: Store, u: UserRow)
    requires IdentityOk(s)
    requires u.email.Some? ==> forall k :: 0 <= k < |s.users| ==> s.users[k].email != u.email
    requires forall k :: 0 <= k < |s.users| ==> !SameIdentity(s.users[k], u)
    requires u.provider == Some(LOCAL) ==> u.email.Some? && u.subject == u.email
    ensures IdentityOk(InsertUser(s, u))
  {
  }

  /** As the claims normaliser delivers them: trimmed, and an email only if not empty. */
  predicate ClaimsOk(c: Claims) {
    Text.Trimmed(c.subject) && (c.email.Some? ==> c.email.value != "" && Text.Trimmed(c.email.value))
  }

  /** The lookups of one upsert, on trimmed claims. */
  lemma UpsertLookups(s: Store, c: Claims)
    requires ClaimsOk(c) && UpsertIdentityUser(s, c).result.Ok?
    ensures Filter.NormalizeText(c.subject) == Ok(c.subject)
    ensures c.email.Some? ==> Filter.NormalizeText(c.email.value) == Ok(c.email.value)
  {
    Text.TrimIdentity(c.subject);
    if c.email.Some? { Text.TrimIdentity(c.email.value); }
  }

  /** Provisioning keeps emails and identities unique, and never changes whether an existing user is active. */
  lemma UpsertKeepsOk(s: Store, c: Claims)
    requires IdentityOk(s) && ClaimsOk(c) && c.provider == EXTERNAL
    ensures IdentityOk(UpsertIdentityUser(s, c).store)
    ensures |UpsertIdentityUser(s, c).store.users| >= |s.users|
    ensures forall k :: 0 <= k < |s.users| ==>
              UpsertIdentityUser(s, c).store.users[k].id == s.users[k].id
              && UpsertIdentityUser(s, c).store.users[k].active == s.users[k].active
  {
    if UpsertIdentityUser(s, c).result.Ok? {
      UpsertLookups(s, c);
      var bySubject := FindBySubject(s.users, c.provider, c.subject);
      var byEmail := if c.email.Some? then FindByEmail(s.users, c.email.value) else None;
      if bySubject.Some? {
        UpsertFoundSubject(s, c, bySubject.value, byEmail);
      } else if byEmail.Some? {
        var i := byEmail.value;
        var u := s.users[i].(provider := Some(c.provider), subject := Some(c.subject),
            username := Or(c.username, s.users[i].username));
        UpdateUserIsLocal(s, i, u);
        forall k | 0 <= k < |s.users| && k != i ensures s.users[k].email != u.email && !SameIdentity(s.users[k], u) {
          assert k < i ==> s.users[k].email.None? || s.users[k].email != s.users[i].email;
        }
        ReplaceKeepsOk(s, i, u);
      } else {
        AppendKeepsOk(s, NewUser(c));
      }
    }
  }

  lemma UpsertFoundSubject(s: Store, c: Claims, i: nat, byEmail: Option<nat>)
    requires IdentityOk(s) && c.provider == EXTERNAL && i < |s.users|
    requires s.users[i].provider == Some(c.provider) && s.users[i].subject == Some(c.subject)
    requires byEmail == if c.email.Some? then FindByEmail(s.users, c.email.value) else None
    requires byEmail.Some? ==> s.users[byEmail.value].id == s.users[i].id
    ensures var u := s.users[i].(email := Or(c.email, s.users[i].email),
            username := Or(c.username, s.users[i].username));
            UpdateUserById(s.users, u.id, u) == s.users[i := u] && IdentityOk(s.(users := s.users[i := u]))
  {
    var u := s.users[i].(email := Or(c.email, s.users[i].email), username := Or(c.username, s.users[i].username));
    UpdateUserIsLocal(s, i, u);
    forall k | 0 <= k < |s.users| && k != i
      ensures (u.email.Some? ==> s.users[k].email != u.email) && !SameIdentity(s.users[k], u)
    {
      assert if k < i then !SameIdentity(s.users[k], s.users[i]) else !SameIdentity(s.users[i], s.users[k]);
      if byEmail.Some? {
        assert byEmail.value == i;
      }
      if k < i { assert s.users[k].email.None? || s.users[k].email != s.users[i].email; }
    }
    ReplaceKeepsOk(s, i, u);
  }

  /** The lookups of an upsert find the row that carries its claims. */
  lemma LinkedIsFound(t: Store, c: Claims, i: nat)
    requires IdentityOk(t) && i < |t.users| && Linked(t.users[i], c)
    ensures FindBySubject(t.users, c.provider, c.subject) == Some(i)
    ensures c.email.Some? ==> FindByEmail(t.users, c.email.value) == Some(i)
  {
    var j := FindBySubject(t.users, c.provider, c.subject).value;
    assert j <= i;
    if c.email.Some? {
      assert FindByEmail(t.users, c.email.value).value <= i;
    }
  }

  /** Repeating an upsert with the same claims answers the same user and changes nothing. */
  lemma UpsertIsIdempotent(s: Store, c: Claims)
    requires IdentityOk(s) && ClaimsOk(c) && c.provider == EXTERNAL && UpsertIdentityUser(s, c).result.Ok?
    ensures UpsertIdentityUser(UpsertIdentityUser(s, c).store, c) == UpsertIdentityUser(s, c)
  {
    var once := UpsertIdentityUser(s, c);
    UpsertKeepsOk(s, c);
    UpsertStores(s, c);
    var i :| 0 <= i < |once.store.users| && Linked(once.store.users[i], c)
             && once.result.value == Resolve(once.store.users[i], c.roles);
    UpsertLookups(s, c);
    UpsertLinked(once.store, c, i);
  }

  lemma UpsertLinked(t: Store, c: Claims, i: nat)
    requires IdentityOk(t) && Users in t.present && i < |t.users| && Linked(t.users[i], c)
    requires Filter.NormalizeText(c.subject) == Ok(c.subject)
    requires c.email.Some? ==> Filter.NormalizeText(c.email.value) == Ok(c.email.value)
    ensures UpsertIdentityUser(t, c) == Outcome(t, Ok(Resolve(t.users[i], c.roles)))
  {
    LinkedIsFound(t, c, i);
    UpdateUserIsLocal(t, i, t.users[i]);
    assert t.users[i := t.users[i]] == t.users;
  }

  /** A row that carries everything the claims say. */
  predicate Linked(u: UserRow, c: Claims) {
    && u.provider == Some(c.provider) && u.subject == Some(c.subject)
    && (c.email.Some? ==> u.email == c.email) && (c.username.Some? ==> u.username == c.username)
  }

  /** After a successful upsert the answer is a stored row that carries the claims. */
  lemma UpsertStores(s: Store, c: Claims)
    requires IdentityOk(s) && ClaimsOk(c) && UpsertIdentityUser(s, c).result.Ok?
    ensures var o := UpsertIdentityUser(s, c);
            exists i :: 0 <= i < |o.store.users| && Linked(o.store.users[i], c)
                        && o.result.value == Resolve(o.store.users[i], c.roles)
  {
    var o := UpsertIdentityUser(s, c);
    UpsertLookups(s, c);
    var bySubject := FindBySubject(s.users, c.provider, c.subject);
    var byEmail := if c.email.Some? then FindByEmail(s.users, c.email.value) else None;
    var i := if bySubject.Some? then bySubject.value else if byEmail.Some? then byEmail.value else |s.users|;
    assert Linked(o.store.users[i], c);
  }

  // ── What each branch of an upsert stores ──────────────────────────────────

  /** The lookups of an upsert: quotable texts, and the users found by the trimmed ones. */
  predicate Looks(s: Store, c: Claims, bySubject: Option<nat>, byEmail: Option<nat>) {
    && Users in s.present && Filter.NormalizeText(c.subject).Ok?
    && bySubject == FindBySubject(s.users, c.provider, Text.Trim(c.subject))
    && if c.email.None? || c.email.value == "" then byEmail == None
       else Filter.NormalizeText(c.email.value).Ok? && byEmail == FindByEmail(s.users, Text.Trim(c.email.value))
  }

  /** The part of an email before the first `@`. */
  predicate IsLocalPart(part: string, email: string) {
    part <= email && '@' !in part && (part == email || email[|part|] == '@')
  }

  lemma {:induction false} BeforeAtIsLocalPart(email: string)
    ensures IsLocalPart(BeforeAt(email), email)
  {
    if email != "" && email[0] != '@' {
      BeforeAtIsLocalPart(email[1..]);
      var part := BeforeAt(email[1..]);
      assert BeforeAt(email) == [email[0]] + part;
      assert email == [email[0]] + email[1..];
    }
  }

  /** The name an identity gets that brings none. */
  predicate IsDefaultName(name: string, c: Claims) {
    if c.email.Some? then IsLocalPart(name, c.email.value) else name == "user_" + c.subject
  }

  /**
   The first login of an identity nobody is found for: one user is added, active,
   with the claims in its cells, and answered as such.
   */
  lemma FirstUpsertCreates(s: Store, c: Claims)
    requires Looks(s, c, None, None)
    ensures var o := UpsertIdentityUser(s, c);
            && o.result.Ok? && |o.store.users| == |s.users| + 1 && o.store.users[..|s.users|] == s.users
            && o.store == s.(users := o.store.users, nextUser := s.nextUser + 1)
            && var u := o.store.users[|s.users|];
               && u.id == s.nextUser && u.email == c.email && u.active == Some(true)
               && u.provider == Some(c.provider) && u.subject == Some(c.subject) && u.username.Some?
               && (if c.username.Some? then u.username == c.username else IsDefaultName(u.username.value, c))
               && o.result.value == Resolved(s.nextUser, u.username.value, c.email, true, c.roles)
  {
    if c.email.Some? { BeforeAtIsLocalPart(c.email.value); }
  }

  /** A user found by subject keeps everything but the email and user name the claims bring. */
  lemma UpsertUpdatesFound(s: Store, c: Claims, i: nat, byEmail: Option<nat>)
    requires UniqueUserIds(s) && Looks(s, c, Some(i), byEmail)
    requires byEmail.Some? ==> s.users[byEmail.value].id == s.users[i].id
    ensures var o, u := UpsertIdentityUser(s, c), s.users[i];
            var email := if c.email.Some? then c.email else u.email;
            var name := if c.username.Some? then c.username else u.username;
            && o.store == s.(users := s.users[i := UserRow(u.id, name, email, u.active, u.provider, u.subject)])
            && o.result == Ok(Resolved(u.id, if name.Some? then name.value else "unknown", email,
                                       u.active != Some(false), c.roles))
  {
    var u := s.users[i];
    UpdateUserIsLocal(s, i, u.(email := Or(c.email, u.email), username := Or(c.username, u.username)));
  }

  /** A user found by email alone is linked to the identity, and keeps its email and status. */
  lemma UpsertLinksEmail(s: Store, c: Claims, i: nat)
    requires UniqueUserIds(s) && Looks(s, c, None, Some(i))
    ensures var o, u := UpsertIdentityUser(s, c), s.users[i];
            var name := if c.username.Some? then c.username else u.username;
            && o.store == s.(users :=
                 s.users[i := UserRow(u.id, name, u.email, u.active, Some(c.provider), Some(c.subject))])
            && o.result == Ok(Resolved(u.id, if name.Some? then name.value else "unknown", u.email,
                                       u.active != Some(false), c.roles))
  {
    var u := s.users[i];
    UpdateUserIsLocal(s, i,
                      u.(provider := Some(c.provider), subject := Some(c.subject),
                          username := Or(c.username, u.username)));
  }

  /** When an upsert is refused, and with what; it then changes nothing. */
  lemma UpsertIsRefusedIff(s: Store, c: Claims)
    ensures var o := UpsertIdentityUser(s, c);
            && (o.result.Err? ==> o.store == s)
            && (o.result == Err(NotFound) <==> Users !in s.present)
            && (o.result == Err(BadRequest) <==>
                  Users in s.present
                  && (Filter.NormalizeText(c.subject).Err?
                      || (c.email.Some? && c.email.value != "" && Filter.NormalizeText(c.email.value).Err?)))
            && (o.result == Err(Conflict) <==>
                  exists i: nat, j: nat :: Looks(s, c, Some(i), Some(j)) && s.users[i].id != s.users[j].id)
            && o.result != Err(Unavailable)
  {
    if UpsertIdentityUser(s, c).result == Err(Conflict) {
      var i := FindBySubject(s.users, c.provider, Text.Trim(c.subject)).value;
      var j := FindByEmail(s.users, Text.Trim(c.email.value)).value;
      assert Looks(s, c, Some(i), Some(j));
    }
  }

  lemma {:induction false} AssignByNamesKeepsUsers(s: Store, user: nat, names: seq<string>)
    ensures var r := AssignRolesByName(s, user, names).store; r.users == s.users && r.nextUser == s.nextUser
  {
    if names != [] {
      AssignByNamesKeepsUsers(s, user, names[..|names| - 1]);
    }
  }

  /** When `createLocalUser` writes a row: both lookups, by the trimmed texts, find nobody. */
  predicate AddsLocal(s: Store, dto: LocalUser) {
    && Users in s.present
    && Filter.NormalizeText(dto.username).Ok? && FindByName(s.users, Text.Trim(dto.username)).None?
    && Filter.NormalizeText(dto.email).Ok? && FindByEmail(s.users, Text.Trim(dto.email)).None?
  }

  lemma CreateLocalUsers(s: Store, dto: LocalUser)
    ensures var t := CreateLocalUser(s, dto).store;
            if AddsLocal(s, dto) then t.users == InsertUser(s, NewLocalUser(dto)).users
                && t.nextUser == s.nextUser + 1
            else t.users == s.users && t.nextUser == s.nextUser
  {
    AssignByNamesKeepsUsers(InsertUser(s, NewLocalUser(dto)), s.nextUser, dto.roles);
  }

  /** The row a local user is stored in, and the answer if its roles go through. */
  lemma LocalUserIsStored(s: Store, dto: LocalUser)
    requires AddsLocal(s, dto)
    ensures var o := CreateLocalUser(s, dto);
            var active := if dto.active.Some? then dto.active.value else true;
            && o.store.users == s.users + [UserRow(s.nextUser, Some(dto.username), Some(dto.email), Some(active),
                                                   Some("local"), Some(dto.email))]
            && o.store.nextUser == s.nextUser + 1
            && (o.result.Ok? ==>
                  o.result.value == Resolved(s.nextUser, dto.username, Some(dto.email), active, dto.roles))
            && (o.result.Ok? <==>
                  dto.roles == [] || (Roles in s.present && UserRoles in s.present && AllLookedUp(dto.roles)))
  {
    CreateLocalUsers(s, dto);
    AssignByNamesStops(InsertUser(s, NewLocalUser(dto)), s.nextUser, dto.roles);
  }

  predicate AllLookedUp(names: seq<string>) {
    forall j :: 0 <= j < |names| ==> Filter.NormalizeText(names[j]).Ok?
  }

  lemma AllLookedUpSnoc(names: seq<string>)
    requires names != []
    ensures AllLookedUp(names) <==> AllLookedUp(names[..|names| - 1]) && Filter.NormalizeText(names[|names| - 1]).Ok?
  {
    assert forall j :: 0 <= j < |names| - 1 ==> names[..|names| - 1][j] == names[j];
  }

  lemma AssignByNameErrs(s: Store, user: nat, name: string)
    ensures var r := AssignByName(s, user, name);
            r.store.roles == s.roles && r.error == if Filter.NormalizeText(name).Ok? then None else Some(BadRequest)
  {
  }

  /** Assigning by name is refused exactly at a name that cannot be looked up. */
  lemma {:induction false} AssignByNamesStops(s: Store, user: nat, names: seq<string>)
    ensures var r := AssignRolesByName(s, user, names);
            r.store.roles == s.roles && r.error == if AllLookedUp(names) then None else Some(BadRequest)
  {
    if names != [] {
      var front, last := names[..|names| - 1], names[|names| - 1];
      AssignByNamesStops(s, user, front);
      AllLookedUpSnoc(names);
      AssignByNameErrs(AssignRolesByName(s, user, front).store, user, last);
    }
  }

  // ── Assignments ───────────────────────────────────────────────────────────

  lemma InsertKeepsUniqueIff(s: Store, user: int, role: int)
    requires UniqueAssignments(s.assignments)
    ensures UniqueAssignments(InsertAssignment(s, user, role).assignments)
            <==> FindAssignment(s.assignments, user, role).None?
  {
    var i, t := FindAssignment(s.assignments, user, role), InsertAssignment(s, user, role).assignments;
    assert t[|s.assignments|] == AssignmentRow(s.nextAssignment, Some(user), Some(role));
    if i.Some? {
      assert t[i.value].userId == Some(user) && t[i.value].roleId == Some(role);
    }
  }

  /** Assigning by name never assigns a role twice, and only adds rows. */
  lemma {:induction false} AssignByNamesKeepsUnique(s: Store, user: nat, names: seq<string>)
    requires UniqueAssignments(s.assignments)
    ensures UniqueAssignments(AssignRolesByName(s, user, names).store.assignments)
    ensures s.assignments <= AssignRolesByName(s, user, names).store.assignments
  {
    if names != [] {
      var front, last := names[..|names| - 1], names[|names| - 1];
      AssignByNamesKeepsUnique(s, user, front);
      AssignByNameKeepsUnique(AssignRolesByName(s, user, front).store, user, last);
    }
  }

  lemma AssignByNameKeepsUnique(s: Store, user: nat, name: string)
    requires UniqueAssignments(s.assignments)
    ensures UniqueAssignments(AssignByName(s, user, name).store.assignments)
    ensures s.assignments <= AssignByName(s, user, name).store.assignments
  {
    var t := AssignByName(s, user, name).store;
    if t != s {
      InsertKeepsUniqueIff(s, user, s.roles[FindRole(s.roles, Text.Trim(name)).value].id);
    }
  }

  /** Assigning a name again changes nothing. */
  lemma AssignByNameAgain(s: Store, user: nat, name: string)
    ensures AssignByName(AssignByName(s, user, name).store, user, name).store == AssignByName(s, user, name).store
  {
    var t := AssignByName(s, user, name).store;
    if t != s {
      var role := s.roles[FindRole(s.roles, Text.Trim(name)).value].id;
      assert t.assignments[|s.assignments|] == AssignmentRow(s.nextAssignment, Some(user as int), Some(role as int));
      assert FindAssignment(t.assignments, user, role).Some?;
    }
  }

  /**
   A bootstrap assigns the role to a user it finds only if it is not assigned yet.
   For a user it adds it does not look: a role is then assigned twice exactly if
   a row for the new id was there before.
   */
  lemma BootstrapKeepsUniqueAssignmentsIff(s: Store, username: string, email: string)
    requires UniqueAssignments(s.assignments)
    ensures UniqueAssignments(BootstrapAdmin(s, username, email).store.assignments) <==>
              !(AddsAdmin(s, username, email)
                && FindAssignment(s.assignments, s.nextUser, s.roles[FindRole(s.roles, "admin").value].id).Some?)
  {
    var t := BootstrapAdmin(s, username, email).store;
    if t.assignments != s.assignments {
      var role := s.roles[FindRole(s.roles, "admin").value].id;
      if AddsAdmin(s, username, email) {
        InsertKeepsUniqueIff(s, s.nextUser, role);
      } else {
        InsertKeepsUniqueIff(s, s.users[FindByName(s.users, Text.Trim(username)).value].id, role);
      }
    } else if AddsAdmin(s, username, email) {
      AdminIsStored(s, username, email);
    }
  }

  /** When a local user is refused without a row, and with what. */
  lemma LocalUserIsRefusedIff(s: Store, dto: LocalUser)
    requires !AddsLocal(s, dto)
    ensures var o := CreateLocalUser(s, dto);
            && o.store == s
            && o.result == Err(if Users !in s.present then NotFound
                               else if Filter.NormalizeText(dto.username).Err? then BadRequest
                               else if FindByName(s.users, Text.Trim(dto.username)).Some? then Conflict
                               else if Filter.NormalizeText(dto.email).Err? then BadRequest else Conflict)
  {
  }

  /** A row for a held email, or for an email nobody holds and an identity nobody else has. */
  lemma AppendKeepsOkIff(s: Store, t: Store, u: UserRow)
    requires IdentityOk(s) && t.users == InsertUser(s, u).users && t.nextUser == s.nextUser + 1
    requires u.email.Some? && (u.provider == None || (u.provider == Some(LOCAL) && u.subject == u.email))
    ensures IdentityOk(t) <==> FindByEmail(s.users, u.email.value).None?
  {
    var byEmail := FindByEmail(s.users, u.email.value);
    if byEmail.None? {
      AppendKeepsOk(s, u);
      assert IdentityOk(InsertUser(s, u));
    } else {
      assert t.users[byEmail.value].email == t.users[|s.users|].email;
    }
  }

  /**
   A local user is looked up by the trimmed email and stored under the raw one.
   Emails and identities stay unique exactly unless it adds a row and somebody
   holds the raw email.
   */
  lemma CreateLocalKeepsOkIff(s: Store, dto: LocalUser)
    requires IdentityOk(s)
    ensures IdentityOk(CreateLocalUser(s, dto).store) <==>
              !(AddsLocal(s, dto) && FindByEmail(s.users, dto.email).Some?)
  {
    CreateLocalUsers(s, dto);
    if AddsLocal(s, dto) {
      AppendKeepsOkIff(s, CreateLocalUser(s, dto).store, NewLocalUser(dto));
    }
  }

  /** For a trimmed email they always do. */
  lemma CreateLocalKeepsOk(s: Store, dto: LocalUser)
    requires IdentityOk(s) && Text.Trimmed(dto.email)
    ensures IdentityOk(CreateLocalUser(s, dto).store)
  {
    Text.TrimIdentity(dto.email);
    CreateLocalKeepsOkIff(s, dto);
  }

  lemma SetStatusKeepsOk(s: Store, id: int, active: bool)
    requires IdentityOk(s)
    ensures IdentityOk(SetUserStatus(s, id, active).store)
  {
    var i := FindUserById(s.users, id);
    if i.Some? {
      var u := s.users[i.value].(active := Some(active));
      UpdateUserIsLocal(s, i.value, u);
      forall k | 0 <= k < |s.users| && k != i.value
        ensures (u.email.Some? ==> s.users[k].email != u.email) && !SameIdentity(s.users[k], u)
      {
        assert if k < i.value then !SameIdentity(s.users[k], s.users[i.value])
            else !SameIdentity(s.users[i.value], s.users[k]);
        if k < i.value { assert s.users[k].email.None? || s.users[k].email != s.users[i.value].email; }
      }
      ReplaceKeepsOk(s, i.value, u);
    }
  }

  /**
   When `bootstrapAdmin` writes a user: nobody has the trimmed name, and whoever
   has the trimmed email, if anyone, has exactly the raw name.
   */
  predicate AddsAdmin(s: Store, username: string, email: string) {
    && {Users, Roles, UserRoles} <= s.present
    && Filter.NormalizeText(username).Ok? && FindByName(s.users, Text.Trim(username)).None?
    && Filter.NormalizeText(email).Ok? && FindRole(s.roles, "admin").Some?
    && var byEmail := FindByEmail(s.users, Text.Trim(email));
       byEmail.Some? ==> Or(s.users[byEmail.value].username, Some("")).value == username
  }

  function NewAdmin(username: string, email: string): UserRow {
    UserRow(0, Some(username), Some(email), Some(true), None, None)
  }

  lemma BootstrapUsers(s: Store, username: string, email: string)
    ensures InterruptedBootstrap(s, username, email).store.users == BootstrapAdmin(s, username, email).store.users
    ensures InterruptedBootstrap(s, username, email).store.nextUser
            == BootstrapAdmin(s, username, email).store.nextUser
    ensures var t := BootstrapAdmin(s, username, email).store;
            if AddsAdmin(s, username, email)
            then t.users == InsertUser(s, NewAdmin(username, email)).users && t.nextUser == s.nextUser + 1
            else t.users == s.users && t.nextUser == s.nextUser
  {
  }

  /**
   A bootstrap looks a user up by the trimmed name and email and stores the raw
   ones. Emails and identities stay unique exactly unless it adds a row and
   somebody holds the raw email; a failing assignment changes nothing in this.
   */
  lemma BootstrapKeepsOkIff(s: Store, username: string, email: string)
    requires IdentityOk(s)
    ensures IdentityOk(BootstrapAdmin(s, username, email).store) <==>
              !(AddsAdmin(s, username, email) && FindByEmail(s.users, email).Some?)
    ensures IdentityOk(InterruptedBootstrap(s, username, email).store) <==>
              !(AddsAdmin(s, username, email) && FindByEmail(s.users, email).Some?)
  {
    BootstrapUsers(s, username, email);
    if AddsAdmin(s, username, email) {
      AppendKeepsOkIff(s, BootstrapAdmin(s, username, email).store, NewAdmin(username, email));
      AppendKeepsOkIff(s, InterruptedBootstrap(s, username, email).store, NewAdmin(username, email));
    }
  }

  /** For a trimmed user name and email they always do. */
  lemma BootstrapKeepsOk(s: Store, username: string, email: string)
    requires IdentityOk(s) && Text.Trimmed(email) && Text.Trimmed(username)
    ensures IdentityOk(BootstrapAdmin(s, username, email).store)
    ensures IdentityOk(InterruptedBootstrap(s, username, email).store)
  {
    Text.TrimIdentity(username);
    Text.TrimIdentity(email);
    BootstrapKeepsOkIff(s, username, email);
  }

  /** The row a bootstrap stores: active, without an identity. */
  lemma AdminIsStored(s: Store, username: string, email: string)
    requires AddsAdmin(s, username, email)
    ensures var o := BootstrapAdmin(s, username, email);
            var role := s.roles[FindRole(s.roles, "admin").value].id;
            && o.store.users == s.users + [UserRow(s.nextUser, Some(username), Some(email), Some(true), None, None)]
            && o.store.assignments == s.assignments + [AssignmentRow(s.nextAssignment, Some(s.nextUser), Some(role))]
            && o.result == Ok(Bootstrapped(s.nextUser, username, true))
            && InterruptedBootstrap(s, username, email).result == Err(Unavailable)
  {
    var t := BootstrapAdmin(s, username, email).store;
    assert |t.assignments| == |s.assignments| + 1;
  }

  /** When a bootstrap is refused, and with what; it then changes nothing. */
  lemma BootstrapIsRefusedIff(s: Store, username: string, email: string)
    ensures var o := BootstrapAdmin(s, username, email);
            && (o.result.Err? ==> o.store == s) && o.result != Err(Unavailable)
            && (o.result == Err(BadRequest) <==>
                  {Users, Roles, UserRoles} <= s.present
                  && (Filter.NormalizeText(username).Err? || Filter.NormalizeText(email).Err?))
            && (o.result == Err(Conflict) <==> HeldByAnother(s, username, email))
            && (o.result == Err(NotFound) <==>
                  !({Users, Roles, UserRoles} <= s.present)
                  || (Filter.NormalizeText(username).Ok? && Filter.NormalizeText(email).Ok?
                      && !HeldByAnother(s, username, email) && FindRole(s.roles, "admin").None?))
  {
  }

  /** Nobody has the trimmed name, and the holder of the trimmed email has another raw one. */
  predicate HeldByAnother(s: Store, username: string, email: string) {
    && {Users, Roles, UserRoles} <= s.present && Filter.NormalizeText(username).Ok? && Filter.NormalizeText(email).Ok?
    && FindByName(s.users, Text.Trim(username)).None?
    && var i := FindByEmail(s.users, Text.Trim(email));
       i.Some? && s.users[i.value].username != Some(username)
  }

  /**
   Calling again after the assignment failed: the second call always succeeds. It
   finds the user of the first and makes it an administrator exactly if the name
   is trimmed; otherwise it stores a second user.
   */
  lemma InterruptedBootstrapIsRepairedIff(s: Store, username: string, email: string)
    requires UniqueUserIds(s) && AddsAdmin(s, username, email)
    ensures var cut := InterruptedBootstrap(s, username, email).store;
            var again := BootstrapAdmin(cut, username, email);
            && again.result.Ok? && (again.store.users == cut.users <==> Text.Trimmed(username))
            && (Text.Trimmed(username) ==> again.result == Ok(Bootstrapped(s.nextUser, username, false)))
            && FindAssignment(again.store.assignments, again.result.value.userId,
                              s.roles[FindRole(s.roles, "admin").value].id).Some?
  {
    var cut := InterruptedBootstrap(s, username, email).store;
    BootstrapUsers(s, username, email);
    Text.TrimIdentity(username);
    AddedAdminIsFound(s, cut, username, email);
    BootstrapUsers(cut, username, email);
    BootstrapMakesAdmin(cut, username, email);
  }

  /** What the lookups find after the row was added. */
  lemma AddedAdminIsFound(s: Store, t: Store, username: string, email: string)
    requires AddsAdmin(s, username, email) && t.users == InsertUser(s, NewAdmin(username, email)).users
    ensures FindByName(t.users, Text.Trim(username)) == if Text.Trim(username) == username then Some(|s.users|)
            else None
    ensures var byEmail := FindByEmail(t.users, Text.Trim(email));
            byEmail.Some? ==> t.users[byEmail.value].username == Some(username)
  {
    assert t.users[|s.users|] == NewAdmin(username, email).(id := s.nextUser);
    assert forall k :: 0 <= k < |s.users| ==> t.users[k] == s.users[k];
    var before, after := FindByEmail(s.users, Text.Trim(email)), FindByEmail(t.users, Text.Trim(email));
    if before.Some? {
      assert t.users[before.value].email == Some(Text.Trim(email));
      assert s.users[before.value].username == Some(username) by { NormalIsNotEmpty(username); }
    }
  }

  lemma NormalIsNotEmpty(text: string)
    requires Filter.NormalizeText(text).Ok?
    ensures text != ""
  {
  }

  // ── Runs ──────────────────────────────────────────────────────────────────

  datatype Call =
    | Upsert(claims: Claims)
    | CreateLocal(dto: LocalUser)
    | SetStatus(id: int, active: bool)
    | Bootstrap(username: string, email: string)
    | CutBootstrap(username: string, email: string)     // its assignment call fails

  /** Claims come normalised, and from the external provider only. */
  predicate CallOk(c: Call) {
    c.Upsert? ==> ClaimsOk(c.claims) && c.claims.provider == EXTERNAL
  }

  function Perform(s: Store, c: Call): Store {
    match c
    case Upsert(claims) => UpsertIdentityUser(s, claims).store
    case CreateLocal(dto) => CreateLocalUser(s, dto).store
    case SetStatus(id, active) => SetUserStatus(s, id, active).store
    case Bootstrap(username, email) => BootstrapAdmin(s, username, email).store
    case CutBootstrap(username, email) => InterruptedBootstrap(s, username, email).store
  }

  function AfterCalls(s: Store, calls: seq<Call>): Store {
    if calls == [] then s else Perform(AfterCalls(s, calls[..|calls| - 1]), calls[|calls| - 1])
  }

  /** A call that adds a row for a raw email somebody holds. */
  predicate Collides(s: Store, c: Call) {
    match c
    case Upsert(_) => false
    case CreateLocal(dto) => AddsLocal(s, dto) && FindByEmail(s.users, dto.email).Some?
    case SetStatus(_, _) => false
    case Bootstrap(username, email) => AddsAdmin(s, username, email) && FindByEmail(s.users, email).Some?
    case CutBootstrap(username, email) => AddsAdmin(s, username, email) && FindByEmail(s.users, email).Some?
  }

  lemma CallKeepsOkIff(s: Store, c: Call)
    requires IdentityOk(s) && CallOk(c)
    ensures IdentityOk(Perform(s, c)) <==> !Collides(s, c)
  {
    match c
    case Upsert(claims) => UpsertKeepsOk(s, claims);
    case CreateLocal(dto) => CreateLocalKeepsOkIff(s, dto);
    case SetStatus(id, active) => SetStatusKeepsOk(s, id, active);
    case Bootstrap(username, email) => BootstrapKeepsOkIff(s, username, email);
    case CutBootstrap(username, email) => BootstrapKeepsOkIff(s, username, email);
  }

  ghost predicate AlwaysUnique(s: Store, calls: seq<Call>) {
    forall k :: 0 <= k <= |calls| ==> IdentityOk(AfterCalls(s, calls[..k]))
  }

  ghost predicate NeverCollides(s: Store, calls: seq<Call>) {
    forall k :: 0 <= k < |calls| ==> !Collides(AfterCalls(s, calls[..k]), calls[k])
  }

  lemma PrefixesSnoc(front: seq<Call>, last: Call, p: seq<Call> -> bool)
    ensures (forall k :: 0 <= k <= |front + [last]| ==> p((front + [last])[..k]))
            <==> (forall k :: 0 <= k <= |front| ==> p(front[..k])) && p(front + [last])
  {
    var calls := front + [last];
    assert forall k :: 0 <= k <= |front| ==> calls[..k] == front[..k];
    assert calls[..|calls|] == calls;
    if forall k :: 0 <= k <= |calls| ==> p(calls[..k]) {
      forall k | 0 <= k <= |front| ensures p(front[..k]) {
        assert p(calls[..k]);
      }
    }
  }

  lemma AlwaysUniqueSnoc(s: Store, front: seq<Call>, last: Call)
    ensures AlwaysUnique(s, front + [last]) <==> AlwaysUnique(s, front) && IdentityOk(AfterCalls(s, front + [last]))
  {
    PrefixesSnoc(front, last, (calls: seq<Call>) => IdentityOk(AfterCalls(s, calls)));
  }

  lemma NeverCollidesSnoc(s: Store, front: seq<Call>, last: Call)
    ensures NeverCollides(s, front + [last]) <==> NeverCollides(s, front) && !Collides(AfterCalls(s, front), last)
  {
    var calls := front + [last];
    assert forall k :: 0 <= k <= |front| ==> calls[..k] == front[..k];
    assert front[..|front|] == front && calls[|front|] == last;
    if NeverCollides(s, calls) {
      forall k | 0 <= k < |front| ensures !Collides(AfterCalls(s, front[..k]), front[k]) {
        assert !Collides(AfterCalls(s, calls[..k]), calls[k]);
      }
      assert !Collides(AfterCalls(s, calls[..|front|]), calls[|front|]);
    }
  }

  lemma UniqueAtEnd(s: Store, calls: seq<Call>)
    requires AlwaysUnique(s, calls)
    ensures IdentityOk(AfterCalls(s, calls))
  {
    assert calls[..|calls|] == calls;
  }

  lemma OneMoreCall(s: Store, front: seq<Call>, last: Call)
    requires CallOk(last) && (AlwaysUnique(s, front) <==> NeverCollides(s, front))
    ensures AlwaysUnique(s, front + [last]) <==> NeverCollides(s, front + [last])
  {
    AlwaysUniqueSnoc(s, front, last);
    NeverCollidesSnoc(s, front, last);
    if AlwaysUnique(s, front) {
      UniqueAtEnd(s, front);
      CallKeepsOkIff(AfterCalls(s, front), last);
      assert (front + [last])[..|front|] == front;
    }
  }

  /**
   Over any sequence of provisioning calls, failed ones included, emails and
   identities are unique all along exactly when no call adds a row for a raw
   email that somebody holds where it happens.
   */
  lemma {:induction false} IdentitiesStayUniqueIff(s: Store, calls: seq<Call>)
    requires IdentityOk(s) && forall i :: 0 <= i < |calls| ==> CallOk(calls[i])
    ensures AlwaysUnique(s, calls) <==> NeverCollides(s, calls)
  {
    if calls == [] {
      assert calls[..0] == calls;
    } else {
      var front, last := calls[..|calls| - 1], calls[|calls| - 1];
      assert calls == front + [last];
      IdentitiesStayUniqueIff(s, front);
      OneMoreCall(s, front, last);
    }
  }

  /** Texts without outer white space are looked up as they are stored. */
  predicate TrimmedCall(c: Call) {
    match c
    case Upsert(_) => true
    case CreateLocal(dto) => Text.Trimmed(dto.email)
    case SetStatus(_, _) => true
    case Bootstrap(username, email) => Text.Trimmed(username) && Text.Trimmed(email)
    case CutBootstrap(username, email) => Text.Trimmed(username) && Text.Trimmed(email)
  }

  lemma TrimmedNeverCollides(s: Store, c: Call)
    requires TrimmedCall(c)
    ensures !Collides(s, c)
  {
    match c
    case Upsert(_) =>
    case CreateLocal(dto) => Text.TrimIdentity(dto.email);
    case SetStatus(_, _) =>
    case Bootstrap(username, email) => TrimmedAdminIsNew(s, username, email);
    case CutBootstrap(username, email) => TrimmedAdminIsNew(s, username, email);
  }

  lemma TrimmedAdminIsNew(s: Store, username: string, email: string)
    requires Text.Trimmed(username) && Text.Trimmed(email)
    ensures AddsAdmin(s, username, email) ==> FindByEmail(s.users, email).None?
  {
    Text.TrimIdentity(username);
    Text.TrimIdentity(email);
    if AddsAdmin(s, username, email) {
      NormalIsNotEmpty(username);
    }
  }

  /** With trimmed emails and bootstrap names no call does. */
  lemma {:induction false} IdentitiesStayUnique(s: Store, calls: seq<Call>)
    requires IdentityOk(s) && forall i :: 0 <= i < |calls| ==> CallOk(calls[i]) && TrimmedCall(calls[i])
    ensures IdentityOk(AfterCalls(s, calls))
  {
    if calls != [] {
      var t, last := AfterCalls(s, calls[..|calls| - 1]), calls[|calls| - 1];
      IdentitiesStayUnique(s, calls[..|calls| - 1]);
      TrimmedNeverCollides(t, last);
      CallKeepsOkIff(t, last);
    }
  }

  lemma FirstLocalUser(s: Store, dto: LocalUser)
    requires Users in s.present && s.users == [] && dto.roles == []
    requires Filter.NormalizeText(dto.username).Ok? && Filter.NormalizeText(dto.email).Ok?
    ensures CreateLocalUser(s, dto).store == InsertUser(s, NewLocalUser(dto))
  {
  }

  lemma TwoCalls(s: Store, a: Call, b: Call)
    ensures AfterCalls(s, [a, b]) == Perform(Perform(s, a), b)
  {
    assert [a, b][..1] == [a] && [a][..0] == [];
    assert AfterCalls(s, [a]) == Perform(AfterCalls(s, []), a);
  }

  /**
   A user name with outer white space: the local user is stored under the raw
   name, the bootstrap looks for the trimmed one, finds the email under the same
   raw name and takes it for its own, and stores it a second time.
   */
  lemma BootstrapDuplicatesEmail(s: Store, name: string, email: string)
    requires {Users, Roles, UserRoles} <= s.present && s.users == [] && FindRole(s.roles, "admin").Some?
    requires Filter.NormalizeText(name).Ok? && !Text.Trimmed(name) && Filter.NormalizeText(email) == Ok(email)
    ensures var t := AfterCalls(s, [CreateLocal(LocalUser(name, email, None, [])), Bootstrap(name, email)]);
            && |t.users| == 2 && t.users[0].email == t.users[1].email == Some(email)
            && t.users[0].username == t.users[1].username == Some(name)
  {
    var dto := LocalUser(name, email, None, []);
    TwoCalls(s, CreateLocal(dto), Bootstrap(name, email));
    FirstLocalUser(s, dto);
    Text.TrimIdentity(name);
    var t := InsertUser(s, NewLocalUser(dto));
    assert t.users[0] == NewLocalUser(dto).(id := s.nextUser);
    assert FindByName(t.users, Text.Trim(name)).None?;
    assert FindByEmail(t.users, email) == Some(0);
  }

  /**
   An email that starts with a character `trim` drops: both local users are looked
   up by the trimmed email, which nobody holds, and stored under the same raw one.
   */
  lemma LocalUsersShareEmail(s: Store, first: string, second: string, email: string)
    requires Users in s.present && s.users == [] && first != Text.Trim(second)
    requires Filter.NormalizeText(first).Ok? && Filter.NormalizeText(second).Ok?
    requires Filter.NormalizeText(email).Ok? && !Text.Trimmed(email)
    ensures var t := AfterCalls(s, [CreateLocal(LocalUser(first, email, None, [])),
                                    CreateLocal(LocalUser(second, email, None, []))]);
            && |t.users| == 2 && t.users[0].email == t.users[1].email == Some(email)
            && SameIdentity(t.users[0], t.users[1])
  {
    var a, b := LocalUser(first, email, None, []), LocalUser(second, email, None, []);
    TwoCalls(s, CreateLocal(a), CreateLocal(b));
    FirstLocalUser(s, a);
    Text.TrimIdentity(email);
    var t := InsertUser(s, NewLocalUser(a));
    assert t.users[0] == NewLocalUser(a).(id := s.nextUser);
    assert AddsLocal(t, b);
    CreateLocalUsers(t, b);
  }

  /** An ideographic space is white space to `trim`, and not refused in a filter value. */
  lemma IdeographicSpaceIsTrimmed()
    ensures Filter.NormalizeText("\U{3000}a@b.co").Ok? && !Text.Trimmed("\U{3000}a@b.co")
  {
    var email := "\U{3000}a@b.co";
    assert email[1..] == "a@b.co" && Text.TrimStart(email) == Text.TrimStart("a@b.co") == "a@b.co";
    assert Text.Trim(email) == "a@b.co";
  }

  // ── Who may log in ────────────────────────────────────────────────────────

  /** The user may log in, or may not: an empty cell counts as active. */
  ghost predicate HasStatus(s: Store, id: nat, active: bool) {
    exists i :: 0 <= i < |s.users| && s.users[i].id == id && (s.users[i].active != Some(false)) == active
  }

  /** Rows keep their place, id and status; others may be added. */
  predicate StatusKept(a: seq<UserRow>, b: seq<UserRow>) {
    |a| <= |b| && forall k :: 0 <= k < |a| ==> b[k].id == a[k].id && b[k].active == a[k].active
  }

  lemma UpsertKeepsStatus(s: Store, c: Claims)
    requires UniqueUserIds(s)
    ensures StatusKept(s.users, UpsertIdentityUser(s, c).store.users) && UniqueUserIds(UpsertIdentityUser(s, c).store)
    ensures UpsertIdentityUser(s, c).result.Ok? ==>
              var answer := UpsertIdentityUser(s, c).result.value;
              exists u :: u in UpsertIdentityUser(s, c).store.users && answer == Resolve(u, c.roles)
  {
    var o := UpsertIdentityUser(s, c);
    if o.result.Ok? {
      var subject := Filter.NormalizeText(c.subject).value;
      var bySubject := FindBySubject(s.users, c.provider, subject);
      if bySubject.Some? {
        var u := s.users[bySubject.value];
        var changed := u.(email := Or(c.email, u.email), username := Or(c.username, u.username));
        UpdateUserIsLocal(s, bySubject.value, changed);
        assert o.store.users[bySubject.value] == changed;
      } else if c.email.Some? && c.email.value != ""
          && FindByEmail(s.users, Filter.NormalizeText(c.email.value).value).Some? {
        var i := FindByEmail(s.users, Filter.NormalizeText(c.email.value).value).value;
        var u := s.users[i];
        var changed := u.(provider := Some(c.provider), subject := Some(c.subject),
            username := Or(c.username, u.username));
        UpdateUserIsLocal(s, i, changed);
        assert o.store.users[i] == changed;
      } else {
        assert o.store.users[|s.users|] == NewUser(c).(id := s.nextUser);
      }
    }
  }

  lemma KeptStatus(s: Store, t: Store, id: nat, active: bool)
    requires StatusKept(s.users, t.users) && HasStatus(s, id, active)
    ensures HasStatus(t, id, active)
  {
    var i :| 0 <= i < |s.users| && s.users[i].id == id && (s.users[i].active != Some(false)) == active;
    assert t.users[i].id == id && t.users[i].active == s.users[i].active;
  }

  lemma BootstrapKeepsStatus(s: Store, username: string, email: string)
    requires UniqueUserIds(s)
    ensures StatusKept(s.users, BootstrapAdmin(s, username, email).store.users)
    ensures UniqueUserIds(BootstrapAdmin(s, username, email).store)
    ensures StatusKept(s.users, InterruptedBootstrap(s, username, email).store.users)
    ensures UniqueUserIds(InterruptedBootstrap(s, username, email).store)
  {
    BootstrapUsers(s, username, email);
  }

  lemma SetStatusKeepsStatus(s: Store, other: int, to: bool, id: nat, active: bool)
    requires UniqueUserIds(s) && HasStatus(s, id, active) && !(other == id && to != active)
    ensures UniqueUserIds(SetUserStatus(s, other, to).store)
            && HasStatus(SetUserStatus(s, other, to).store, id, active)
  {
    var i :| 0 <= i < |s.users| && s.users[i].id == id && (s.users[i].active != Some(false)) == active;
    StatusKeepsOthers(s, other, to, i);
  }

  lemma CallKeepsStatus(s: Store, c: Call, id: nat, active: bool)
    requires UniqueUserIds(s) && HasStatus(s, id, active) && c != SetStatus(id, !active)
    ensures UniqueUserIds(Perform(s, c)) && HasStatus(Perform(s, c), id, active)
  {
    match c
    case Upsert(claims) => UpsertKeepsStatus(s, claims); KeptStatus(s, Perform(s, c), id, active);
    case CreateLocal(dto) => LocalKeepsStatus(s, dto); KeptStatus(s, Perform(s, c), id, active);
    case SetStatus(other, to) => SetStatusKeepsStatus(s, other, to, id, active);
    case Bootstrap(name, email) => BootstrapKeepsStatus(s, name, email); KeptStatus(s, Perform(s, c), id, active);
    case CutBootstrap(name, email) => BootstrapKeepsStatus(s, name, email); KeptStatus(s, Perform(s, c), id, active);
  }

  lemma LocalKeepsStatus(s: Store, dto: LocalUser)
    requires UniqueUserIds(s)
    ensures StatusKept(s.users, CreateLocalUser(s, dto).store.users) && UniqueUserIds(CreateLocalUser(s, dto).store)
  {
    CreateLocalUsers(s, dto);
    AppendKeepsStatus(s, CreateLocalUser(s, dto).store, NewLocalUser(dto));
  }

  lemma AppendKeepsStatus(s: Store, t: Store, u: UserRow)
    requires UniqueUserIds(s)
    ensures t.users == InsertUser(s, u).users && t.nextUser == s.nextUser + 1
            ==> StatusKept(s.users, t.users) && UniqueUserIds(t)
  {
  }

  lemma StatusKeepsOthers(s: Store, id: int, active: bool, i: nat)
    requires UniqueUserIds(s) && i < |s.users|
    ensures var t := SetUserStatus(s, id, active).store;
            && UniqueUserIds(t) && |t.users| == |s.users| && t.users[i].id == s.users[i].id
            && (s.users[i].id != id ==> t.users[i].active == s.users[i].active)
            && (s.users[i].id == id && Users in s.present ==> t.users[i].active == Some(active))
            && (Users !in s.present ==> t == s)
  {
    var k := FindUserById(s.users, id);
    if k.Some? {
      UpdateUserIsLocal(s, k.value, s.users[k.value].(active := Some(active)));
      if i < k.value { assert s.users[i].id != s.users[k.value].id; }
      if k.value < i { assert s.users[k.value].id != s.users[i].id; }
    }
  }

  lemma {:induction false} RunKeepsStatus(s: Store, calls: seq<Call>, id: nat, active: bool)
    requires UniqueUserIds(s) && HasStatus(s, id, active)
    requires forall i :: 0 <= i < |calls| ==> calls[i] != SetStatus(id, !active)
    ensures UniqueUserIds(AfterCalls(s, calls)) && HasStatus(AfterCalls(s, calls), id, active)
  {
    if calls != [] {
      RunKeepsStatus(s, calls[..|calls| - 1], id, active);
      CallKeepsStatus(AfterCalls(s, calls[..|calls| - 1]), calls[|calls| - 1], id, active);
    }
  }

  lemma AnsweredWithStatus(t: Store, id: nat, active: bool, c: Claims)
    requires UniqueUserIds(t) && HasStatus(t, id, active)
    ensures var answer := UpsertIdentityUser(t, c).result;
            answer.Ok? && answer.value.userId == id ==> answer.value.active == active
  {
    var o := UpsertIdentityUser(t, c);
    UpsertKeepsStatus(t, c);
    if o.result.Ok? && o.result.value.userId == id {
      var u :| u in o.store.users && o.result.value == Resolve(u, c.roles);
      var j :| 0 <= j < |o.store.users| && o.store.users[j] == u;
      var i :| 0 <= i < |t.users| && t.users[i].id == id && (t.users[i].active != Some(false)) == active;
      assert o.store.users[i].id == id;
      assert i == j;
    }
  }

  /**
   A deactivated user stays out: until a call sets the status again, whatever is
   provisioned, linked or bootstrapped in between, every identity that resolves
   to this user is answered as inactive.
   */
  lemma DeactivatedStaysOut(s: Store, calls: seq<Call>, id: nat, c: Claims)
    requires UniqueUserIds(s) && exists u :: u in s.users && u.id == id && u.active == Some(false)
    requires forall i :: 0 <= i < |calls| ==> calls[i] != SetStatus(id, true)
    ensures var answer := UpsertIdentityUser(AfterCalls(s, calls), c).result;
            answer.Ok? && answer.value.userId == id ==> !answer.value.active
  {
    var u :| u in s.users && u.id == id && u.active == Some(false);
    var i :| 0 <= i < |s.users| && s.users[i] == u;
    assert HasStatus(s, id, false);
    RunKeepsStatus(s, calls, id, false);
    AnsweredWithStatus(AfterCalls(s, calls), id, false, c);
  }

  /**
   A new identity stays in: from its first login on, until a call deactivates the
   user, every identity that resolves to this user is answered as active.
   */
  lemma NewIdentityStaysIn(s: Store, first: Claims, calls: seq<Call>, c: Claims)
    requires UniqueUserIds(s) && Looks(s, first, None, None)
    requires forall i :: 0 <= i < |calls| ==> calls[i] != SetStatus(s.nextUser, false)
    ensures var answer := UpsertIdentityUser(AfterCalls(UpsertIdentityUser(s, first).store, calls), c).result;
            answer.Ok? && answer.value.userId == s.nextUser ==> answer.value.active
  {
    FirstUpsertCreates(s, first);
    UpsertKeepsStatus(s, first);
    var t := UpsertIdentityUser(s, first).store;
    assert t.users[|s.users|].active == Some(true);
    assert HasStatus(t, s.nextUser, true);
    RunKeepsStatus(t, calls, s.nextUser, true);
    AnsweredWithStatus(AfterCalls(t, calls), s.nextUser, true, c);
  }

  /** A status is refused exactly for a user that is not stored, and then nothing changes. */
  lemma StatusIsRefusedIff(s: Store, id: int, active: bool)
    ensures var o := SetUserStatus(s, id, active);
            (o.result.Ok? <==> Users in s.present && exists u :: u in s.users && u.id == id)
            && (o.result.Err? ==> o == Outcome(s, Err(NotFound)))
  {
    var i := FindUserById(s.users, id);
    if i.Some? { assert s.users[i.value] in s.users; }
  }

  /** Setting the status answers the user with it, and stores it in that row alone. */
  lemma StatusIsAnswered(s: Store, id: nat, active: bool)
    requires UniqueUserIds(s)
    ensures var o := SetUserStatus(s, id, active);
            o.result.Ok? ==>
              && o.result.value.userId == id && o.result.value.active == active
              && |o.store.users| == |s.users|
              && forall i :: 0 <= i < |s.users| ==>
                   o.store.users[i] == if s.users[i].id == id then s.users[i].(active := Some(active)) else s.users[i]
  {
    var k := FindUserById(s.users, id);
    if k.Some? {
      UpdateUserIsLocal(s, k.value, s.users[k.value].(active := Some(active)));
      forall i | 0 <= i < |s.users| && i != k.value ensures s.users[i].id != id {
        if i < k.value { assert s.users[i].id != s.users[k.value].id; }
        if k.value < i { assert s.users[k.value].id != s.users[i].id; }
      }
    }
  }

  /** A successful bootstrap leaves an administrator: the answered user exists and is assigned the role. */
  lemma BootstrapMakesAdmin(s: Store, username: string, email: string)
    requires BootstrapAdmin(s, username, email).result.Ok?
    ensures var o := BootstrapAdmin(s, username, email);
            var admin := FindRole(s.roles, "admin");
            && admin.Some? && FindAssignment(o.store.assignments, o.result.value.userId,
               s.roles[admin.value].id).Some?
            && (exists u :: u in o.store.users && u.id == o.result.value.userId)
            && o.result.value.username == username && (o.result.value.created <==> |o.store.users| == |s.users| + 1)
            && (!o.result.value.created ==> o.store.users == s.users)
  {
    var o := BootstrapAdmin(s, username, email);
    var admin := FindRole(s.roles, "admin");
    if o.result.value.created {
      assert o.store.users[|s.users|].id == s.nextUser;
      assert o.store.assignments[|s.assignments|]
             == AssignmentRow(s.nextAssignment, Some(s.nextUser), Some(s.roles[admin.value].id));
    } else {
      var byName := FindByName(s.users, Filter.NormalizeText(username).value).value;
      assert s.users[byName] in s.users;
      if o.store != s {
        assert o.store.assignments[|s.assignments|]
               == AssignmentRow(s.nextAssignment, Some(s.users[byName].id), Some(s.roles[admin.value].id));
      }
    }
  }

  /**
   Only external identities may be upserted: with the local provider a subject
   need not be the user's email, and a local user created for that email later
   shares its identity.
   */
  lemma LocalUpsertBreaksUniqueness(s: Store, name: string, email: string)
    requires Users in s.present && s.users == [] && name != "user_" + email
    requires Filter.NormalizeText(name) == Ok(name) && Filter.NormalizeText(email) == Ok(email)
    ensures var t := UpsertIdentityUser(s, Claims(LOCAL, email, None, None, [])).store;
            var u := CreateLocalUser(t, LocalUser(name, email, None, [])).store;
            |u.users| == 2 && SameIdentity(u.users[0], u.users[1])
  {
  }

  // ── The services ──────────────────────────────────────────────────────────

  class UserProvisioningService {
    const db: Permissions.NocoDB

    constructor (db: Permissions.NocoDB)
      ensures this.db == db
    {
      this.db := db;
    }

    method Upsert(c: Claims) returns (r: Result<Resolved>)
      modifies db`store
      ensures Outcome(db.store, r) == UpsertIdentityUser(old(db.store), c)
    {
      var s := db.store;
      if Users !in s.present {
        return Err(NotFound);
      }
      var subject := Filter.NormalizeText(c.subject);
      if subject.Err? {
        return Err(subject.error);
      }
      var bySubject := FindBySubject(s.users, c.provider, subject.value);
      var byEmail := None;
      if c.email.Some? && c.email.value != "" {
        var email := Filter.NormalizeText(c.email.value);
        if email.Err? {
          return Err(BadRequest);
        }
        byEmail := FindByEmail(s.users, email.value);
      }
      if bySubject.Some? && byEmail.Some? && s.users[bySubject.value].id != s.users[byEmail.value].id {
        return Err(Conflict);
      }
      if bySubject.Some? {
        var u := s.users[bySubject.value];
        var changed := u.(email := Or(c.email, u.email), username := Or(c.username, u.username));
        db.store := s.(users := UpdateUserById(s.users, u.id, changed));
        return Ok(Resolve(changed, c.roles));
      }
      if byEmail.Some? {
        var u := s.users[byEmail.value];
        var changed := u.(provider := Some(c.provider), subject := Some(c.subject),
            username := Or(c.username, u.username));
        db.store := s.(users := UpdateUserById(s.users, u.id, changed));
        return Ok(Resolve(changed, c.roles));
      }
      var username := Or(c.username, Some(DefaultUsername(c)));
      var created := UserRow(s.nextUser, username, c.email, Some(true), Some(c.provider), Some(c.subject));
      db.store := InsertUser(s, created);
      return Ok(Resolve(created, c.roles));
    }

    method AssignByNames(user: nat, names: seq<string>) returns (error: Option<Error>)
      modifies db`store
      ensures Roled(db.store, error) == AssignRolesByName(old(db.store), user, names)
    {
      error := None;
      for i := 0 to |names|
        invariant error == None && Roled(db.store, None) == AssignRolesByName(old(db.store), user, names[..i])
      {
        RoleStep(old(db.store), user, names, i);
        var s := db.store;
        match Filter.NormalizeText(names[i]) {
          case Err(e) => return Some(e);
          case Ok(key) =>
            var role := FindRole(s.roles, key);
            if role.Some? && FindAssignment(s.assignments, user, s.roles[role.value].id).None? {
              db.store := InsertAssignment(s, user, s.roles[role.value].id);
            }
        }
      }
      assert names[..|names|] == names;
    }

    method CreateLocal(dto: LocalUser) returns (r: Result<Resolved>)
      modifies db`store
      ensures Outcome(db.store, r) == CreateLocalUser(old(db.store), dto)
    {
      var s := db.store;
      if Users !in s.present {
        return Err(NotFound);
      }
      var name := Filter.NormalizeText(dto.username);
      if name.Err? {
        return Err(name.error);
      }
      if FindByName(s.users, name.value).Some? {
        return Err(Conflict);
      }
      var email := Filter.NormalizeText(dto.email);
      if email.Err? {
        return Err(email.error);
      }
      if FindByEmail(s.users, email.value).Some? {
        return Err(Conflict);
      }
      var created := NewLocalUser(dto).(id := s.nextUser);
      db.store := InsertUser(s, created);
      var resolved := Resolve(created, dto.roles);
      if dto.roles != [] {
        if Roles !in s.present || UserRoles !in s.present {
          return Err(NotFound);
        }
        var error := AssignByNames(resolved.userId, dto.roles);
        if error.Some? {
          return Err(error.value);
        }
      }
      return Ok(resolved);
    }

    method SetStatus(id: int, active: bool) returns (r: Result<Resolved>)
      modifies db`store
      ensures Outcome(db.store, r) == SetUserStatus(old(db.store), id, active)
    {
      var s := db.store;
      var i := FindUserById(s.users, id);
      if Users !in s.present || i.None? {
        return Err(NotFound);
      }
      var changed := s.users[i.value].(active := Some(active));
      db.store := s.(users := UpdateUserById(s.users, changed.id, changed));
      return Ok(Resolve(changed, []));
    }
  }

  class BootstrapAdminService {
    const db: Permissions.NocoDB

    constructor (db: Permissions.NocoDB)
      ensures this.db == db
    {
      this.db := db;
    }

    /** `assigns` says whether the call that assigns the role succeeds, if it is made. */
    method Bootstrap(username: string, email: string, assigns: bool) returns (r: Result<Bootstrapped>)
      modifies db`store
      ensures Outcome(db.store, r) == if assigns then BootstrapAdmin(old(db.store), username, email)
                                      else InterruptedBootstrap(old(db.store), username, email)
    {
      var s := db.store;
      if !({Users, Roles, UserRoles} <= s.present) {
        return Err(NotFound);
      }
      var name, mail := Filter.NormalizeText(username), Filter.NormalizeText(email);
      if name.Err? {
        return Err(name.error);
      }
      if mail.Err? {
        return Err(mail.error);
      }
      var byName, byEmail := FindByName(s.users, name.value), FindByEmail(s.users, mail.value);
      if byEmail.Some? && byName.None? && Or(s.users[byEmail.value].username, Some("")).value != username {
        return Err(Conflict);
      }
      var admin := FindRole(s.roles, "admin");
      if admin.None? {
        return Err(NotFound);
      }
      var role := s.roles[admin.value].id;
      if byName.Some? {
        var user := s.users[byName.value].id;
        if FindAssignment(s.assignments, user, role).None? {
          if !assigns {
            return Err(Unavailable);
          }
          db.store := InsertAssignment(s, user, role);
        }
        return Ok(Bootstrapped(user, username, false));
      }
      db.store := InsertUser(s, NewAdmin(username, email));
      if !assigns {
        return Err(Unavailable);
      }
      db.store := InsertAssignment(db.store, s.nextUser, role);
      return Ok(Bootstrapped(s.nextUser, username, true));
    }
  }

  lemma RoleStep(s: Store, user: nat, names: seq<string>, i: nat)
    requires i < |names| && AssignRolesByName(s, user, names[..i]).error == None
    ensures var r := AssignByName(AssignRolesByName(s, user, names[..i]).store, user, names[i]);
            (r.error == None ==> AssignRolesByName(s, user, names[..i + 1]) == r)
            && (r.error.Some? ==> AssignRolesByName(s, user, names) == r)
  {
    assert names[..i + 1][..i] == names[..i];
    if AssignRolesByName(s, user, names[..i + 1]).error.Some? {
      RolesStopAtError(s, user, names, i + 1);
    }
  }

  lemma {:induction false} RolesStopAtError(s: Store, user: nat, names: seq<string>, i: nat)
    requires i <= |names| && AssignRolesByName(s, user, names[..i]).error.Some?
    ensures AssignRolesByName(s, user, names) == AssignRolesByName(s, user, names[..i])
  {
    if i < |names| {
      var front := names[..|names| - 1];
      assert front[..i] == names[..i];
      RolesStopAtError(s, user, front, i);
    } else {
      assert names[..i] == names;
    }
  }
}
