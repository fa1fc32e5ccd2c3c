/**
 The `where` strings the services send, evaluated on the stored rows, select
 exactly the rows the model of the store returns.
 */
module Queries {
  import opened Wrappers
  import Text
  import Filter
  import FilterLaws
  import opened Store
  import Identity

  // ── Rows as the data API shows them, keyed by field title ─────────────────

  function NumberOr(n: Option<int>): FilterLaws.Cell {
    if n.Some? then FilterLaws.NumberCell(n.value) else FilterLaws.EmptyCell
  }

  function TextOr(t: Option<string>): FilterLaws.Cell {
    if t.Some? then FilterLaws.TextCell(t.value) else FilterLaws.EmptyCell
  }

  const USER_ID := "user_id"
  const ROLE_ID := "role_id"
  const TABLE_NAME := "table_name"
  const ROLE_NAME := "role_name"
  const EMAIL := "email"
  const USERNAME := "username"
  const AUTH_PROVIDER := "auth_provider"
  const EXTERNAL_SUBJECT := "external_subject"

  function AssignmentRecord(a: AssignmentRow): FilterLaws.Record {
    map["Id" := FilterLaws.NumberCell(a.id), USER_ID := NumberOr(a.userId), ROLE_ID := NumberOr(a.roleId)]
  }

  function RoleRecord(r: RoleRow): FilterLaws.Record {
    map["Id" := FilterLaws.NumberCell(r.id), ROLE_NAME := TextOr(r.name)]
  }

  function PermissionRecord(p: PermissionRow): FilterLaws.Record {
    map["Id" := FilterLaws.NumberCell(p.id), ROLE_ID := NumberOr(p.roleId), TABLE_NAME := TextOr(p.table),
        "can_create" := FilterLaws.FlagCell(p.flags.create), "can_read" := FilterLaws.FlagCell(p.flags.read),
        "can_update" := FilterLaws.FlagCell(p.flags.update), "can_delete" := FilterLaws.FlagCell(p.flags.delete)]
  }

  function UserRecord(u: UserRow): FilterLaws.Record {
    map["Id" := FilterLaws.NumberCell(u.id), USERNAME := TextOr(u.username), EMAIL := TextOr(u.email),
        AUTH_PROVIDER := TextOr(u.provider), EXTERNAL_SUBJECT := TextOr(u.subject)]
  }

  /** The field titles the services use. */
  lemma FieldsAreAccepted()
    ensures Filter.IsField("id") && Filter.IsField(USER_ID) && Filter.IsField(ROLE_ID) && Filter.IsField(TABLE_NAME)
    ensures Filter.IsField(ROLE_NAME) && Filter.IsField(EMAIL) && Filter.IsField(USERNAME)
    ensures Filter.IsField(AUTH_PROVIDER) && Filter.IsField(EXTERNAL_SUBJECT)
  {
  }

  // ── Single filters ────────────────────────────────────────────────────────

  function EqNumber(field: string, n: int): Result<string> {
    Filter.FilterEq(field, Filter.Number(n))
  }

  function EqText(field: string, text: string): Result<string> {
    Filter.FilterEq(field, Filter.Text(text))
  }

  lemma EqNumberSelects(field: string, n: int, row: FilterLaws.Record)
    requires Filter.IsField(field) && field != "id"
    ensures EqNumber(field, n).Ok?
    ensures FilterLaws.Selects(EqNumber(field, n).value, row)
            <==> FilterLaws.CellOf(row, field) == FilterLaws.NumberCell(n)
  {
    assert EqNumber(field, n).Ok?;
    FilterLaws.EqSelects(field, Filter.Number(n), row);
  }

  lemma EqTextSelects(field: string, text: string, row: FilterLaws.Record)
    requires Filter.IsField(field) && field != "id"
    ensures EqText(field, text).Ok? <==> Filter.NormalizeText(text).Ok?
    ensures EqText(field, text).Ok? ==>
              (FilterLaws.Selects(EqText(field, text).value, row) <==>
               FilterLaws.CellOf(row, field) == FilterLaws.TextCell(Text.Trim(text)))
  {
    if EqText(field, text).Ok? {
      FilterLaws.EqSelects(field, Filter.Text(text), row);
    }
  }

  lemma EqNumberIsExpression(field: string, n: int)
    requires EqNumber(field, n).Ok?
    ensures Filter.IsExpression(EqNumber(field, n).value)
  {
    FilterLaws.BuildMeans(FilterLaws.CallEq(field, Filter.Number(n)));
  }

  lemma EqTextIsExpression(field: string, text: string)
    requires EqText(field, text).Ok?
    ensures Filter.IsExpression(EqText(field, text).value)
  {
    FilterLaws.BuildMeans(FilterLaws.CallEq(field, Filter.Text(text)));
  }

  // ── Two filters in conjunction ────────────────────────────────────────────

  function Both(a: Result<string>, b: Result<string>): Result<string> {
    if a.Err? then a else if b.Err? then b else Filter.AndFilters([a.value, b.value])
  }

  lemma TwoOf(filters: seq<string>, p: string -> bool)
    requires |filters| == 2
    ensures (forall i :: 0 <= i < |filters| ==> p(filters[i])) <==> p(filters[0]) && p(filters[1])
  {
  }

  lemma BothAreAccepted(filters: seq<string>)
    requires |filters| == 2 && Filter.IsExpression(filters[0]) && Filter.IsExpression(filters[1])
    ensures Filter.AndFilters(filters).Ok?
  {
    TwoOf(filters, (f: string) => Filter.IsExpression(f));
  }

  lemma BothSelect(filters: seq<string>, row: FilterLaws.Record)
    requires |filters| == 2 && Filter.AndFilters(filters).Ok?
    ensures FilterLaws.Selects(Filter.AndFilters(filters).value, row) <==>
            FilterLaws.Selects(filters[0], row) && FilterLaws.Selects(filters[1], row)
  {
    FilterLaws.AndIsConjunction(filters, row);
    TwoOf(filters, (f: string) => FilterLaws.Selects(f, row));
  }

  /** Two accepted filters that mean p and q together mean both. */
  lemma BothMean(x: string, y: string, row: FilterLaws.Record, p: bool, q: bool)
    requires Filter.IsExpression(x) && Filter.IsExpression(y)
    requires FilterLaws.Selects(x, row) == p && FilterLaws.Selects(y, row) == q
    ensures Both(Ok(x), Ok(y)).Ok? && FilterLaws.Selects(Both(Ok(x), Ok(y)).value, row) == (p && q)
  {
    BothAreAccepted([x, y]);
    BothSelect([x, y], row);
  }

  // ── The queries of the services ───────────────────────────────────────────

  /** The rows of a table that a `where` string selects. */
  ghost predicate Returns<T(!new)>(where: Result<string>, record: T -> FilterLaws.Record, found: T -> bool) {
    where.Ok? && forall row :: FilterLaws.Selects(where.value, record(row)) <==> found(row)
  }

  /** `user_id = user`: the assignments of a user. */
  lemma AssignmentsOfQuery(user: int)
    ensures Returns(EqNumber(USER_ID, user), AssignmentRecord, (a: AssignmentRow) => a.userId == Some(user))
  {
    FieldsAreAccepted();
    forall a: AssignmentRow ensures EqNumber(USER_ID, user).Ok? &&
      (FilterLaws.Selects(EqNumber(USER_ID, user).value, AssignmentRecord(a)) <==> a.userId == Some(user)) {
      EqNumberSelects(USER_ID, user, AssignmentRecord(a));
    }
  }

  lemma AssignmentRowQuery(user: int, role: int, a: AssignmentRow)
    ensures EqNumber(USER_ID, user).Ok? && EqNumber(ROLE_ID, role).Ok?
    ensures var where := Both(EqNumber(USER_ID, user), EqNumber(ROLE_ID, role));
            where.Ok? && FilterLaws.Selects(where.value, AssignmentRecord(a))
                == (a.userId == Some(user) && a.roleId == Some(role))
  {
    FieldsAreAccepted();
    EqNumberSelects(USER_ID, user, AssignmentRecord(a));
    EqNumberSelects(ROLE_ID, role, AssignmentRecord(a));
    EqNumberIsExpression(USER_ID, user);
    EqNumberIsExpression(ROLE_ID, role);
    BothMean(EqNumber(USER_ID, user).value, EqNumber(ROLE_ID, role).value, AssignmentRecord(a),
             a.userId == Some(user), a.roleId == Some(role));
  }

  /** `user_id = user and role_id = role`: the assignment of a role to a user. */
  lemma AssignmentQuery(user: int, role: int)
    ensures Returns(Both(EqNumber(USER_ID, user), EqNumber(ROLE_ID, role)), AssignmentRecord,
                    (a: AssignmentRow) => a.userId == Some(user) && a.roleId == Some(role))
  {
    forall a { AssignmentRowQuery(user, role, a); }
    AssignmentRowQuery(user, role, AssignmentRow(0, None, None));
  }

  lemma PermissionRowQuery(role: int, table: string, p: PermissionRow)
    requires Filter.NormalizeText(table).Ok?
    ensures EqNumber(ROLE_ID, role).Ok? && EqText(TABLE_NAME, table).Ok?
    ensures var where := Both(EqNumber(ROLE_ID, role), EqText(TABLE_NAME, table));
            where.Ok? && FilterLaws.Selects(where.value, PermissionRecord(p))
                         == (p.roleId == Some(role) && p.table == Some(Text.Trim(table)))
  {
    FieldsAreAccepted();
    EqNumberSelects(ROLE_ID, role, PermissionRecord(p));
    EqTextSelects(TABLE_NAME, table, PermissionRecord(p));
    EqNumberIsExpression(ROLE_ID, role);
    EqTextIsExpression(TABLE_NAME, table);
    BothMean(EqNumber(ROLE_ID, role).value, EqText(TABLE_NAME, table).value, PermissionRecord(p),
             p.roleId == Some(role), p.table == Some(Text.Trim(table)));
  }

  /**
   `role_id = role and table_name = table`: refused exactly when the table name
   cannot be quoted, and else the rows stored under the trimmed name.
   */
  lemma PermissionQuery(role: int, table: string)
    ensures Both(EqNumber(ROLE_ID, role), EqText(TABLE_NAME, table)).Ok? <==> Filter.NormalizeText(table).Ok?
    ensures Filter.NormalizeText(table).Ok? ==>
              Returns(Both(EqNumber(ROLE_ID, role), EqText(TABLE_NAME, table)), PermissionRecord,
                      (p: PermissionRow) => p.roleId == Some(role) && p.table == Some(Text.Trim(table)))
  {
    if Filter.NormalizeText(table).Ok? {
      forall p { PermissionRowQuery(role, table, p); }
      PermissionRowQuery(role, table, PermissionRow(0, None, None, Flags(false, false, false, false)));
    } else {
      FieldsAreAccepted();
      EqTextSelects(TABLE_NAME, table, map[]);
    }
  }

  lemma SubjectRowQuery(provider: string, subject: string, u: UserRow)
    requires Filter.NormalizeText(provider).Ok? && Filter.NormalizeText(subject).Ok?
    ensures EqText(AUTH_PROVIDER, provider).Ok? && EqText(EXTERNAL_SUBJECT, subject).Ok?
    ensures var where := Both(EqText(AUTH_PROVIDER, provider), EqText(EXTERNAL_SUBJECT, subject));
            where.Ok? && FilterLaws.Selects(where.value, UserRecord(u))
                         == (u.provider == Some(Text.Trim(provider)) && u.subject == Some(Text.Trim(subject)))
  {
    FieldsAreAccepted();
    EqTextSelects(AUTH_PROVIDER, provider, UserRecord(u));
    EqTextSelects(EXTERNAL_SUBJECT, subject, UserRecord(u));
    EqTextIsExpression(AUTH_PROVIDER, provider);
    EqTextIsExpression(EXTERNAL_SUBJECT, subject);
    BothMean(EqText(AUTH_PROVIDER, provider).value, EqText(EXTERNAL_SUBJECT, subject).value, UserRecord(u),
             u.provider == Some(Text.Trim(provider)), u.subject == Some(Text.Trim(subject)));
  }

  /**
   `auth_provider = p and external_subject = s`: refused exactly when one of them
   cannot be quoted, and else the users with the trimmed two.
   */
  lemma SubjectQuery(provider: string, subject: string)
    ensures Both(EqText(AUTH_PROVIDER, provider), EqText(EXTERNAL_SUBJECT, subject)).Ok?
            <==> Filter.NormalizeText(provider).Ok? && Filter.NormalizeText(subject).Ok?
    ensures Filter.NormalizeText(provider).Ok? && Filter.NormalizeText(subject).Ok? ==>
              Returns(Both(EqText(AUTH_PROVIDER, provider), EqText(EXTERNAL_SUBJECT, subject)), UserRecord,
                      (u: UserRow) => u.provider == Some(Text.Trim(provider))
                          && u.subject == Some(Text.Trim(subject)))
  {
    if Filter.NormalizeText(provider).Ok? && Filter.NormalizeText(subject).Ok? {
      forall u { SubjectRowQuery(provider, subject, u); }
      SubjectRowQuery(provider, subject, UserRow(0, None, None, None, None, None));
    } else {
      FieldsAreAccepted();
      EqTextSelects(AUTH_PROVIDER, provider, map[]);
      EqTextSelects(EXTERNAL_SUBJECT, subject, map[]);
    }
  }

  lemma OneOf(ids: seq<int>, cell: FilterLaws.Cell)
    ensures (exists i :: 0 <= i < |ids| && cell == FilterLaws.NumberCell(ids[i]))
            <==> cell.NumberCell? && cell.n in ids
  {
    if cell.NumberCell? && cell.n in ids {
      var i :| 0 <= i < |ids| && ids[i] == cell.n;
      assert cell == FilterLaws.NumberCell(ids[i]);
    }
  }

  /** `id in (…)`: the roles of a load. */
  lemma RolesInQuery(ids: seq<int>)
    requires ids != []
    ensures Returns(Filter.FilterIn("id", FilterLaws.Numbers(ids)), RoleRecord, (r: RoleRow) => r.id in ids)
  {
    FieldsAreAccepted();
    FilterLaws.InSelects("id", ids, map[]);
    var where := Filter.FilterIn("id", FilterLaws.Numbers(ids)).value;
    forall r: RoleRow ensures FilterLaws.Selects(where, RoleRecord(r)) == (r.id in ids) {
      FilterLaws.InSelects("id", ids, RoleRecord(r));
      OneOf(ids, FilterLaws.NumberCell(r.id));
    }
  }

  /** `role_id in (…)`: the permission rows of a load. */
  lemma PermissionsInQuery(ids: seq<int>)
    requires ids != []
    ensures Returns(Filter.FilterIn(ROLE_ID, FilterLaws.Numbers(ids)), PermissionRecord,
                    (p: PermissionRow) => p.roleId.Some? && p.roleId.value in ids)
  {
    FieldsAreAccepted();
    FilterLaws.InSelects(ROLE_ID, ids, map[]);
    forall p: PermissionRow ensures
      FilterLaws.Selects(Filter.FilterIn(ROLE_ID, FilterLaws.Numbers(ids)).value, PermissionRecord(p))
      == (p.roleId.Some? && p.roleId.value in ids) {
      FilterLaws.InSelects(ROLE_ID, ids, PermissionRecord(p));
      OneOf(ids, NumberOr(p.roleId));
    }
  }

  /** `email = e`: refused exactly when the email cannot be quoted, and else looked up trimmed. */
  lemma EmailQuery(email: string)
    ensures EqText(EMAIL, email).Ok? <==> Filter.NormalizeText(email).Ok?
    ensures EqText(EMAIL, email).Ok? ==>
              Returns(EqText(EMAIL, email), UserRecord, (u: UserRow) => u.email == Some(Text.Trim(email)))
  {
    FieldsAreAccepted();
    EqTextSelects(EMAIL, email, map[]);
    if EqText(EMAIL, email).Ok? {
      forall u: UserRow ensures
        FilterLaws.Selects(EqText(EMAIL, email).value, UserRecord(u)) <==> u.email == Some(Text.Trim(email)) {
        EqTextSelects(EMAIL, email, UserRecord(u));
      }
    }
  }

  /** `username = n`: the same for a user name. */
  lemma UsernameQuery(username: string)
    ensures EqText(USERNAME, username).Ok? <==> Filter.NormalizeText(username).Ok?
    ensures EqText(USERNAME, username).Ok? ==>
              Returns(EqText(USERNAME, username), UserRecord, (u: UserRow) => u.username == Some(Text.Trim(username)))
  {
    FieldsAreAccepted();
    EqTextSelects(USERNAME, username, map[]);
    if EqText(USERNAME, username).Ok? {
      forall u: UserRow ensures
        FilterLaws.Selects(EqText(USERNAME, username).value, UserRecord(u)) <==>
            u.username == Some(Text.Trim(username)) {
        EqTextSelects(USERNAME, username, UserRecord(u));
      }
    }
  }

  /** `role_name = name`: the same for any role name a caller may ask for. */
  lemma RoleTextQuery(name: string)
    ensures EqText(ROLE_NAME, name).Ok? <==> Filter.NormalizeText(name).Ok?
    ensures EqText(ROLE_NAME, name).Ok? ==>
              Returns(EqText(ROLE_NAME, name), RoleRecord, (r: RoleRow) => r.name == Some(Text.Trim(name)))
  {
    FieldsAreAccepted();
    EqTextSelects(ROLE_NAME, name, map[]);
    if EqText(ROLE_NAME, name).Ok? {
      forall r: RoleRow ensures
        FilterLaws.Selects(EqText(ROLE_NAME, name).value, RoleRecord(r)) <==> r.name == Some(Text.Trim(name)) {
        EqTextSelects(ROLE_NAME, name, RoleRecord(r));
      }
    }
  }

  /** A name the role service accepts is never refused and is looked up as it is. */
  lemma RoleNameQuery(name: string)
    requires FilterLaws.IsRoleName(name)
    ensures Returns(EqText(ROLE_NAME, name), RoleRecord, (r: RoleRow) => r.name == Some(name))
  {
    FilterLaws.RoleNamesAreSafe(name);
    RoleTextQuery(name);
  }

  // ── What list and findOne return ──────────────────────────────────────────

  /** The records a `where` string selects, in order. */
  ghost function Listed<T(!new)>(where: string, rows: seq<T>, record: T -> FilterLaws.Record): seq<T> {
    if rows == [] then [] else
      (if FilterLaws.Selects(where, record(rows[0])) then [rows[0]] else []) + Listed(where, rows[1..], record)
  }

  /**
   A query whose `where` returns the rows of a predicate lists exactly those, and
   its first one is the one found.
   */
  lemma {:induction false} ListedIsSelected<T(!new)>(where: string, rows: seq<T>, record: T -> FilterLaws.Record,
      found: T -> bool)
    requires Returns(Ok(where), record, found)
    ensures Listed(where, rows, record) == Select(rows, found)
    ensures FindIndex(rows, found).None? <==> Listed(where, rows, record) == []
    ensures FindIndex(rows, found).Some? ==> Listed(where, rows, record)[0] == rows[FindIndex(rows, found).value]
  {
    if rows != [] {
      ListedIsSelected(where, rows[1..], record, found);
      assert FilterLaws.Selects(where, record(rows[0])) <==> found(rows[0]);
    }
  }

  // ── The lookups of the store functions are these queries ──────────────────

  /** The first record a query lists, as `findOne` returns it. */
  ghost predicate FindsFirst<T(!new)>(where: Result<string>, rows: seq<T>, record: T -> FilterLaws.Record,
      at: Option<nat>) {
    && where.Ok?
    && match at
       case None => Listed(where.value, rows, record) == []
       case Some(i) =>
         && i < |rows| && Listed(where.value, rows, record) != []
         && Listed(where.value, rows, record)[0] == rows[i]
  }

  lemma ListsOfTheLoad(s: Store, user: int, ids: seq<int>)
    ensures EqNumber(USER_ID, user).Ok?
            && Listed(EqNumber(USER_ID, user).value, s.assignments, AssignmentRecord) == AssignmentsOf(s, user)
    ensures ids != [] ==>
              var where := Filter.FilterIn("id", FilterLaws.Numbers(ids));
              where.Ok? && Listed(where.value, s.roles, RoleRecord) == RolesIn(s, ids)
    ensures ids != [] ==>
              var where := Filter.FilterIn(ROLE_ID, FilterLaws.Numbers(ids));
              where.Ok? && Listed(where.value, s.permissions, PermissionRecord) == PermissionsIn(s, ids)
  {
    AssignmentsOfQuery(user);
    ListedIsSelected(EqNumber(USER_ID, user).value, s.assignments, AssignmentRecord,
        (a: AssignmentRow) => a.userId == Some(user));
    if ids != [] {
      RolesInQuery(ids);
      ListedIsSelected(Filter.FilterIn("id", FilterLaws.Numbers(ids)).value, s.roles, RoleRecord,
          (r: RoleRow) => r.id in ids);
      PermissionsInQuery(ids);
      ListedIsSelected(Filter.FilterIn(ROLE_ID, FilterLaws.Numbers(ids)).value, s.permissions, PermissionRecord,
          (p: PermissionRow) => p.roleId.Some? && p.roleId.value in ids);
    }
  }

  lemma FindsAssignment(rows: seq<AssignmentRow>, user: int, role: int)
    ensures FindsFirst(Both(EqNumber(USER_ID, user), EqNumber(ROLE_ID, role)), rows, AssignmentRecord,
                       FindAssignment(rows, user, role))
  {
    AssignmentQuery(user, role);
    ListedIsSelected(Both(EqNumber(USER_ID, user), EqNumber(ROLE_ID, role)).value, rows, AssignmentRecord,
        (a: AssignmentRow) => a.userId == Some(user) && a.roleId == Some(role));
  }

  lemma FindsPermission(rows: seq<PermissionRow>, role: int, table: string)
    requires Filter.NormalizeText(table).Ok?
    ensures FindsFirst(Both(EqNumber(ROLE_ID, role), EqText(TABLE_NAME, table)), rows, PermissionRecord,
                       FindPermission(rows, role, Text.Trim(table)))
  {
    PermissionQuery(role, table);
    var key := Text.Trim(table);
    ListedIsSelected(Both(EqNumber(ROLE_ID, role), EqText(TABLE_NAME, table)).value, rows, PermissionRecord,
        (p: PermissionRow) => p.roleId == Some(role) && p.table == Some(key));
  }

  lemma FindsRole(rows: seq<RoleRow>, name: string)
    requires Filter.NormalizeText(name).Ok?
    ensures FindsFirst(EqText(ROLE_NAME, name), rows, RoleRecord, FindRole(rows, Text.Trim(name)))
  {
    RoleTextQuery(name);
    var key := Text.Trim(name);
    ListedIsSelected(EqText(ROLE_NAME, name).value, rows, RoleRecord, (r: RoleRow) => r.name == Some(key));
  }

  lemma FindsUsers(rows: seq<UserRow>, name: string, email: string)
    ensures Filter.NormalizeText(name).Ok? ==>
              FindsFirst(EqText(USERNAME, name), rows, UserRecord, Identity.FindByName(rows, Text.Trim(name)))
    ensures Filter.NormalizeText(email).Ok? ==>
              FindsFirst(EqText(EMAIL, email), rows, UserRecord, Identity.FindByEmail(rows, Text.Trim(email)))
  {
    if Filter.NormalizeText(name).Ok? {
      UsernameQuery(name);
      var key := Text.Trim(name);
      ListedIsSelected(EqText(USERNAME, name).value, rows, UserRecord, (u: UserRow) => u.username == Some(key));
    }
    if Filter.NormalizeText(email).Ok? {
      EmailQuery(email);
      var key := Text.Trim(email);
      ListedIsSelected(EqText(EMAIL, email).value, rows, UserRecord, (u: UserRow) => u.email == Some(key));
    }
  }

  lemma FindsSubject(rows: seq<UserRow>, provider: string, subject: string)
    requires Filter.NormalizeText(provider) == Ok(provider) && Filter.NormalizeText(subject).Ok?
    ensures FindsFirst(Both(EqText(AUTH_PROVIDER, provider), EqText(EXTERNAL_SUBJECT, subject)), rows, UserRecord,
                       Identity.FindBySubject(rows, provider, Text.Trim(subject)))
  {
    SubjectQuery(provider, subject);
    var where, key := Both(EqText(AUTH_PROVIDER, provider), EqText(EXTERNAL_SUBJECT, subject)), Text.Trim(subject);
    ListedIsSelected(where.value, rows, UserRecord, (u: UserRow) => u.provider == Some(provider)
        && u.subject == Some(key));
  }
}
