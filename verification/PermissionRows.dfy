/**
 `PermissionsManagementService`: permission rows as a map from (role, table) to
 flags, kept by find-then-update-or-create.
 */
module PermissionRows {
  import opened Wrappers
  import Text
  import Filter
  import opened Store
  import opened Permissions

  /** One entry of a batch; a copied row may lack its table name. */
  datatype Item = Item(table: Option<string>, flags: Flags)

  /** Finds the row of (role, table) by the trimmed name and updates it, or creates one. */
  function SetPermission(s: Store, role: int, item: Item): Result<Store> {
    if TablePermissions !in s.present then Err(NotFound)
    else if item.table.None? then Err(Unavailable)
    else
      match Filter.NormalizeText(item.table.value)
      case Err(e) => Err(e)
      case Ok(key) =>
        var i := FindPermission(s.permissions, role, key);
        if i.Some? then
          Ok(s.(permissions := UpdatePermissionById(s.permissions, s.permissions[i.value].id, role, item.table.value,
              item.flags)))
        else
          Ok(InsertPermission(s, role, item.table.value, item.flags))
  }

  /** A sequence of single updates, ended by the first that fails. */
  datatype Batch = Batch(store: Store, applied: nat, error: Option<Error>)

  function BatchSet(s: Store, role: int, items: seq<Item>): Batch {
    if items == [] then Batch(s, 0, None) else
      var b := BatchSet(s, role, items[..|items| - 1]);
      if b.error.Some? then b else
        match SetPermission(b.store, role, items[|items| - 1])
        case Err(e) => b.(error := Some(e))
        case Ok(s') => Batch(s', b.applied + 1, None)
  }

  function RowsOf(rows: seq<PermissionRow>, role: Option<int>): seq<PermissionRow> {
    Select(rows, (p: PermissionRow) => p.roleId == role)
  }

  function ItemsOf(rows: seq<PermissionRow>): (items: seq<Item>)
    ensures |items| == |rows| && forall i :: 0 <= i < |rows| ==> items[i] == Item(rows[i].table, rows[i].flags)
  {
    seq(|rows|, i requires 0 <= i < |rows| => Item(rows[i].table, rows[i].flags))
  }

  function CopyPermissions(s: Store, source: int, target: int): Batch {
    if TablePermissions !in s.present then Batch(s, 0, Some(NotFound))
    else BatchSet(s, target, ItemsOf(RowsOf(s.permissions, Some(source))))
  }

  function DeleteRolePermissions(s: Store, role: int): Result<Store> {
    if TablePermissions !in s.present then Err(NotFound)
    else Ok(s.(permissions := Select(s.permissions, (p: PermissionRow) => p.roleId != Some(role))))
  }

  // ── Row invariants ────────────────────────────────────────────────────────

  /** At most one row per (role, table). */
  predicate UniqueKeys(rows: seq<PermissionRow>) {
    forall i, j :: 0 <= i < j < |rows| ==> rows[i].roleId != rows[j].roleId || rows[i].table != rows[j].table
  }

  /** A name that is looked up as it is stored. */
  predicate Clean(table: Option<string>) {
    table.Some? && Filter.NormalizeText(table.value) == Ok(table.value)
  }

  predicate CleanRows(rows: seq<PermissionRow>) {
    forall i :: 0 <= i < |rows| ==> Clean(rows[i].table)
  }

  predicate CleanItems(items: seq<Item>) {
    forall i :: 0 <= i < |items| ==> Clean(items[i].table)
  }

  predicate RowsOk(s: Store) {
    TablePermissions in s.present && UniquePermissionIds(s) && UniqueKeys(s.permissions) && CleanRows(s.permissions)
  }

  /** The map the rows stand for. */
  function FlagsOf(rows: seq<PermissionRow>, role: int, table: string): Option<Flags> {
    var i := FindPermission(rows, role, table);
    if i.Some? then Some(rows[i.value].flags) else None
  }

  /** The store after one update, by the position of the row. */
  lemma SetByIndex(s: Store, role: int, item: Item)
    requires TablePermissions in s.present && UniquePermissionIds(s)
    requires item.table.Some? && Filter.NormalizeText(item.table.value).Ok?
    ensures SetPermission(s, role, item).Ok?
    ensures var i := FindPermission(s.permissions, role, Filter.NormalizeText(item.table.value).value);
            SetPermission(s, role, item).value ==
            if i.Some? then
              s.(permissions := s.permissions[i.value :=
                  PermissionRow(s.permissions[i.value].id, Some(role), item.table, item.flags)])
            else
              InsertPermission(s, role, item.table.value, item.flags)
  {
    var i := FindPermission(s.permissions, role, Filter.NormalizeText(item.table.value).value);
    if i.Some? {
      UpdateIsLocal(s, i.value, role, item.table.value, item.flags);
    }
  }

  /** When an update, a copy or a delete is refused, and with what. */
  lemma SetIsRefusedIff(s: Store, role: int, item: Item)
    ensures SetPermission(s, role, item) == Err(NotFound) <==> TablePermissions !in s.present
    ensures SetPermission(s, role, item) == Err(Unavailable) <==> TablePermissions in s.present && item.table.None?
    ensures SetPermission(s, role, item) == Err(BadRequest) <==>
              TablePermissions in s.present && item.table.Some? && Filter.NormalizeText(item.table.value).Err?
    ensures SetPermission(s, role, item) != Err(Conflict)
  {
  }

  lemma CopyIsRefused(s: Store, source: int, target: int)
    requires TablePermissions !in s.present
    ensures CopyPermissions(s, source, target) == Batch(s, 0, Some(NotFound))
    ensures DeleteRolePermissions(s, source) == Err(NotFound)
  {
  }

  /** A single update is a map update: it sets its own key and leaves every other one. */
  lemma SetIsMapUpdate(s: Store, role: int, item: Item, r: int, t: string)
    requires TablePermissions in s.present && UniquePermissionIds(s) && Clean(item.table)
    ensures SetPermission(s, role, item).Ok?
    ensures FlagsOf(SetPermission(s, role, item).value.permissions, r, t)
            == if r == role && Some(t) == item.table then Some(item.flags) else FlagsOf(s.permissions, r, t)
  {
    SetByIndex(s, role, item);
    var before, after := s.permissions, SetPermission(s, role, item).value.permissions;
    var i, j := FindPermission(before, r, t), FindPermission(after, r, t);
    if FindPermission(before, role, item.table.value).None? {
      assert forall k :: 0 <= k < |before| ==> after[k] == before[k];
      assert after[|before|].roleId == Some(role) && after[|before|].table == item.table;
      if i.Some? { assert after[i.value] == before[i.value]; }
      if j.Some? && j.value < |before| { assert after[j.value] == before[j.value]; }
    } else {
      SameKeysSameIndex(before, after, r, t);
    }
  }

  lemma SameKeysSameIndex(a: seq<PermissionRow>, b: seq<PermissionRow>, r: int, t: string)
    requires |a| == |b| && forall k :: 0 <= k < |a| ==> a[k].roleId == b[k].roleId && a[k].table == b[k].table
    ensures FindPermission(a, r, t) == FindPermission(b, r, t)
  {
    var i, j := FindPermission(a, r, t), FindPermission(b, r, t);
    if i.Some? { assert b[i.value].roleId == Some(r); }
    if j.Some? { assert a[j.value].roleId == Some(r); }
  }

  /** The store's map after setting (role, t), if setting were a map update. */
  function Updated(rows: seq<PermissionRow>, role: int, t: string, flags: Flags, r: int, u: string): Option<Flags> {
    if r == role && u == t then Some(flags) else FlagsOf(rows, r, u)
  }

  /**
   What makes the rows act as a map for an update under this name, the first row
   found deciding: the name is trimmed; or no row has the trimmed name, and the
   first under the raw one, if any, has the same flags; or the row renamed to the
   raw name is followed by another of its name and flags, and comes before any of
   the raw name but with the same flags.
   */
  predicate ActsAsMap(rows: seq<PermissionRow>, role: int, t: string, flags: Flags) {
    var i := FindPermission(rows, role, Text.Trim(t));
    if Text.Trimmed(t) then true
    else if i.None? then NoneOr(FlagsOf(rows, role, t), flags)
    else FlagsOf(rows[i.value + 1..], role, Text.Trim(t)) == Some(rows[i.value].flags)
         && NoneOr(FlagsOf(rows[..i.value], role, t), flags)
  }

  predicate NoneOr(found: Option<Flags>, flags: Flags) {
    found.Some? ==> found.value == flags
  }

  /** For any stored rows and any name that can be looked up, an update is a map update exactly then. */
  lemma SetIsMapUpdateIff(s: Store, role: int, t: string, flags: Flags)
    requires TablePermissions in s.present && UniquePermissionIds(s) && Filter.NormalizeText(t).Ok?
    ensures var r := SetPermission(s, role, Item(Some(t), flags));
            r.Ok? && (IsMapUpdate(s.permissions, r.value.permissions, role, t, flags)
                      <==> ActsAsMap(s.permissions, role, t, flags))
  {
    var item, rows := Item(Some(t), flags), s.permissions;
    SetByIndex(s, role, item);
    Text.TrimIdentity(t);
    var after := SetPermission(s, role, item).value.permissions;
    if Text.Trimmed(t) {
      forall r, u ensures FlagsOf(after, r, u) == Updated(rows, role, t, flags, r, u) {
        SetIsMapUpdate(s, role, item, r, u);
      }
    } else if FindPermission(rows, role, Text.Trim(t)).Some? {
      RenamedIsMapUpdateIff(rows, FindPermission(rows, role, Text.Trim(t)).value, role, t, flags);
    } else {
      InsertedIsMapUpdateIff(rows, PermissionRow(s.nextPermission, Some(role), Some(t), flags), role, t, flags);
    }
  }

  /** While every key has one row, the renamed name would be lost. */
  lemma SetIsMapUpdateUniqueIff(s: Store, role: int, t: string, flags: Flags)
    requires TablePermissions in s.present && UniquePermissionIds(s) && UniqueKeys(s.permissions)
    requires Filter.NormalizeText(t).Ok?
    ensures var r := SetPermission(s, role, Item(Some(t), flags));
            r.Ok? && (IsMapUpdate(s.permissions, r.value.permissions, role, t, flags)
                      <==> Text.Trimmed(t) || (FlagsOf(s.permissions, role, Text.Trim(t)).None?
                                               && (FlagsOf(s.permissions, role, t) == Some(flags)
                                                   || FlagsOf(s.permissions, role, t).None?)))
  {
    SetIsMapUpdateIff(s, role, t, flags);
    var i := FindPermission(s.permissions, role, Text.Trim(t));
    if i.Some? {
      forall k | i.value < k < |s.permissions|
        ensures s.permissions[k].roleId != Some(role) || s.permissions[k].table != Some(Text.Trim(t))
      {
        assert s.permissions[k].roleId != s.permissions[i.value].roleId
               || s.permissions[k].table != s.permissions[i.value].table;
      }
      assert FlagsOf(s.permissions[i.value + 1..], role, Text.Trim(t)).None?;
    }
  }

  ghost predicate IsMapUpdate(before: seq<PermissionRow>, after: seq<PermissionRow>, role: int, t: string,
      flags: Flags) {
    forall r: int, u: string :: FlagsOf(after, r, u) == Updated(before, role, t, flags, r, u)
  }

  /** In rows one after the other, the first part decides unless it has no such row. */
  lemma FlagsOfConcat(a: seq<PermissionRow>, b: seq<PermissionRow>, r: int, u: string)
    ensures FlagsOf(a + b, r, u) == if FlagsOf(a, r, u).Some? then FlagsOf(a, r, u) else FlagsOf(b, r, u)
  {
    var i, j, k := FindPermission(a, r, u), FindPermission(b, r, u), FindPermission(a + b, r, u);
    assert forall n :: 0 <= n < |a| ==> (a + b)[n] == a[n];
    assert forall n :: 0 <= n < |b| ==> (a + b)[|a| + n] == b[n];
    if i.Some? {
      assert (a + b)[i.value] == a[i.value];
    } else if j.Some? {
      assert (a + b)[|a| + j.value] == b[j.value];
      assert k.Some? && |a| <= k.value <= |a| + j.value;
      assert b[k.value - |a|] == (a + b)[k.value];
    }
  }

  lemma FlagsOfOne(p: PermissionRow, r: int, u: string)
    ensures FlagsOf([p], r, u) == if p.roleId == Some(r) && p.table == Some(u) then Some(p.flags) else None
  {
    assert [] + [p] == [p];
    FlagsOfAppended([], p, r, u);
  }

  lemma FlagsOfThree(front: seq<PermissionRow>, p: PermissionRow, back: seq<PermissionRow>, r: int, u: string)
    ensures FlagsOf(front + ([p] + back), r, u)
            == if FlagsOf(front, r, u).Some? then FlagsOf(front, r, u)
               else if p.roleId == Some(r) && p.table == Some(u) then Some(p.flags) else FlagsOf(back, r, u)
  {
    FlagsOfConcat(front, [p] + back, r, u);
    FlagsOfConcat([p], back, r, u);
    FlagsOfOne(p, r, u);
  }

  lemma RenamedIsMapUpdateIff(rows: seq<PermissionRow>, i: nat, role: int, t: string, flags: Flags)
    requires Text.Trim(t) != t && FindPermission(rows, role, Text.Trim(t)) == Some(i)
    ensures IsMapUpdate(rows, rows[i := PermissionRow(rows[i].id, Some(role), Some(t), flags)], role, t, flags)
            <==> FlagsOf(rows[i + 1..], role, Text.Trim(t)) == Some(rows[i].flags)
                 && NoneOr(FlagsOf(rows[..i], role, t), flags)
  {
    var key, row := Text.Trim(t), PermissionRow(rows[i].id, Some(role), Some(t), flags);
    var front, back, after := rows[..i], rows[i + 1..], rows[i := row];
    assert rows == front + ([rows[i]] + back) && after == front + ([row] + back);
    assert FlagsOf(front, role, key).None?;
    forall r, u ensures FlagsOf(rows, r, u) == FlagsOf(front + ([rows[i]] + back), r, u)
                        && FlagsOf(after, r, u) == FlagsOf(front + ([row] + back), r, u)
                        && ((r == role && (u == key || u == t)) || FlagsOf(after, r, u) == FlagsOf(rows, r, u))
    {
      FlagsOfThree(front, rows[i], back, r, u);
      FlagsOfThree(front, row, back, r, u);
    }
    FlagsOfThree(front, rows[i], back, role, key);
    FlagsOfThree(front, row, back, role, key);
    FlagsOfThree(front, row, back, role, t);
    if IsMapUpdate(rows, after, role, t, flags) {
      assert FlagsOf(after, role, key) == Updated(rows, role, t, flags, role, key);
      assert FlagsOf(after, role, t) == Updated(rows, role, t, flags, role, t);
    }
  }

  lemma FlagsOfAppended(rows: seq<PermissionRow>, p: PermissionRow, r: int, u: string)
    ensures FlagsOf(rows + [p], r, u)
            == if FlagsOf(rows, r, u).Some? then FlagsOf(rows, r, u)
               else if p.roleId == Some(r) && p.table == Some(u) then Some(p.flags) else None
  {
    var all := rows + [p];
    var i, j := FindPermission(rows, r, u), FindPermission(all, r, u);
    assert forall k :: 0 <= k < |rows| ==> all[k] == rows[k];
    assert all[|rows|] == p;
    if i.Some? {
      assert all[i.value] == rows[i.value];
      assert j.Some? && j.value <= i.value;
    }
  }

  lemma InsertedIsMapUpdateIff(rows: seq<PermissionRow>, p: PermissionRow, role: int, t: string, flags: Flags)
    requires p.roleId == Some(role) && p.table == Some(t) && p.flags == flags
    ensures IsMapUpdate(rows, rows + [p], role, t, flags)
            <==> FlagsOf(rows, role, t) == Some(flags) || FlagsOf(rows, role, t).None?
  {
    forall r, u ensures FlagsOf(rows + [p], r, u) == Updated(rows, role, t, flags, r, u) || (r == role && u == t) {
      FlagsOfAppended(rows, p, r, u);
    }
    FlagsOfAppended(rows, p, role, t);
    if IsMapUpdate(rows, rows + [p], role, t, flags) {
      assert FlagsOf(rows + [p], role, t) == Updated(rows, role, t, flags, role, t);
    }
  }

  /**
   Exactly when an update may create a second row for a key: the name carries
   outer white space, so the lookup misses the row it was stored under before.
   */
  lemma SetKeepsUniqueKeysIff(s: Store, role: int, item: Item)
    requires TablePermissions in s.present && UniquePermissionIds(s) && UniqueKeys(s.permissions)
    requires item.table.Some? && Filter.NormalizeText(item.table.value).Ok?
    ensures SetPermission(s, role, item).Ok?
    ensures UniqueKeys(SetPermission(s, role, item).value.permissions) <==>
              Text.Trimmed(item.table.value) || FindPermission(s.permissions, role, item.table.value).None?
  {
    SetByIndex(s, role, item);
    var t, rows, after := item.table.value, s.permissions, SetPermission(s, role, item).value.permissions;
    Text.TrimIdentity(t);
    var i, j := FindPermission(rows, role, Text.Trim(t)), FindPermission(rows, role, t);
    var at := if i.Some? then i.value else |rows|;
    assert after[at].roleId == Some(role) && after[at].table == Some(t);
    assert forall k :: 0 <= k < |rows| && k != at ==> after[k] == rows[k];
    if j.Some? && !Text.Trimmed(t) {
      assert j.value != at && after[j.value] == rows[j.value];
    } else {
      forall k | 0 <= k < |after| && k != at ensures after[k].roleId != Some(role) || after[k].table != Some(t) {
        if Text.Trimmed(t) && i.Some? { assert rows[k].roleId != rows[at].roleId || rows[k].table != rows[at].table; }
      }
    }
  }

  /** Rows of other roles are unchanged, in content and order. */
  lemma SetKeepsOtherRoles(s: Store, role: int, item: Item, other: Option<int>)
    requires UniquePermissionIds(s) && SetPermission(s, role, item).Ok? && other != Some(role)
    ensures RowsOf(SetPermission(s, role, item).value.permissions, other) == RowsOf(s.permissions, other)
  {
    SetByIndex(s, role, item);
    var rows, after := s.permissions, SetPermission(s, role, item).value.permissions;
    var i := FindPermission(rows, role, Filter.NormalizeText(item.table.value).value);
    if i.Some? {
      RowsOfUpdate(rows, i.value, after[i.value], other);
    } else {
      RowsOfAppend(rows, [after[|rows|]], other);
    }
  }

  lemma RowsOfAppend(a: seq<PermissionRow>, b: seq<PermissionRow>, role: Option<int>)
    ensures RowsOf(a + b, role) == RowsOf(a, role) + RowsOf(b, role)
  {
    SelectAppend(a, b, (p: PermissionRow) => p.roleId == role);
  }

  lemma RowsOfUpdate(rows: seq<PermissionRow>, i: nat, row: PermissionRow, role: Option<int>)
    requires i < |rows| && rows[i].roleId != role && row.roleId != role
    ensures RowsOf(rows[i := row], role) == RowsOf(rows, role)
  {
    var front, back := rows[..i], rows[i + 1..];
    assert rows == front + ([rows[i]] + back) && rows[i := row] == front + ([row] + back);
    RowsOfAppend(front, [rows[i]] + back, role);
    RowsOfAppend(front, [row] + back, role);
    RowsOfAppend([rows[i]], back, role);
    RowsOfAppend([row], back, role);
  }

  lemma SetKeepsRowsOk(s: Store, role: int, item: Item)
    requires RowsOk(s) && Clean(item.table)
    ensures SetPermission(s, role, item).Ok? && RowsOk(SetPermission(s, role, item).value)
  {
    Text.TrimIdentity(item.table.value);
    SetKeepsUniqueKeysIff(s, role, item);
    SetByIndex(s, role, item);
  }

  /** Setting what is already set changes nothing. */
  lemma SetAgainIsNoop(s: Store, role: int, item: Item)
    requires TablePermissions in s.present && UniquePermissionIds(s) && Clean(item.table)
    requires FlagsOf(s.permissions, role, item.table.value) == Some(item.flags)
    ensures SetPermission(s, role, item) == Ok(s)
  {
    SetByIndex(s, role, item);
    var i := FindPermission(s.permissions, role, item.table.value).value;
    assert s.permissions[i] == PermissionRow(s.permissions[i].id, Some(role), item.table, item.flags);
    assert s.permissions[i := s.permissions[i]] == s.permissions;
  }

  // ── Batches and copies ────────────────────────────────────────────────────

  /** The last entry of a batch for a table. */
  function LastFlags(items: seq<Item>, t: string): Option<Flags> {
    if items == [] then None
    else if items[|items| - 1].table == Some(t) then Some(items[|items| - 1].flags)
    else LastFlags(items[..|items| - 1], t)
  }

  lemma {:induction false} LastFlagsFound(items: seq<Item>, t: string)
    requires LastFlags(items, t).Some?
    ensures exists i :: 0 <= i < |items| && items[i].table == Some(t)
  {
    if items[|items| - 1].table != Some(t) {
      var front := items[..|items| - 1];
      LastFlagsFound(front, t);
      var i :| 0 <= i < |front| && front[i].table == Some(t);
      assert items[i].table == Some(t);
    }
  }

  /** A store that differs in permission rows only. */
  predicate OnlyPermissions(s: Store, t: Store) {
    t == s.(permissions := t.permissions, nextPermission := t.nextPermission)
  }

  /** A batch on trimmed names applies every entry; the last one per table wins, nothing else changes. */
  lemma {:induction false} BatchIsFold(s: Store, role: int, items: seq<Item>, r: int, t: string)
    requires TablePermissions in s.present && UniquePermissionIds(s) && CleanItems(items)
    ensures var b := BatchSet(s, role, items);
            b.error == None && b.applied == |items| && UniquePermissionIds(b.store) && OnlyPermissions(s, b.store)
    ensures FlagsOf(BatchSet(s, role, items).store.permissions, r, t)
            == if r == role && LastFlags(items, t).Some? then LastFlags(items, t) else FlagsOf(s.permissions, r, t)
  {
    if items != [] {
      var front, last := items[..|items| - 1], items[|items| - 1];
      assert Clean(last.table);
      BatchIsFold(s, role, front, r, t);
      var b := BatchSet(s, role, front);
      SetIsMapUpdate(b.store, role, last, r, t);
      SetByIndex(b.store, role, last);
    }
  }

  lemma {:induction false} BatchKeepsRowsOk(s: Store, role: int, items: seq<Item>)
    requires RowsOk(s) && CleanItems(items)
    ensures RowsOk(BatchSet(s, role, items).store)
  {
    if items != [] {
      var front, last := items[..|items| - 1], items[|items| - 1];
      assert Clean(last.table);
      BatchKeepsRowsOk(s, role, front);
      BatchIsFold(s, role, front, role, "");
      SetKeepsRowsOk(BatchSet(s, role, front).store, role, last);
    }
  }

  lemma SetKeepsIds(s: Store, role: int, item: Item)
    requires UniquePermissionIds(s) && SetPermission(s, role, item).Ok?
    ensures UniquePermissionIds(SetPermission(s, role, item).value)
            && OnlyPermissions(s, SetPermission(s, role, item).value)
  {
    SetByIndex(s, role, item);
  }

  /** Whatever the names, and whether or not it gets through, a batch leaves the rows of every other role. */
  lemma {:induction false} BatchKeepsOtherRoles(s: Store, role: int, items: seq<Item>, other: Option<int>)
    requires UniquePermissionIds(s) && other != Some(role)
    ensures RowsOf(BatchSet(s, role, items).store.permissions, other) == RowsOf(s.permissions, other)
    ensures UniquePermissionIds(BatchSet(s, role, items).store) && OnlyPermissions(s, BatchSet(s, role, items).store)
  {
    if items != [] {
      var b, last := BatchSet(s, role, items[..|items| - 1]), items[|items| - 1];
      BatchKeepsOtherRoles(s, role, items[..|items| - 1], other);
      if SetPermission(b.store, role, last).Ok? {
        SetKeepsOtherRoles(b.store, role, last, other);
        SetKeepsIds(b.store, role, last);
      }
    }
  }

  /** The entries before the first whose name cannot be looked up; a batch stops there. */
  function Usable(items: seq<Item>): (u: seq<Item>)
    ensures u <= items && forall i :: 0 <= i < |u| ==> Quotable(u[i].table)
    ensures |u| < |items| ==> !Quotable(items[|u|].table)
  {
    if items == [] then [] else
      var front := Usable(items[..|items| - 1]);
      if |front| == |items| - 1 && Quotable(items[|items| - 1].table) then items else front
  }

  predicate Quotable(table: Option<string>) {
    table.Some? && Filter.NormalizeText(table.value).Ok?
  }

  lemma UsableOfAll(items: seq<Item>)
    requires items != []
    ensures var front, last := items[..|items| - 1], items[|items| - 1];
            if Usable(front) == front && Quotable(last.table) then Usable(items) == items
            else Usable(items) == Usable(front) && |Usable(items)| < |items|
  {
    assert Usable(items[..|items| - 1]) <= items[..|items| - 1];
  }

  lemma SetFailsIff(s: Store, role: int, item: Item)
    requires TablePermissions in s.present && UniquePermissionIds(s)
    ensures SetPermission(s, role, item).Ok? <==> Quotable(item.table)
  {
  }

  /** A batch that meets an entry it cannot use stops there. */
  lemma {:induction false} BatchErrsIff(s: Store, role: int, items: seq<Item>)
    requires TablePermissions in s.present && UniquePermissionIds(s)
    ensures UniquePermissionIds(BatchSet(s, role, items).store) && OnlyPermissions(s, BatchSet(s, role, items).store)
    ensures BatchSet(s, role, items).error == None <==> Usable(items) == items
    ensures BatchSet(s, role, items).applied == |Usable(items)|
  {
    if items != [] {
      var front, last := items[..|items| - 1], items[|items| - 1];
      BatchErrsIff(s, role, front);
      UsableOfAll(items);
      var b := BatchSet(s, role, front);
      SetFailsIff(b.store, role, last);
      if SetPermission(b.store, role, last).Ok? {
        SetKeepsIds(b.store, role, last);
      }
    }
  }

  lemma UsableAgain(items: seq<Item>)
    ensures Usable(Usable(items)) == Usable(items)
  {
    var u := Usable(items);
    assert forall i :: 0 <= i < |u| ==> Quotable(u[i].table);
    assert Usable(u) <= u;
  }

  lemma {:induction false} BatchStoreIsUsable(s: Store, role: int, items: seq<Item>)
    requires TablePermissions in s.present && UniquePermissionIds(s)
    ensures BatchSet(s, role, items).store == BatchSet(s, role, Usable(items)).store
  {
    if items != [] && Usable(items) != items {
      var front, last := items[..|items| - 1], items[|items| - 1];
      BatchStoreIsUsable(s, role, front);
      UsableOfAll(items);
      BatchErrsIff(s, role, front);
      SetFailsIff(BatchSet(s, role, front).store, role, last);
    }
  }

  /** A batch applies its usable entries, and fails exactly if there are others. */
  lemma BatchAppliesUsable(s: Store, role: int, items: seq<Item>)
    requires TablePermissions in s.present && UniquePermissionIds(s)
    ensures var b := BatchSet(s, role, items);
            && b.store == BatchSet(s, role, Usable(items)).store && b.applied == |Usable(items)|
            && (b.error == None <==> |Usable(items)| == |items|) && BatchSet(s, role, Usable(items)).error == None
    ensures UniquePermissionIds(BatchSet(s, role, items).store) && OnlyPermissions(s, BatchSet(s, role, items).store)
  {
    BatchErrsIff(s, role, items);
    BatchStoreIsUsable(s, role, items);
    UsableAgain(items);
    BatchErrsIff(s, role, Usable(items));
    assert |Usable(items)| == |items| ==> Usable(items) == items;
  }

  /** The rows of a role, in order, decide what is found for it. */
  lemma {:induction false} FlagsOfRows(rows: seq<PermissionRow>, r: int, t: string)
    ensures FlagsOf(rows, r, t) == FlagsOf(RowsOf(rows, Some(r)), r, t)
  {
    if rows != [] {
      var front, last := rows[..|rows| - 1], rows[|rows| - 1];
      assert rows == front + [last];
      FlagsOfRows(front, r, t);
      RowsOfAppend(front, [last], Some(r));
      FlagsOfAppended(front, last, r, t);
      if last.roleId == Some(r) {
        assert RowsOf([last], Some(r)) == [last];
        FlagsOfAppended(RowsOf(front, Some(r)), last, r, t);
      } else {
        assert RowsOf([last], Some(r)) == [];
        assert RowsOf(front, Some(r)) + [] == RowsOf(front, Some(r));
      }
    }
  }

  /** With one row per table, the last entry for a table is the only one. */
  lemma {:induction false} LastFlagsOfRows(rows: seq<PermissionRow>, r: int, t: string)
    requires UniqueKeys(rows) && forall p :: p in rows ==> p.roleId == Some(r)
    ensures LastFlags(ItemsOf(rows), t) == FlagsOf(rows, r, t)
  {
    if rows != [] {
      var front, last := rows[..|rows| - 1], rows[|rows| - 1];
      assert rows == front + [last] && ItemsOf(rows)[..|rows| - 1] == ItemsOf(front);
      LastFlagsOfRows(front, r, t);
      FlagsOfAppended(front, last, r, t);
      assert forall k :: 0 <= k < |front| ==> rows[k].table != last.table;
    }
  }

  function SourceItems(s: Store, source: int): seq<Item> {
    ItemsOf(RowsOf(s.permissions, Some(source)))
  }

  predicate AllTrimmed(items: seq<Item>) {
    forall i :: 0 <= i < |items| ==> items[i].table.Some? && Text.Trimmed(items[i].table.value)
  }

  /**
   A copy whose usable source names are trimmed gives the target the last flags
   of each of those names, keeps the target's other tables, and leaves the rows
   of every other role as they are. It fails exactly at a source row without a
   usable name, and has then copied the rows before.
   */
  lemma CopyLaw(s: Store, source: int, target: int, r: int, t: string)
    requires TablePermissions in s.present && UniquePermissionIds(s)
    ensures var b := CopyPermissions(s, source, target);
            && b.applied == |Usable(SourceItems(s, source))| && UniquePermissionIds(b.store)
            && OnlyPermissions(s, b.store)
            && (b.error == None <==> |Usable(SourceItems(s, source))| == |SourceItems(s, source)|)
    ensures r != target ==>
              RowsOf(CopyPermissions(s, source, target).store.permissions, Some(r)) == RowsOf(s.permissions, Some(r))
    ensures AllTrimmed(Usable(SourceItems(s, source))) ==>
              FlagsOf(CopyPermissions(s, source, target).store.permissions, r, t)
              == if r == target && LastFlags(Usable(SourceItems(s, source)), t).Some?
                 then LastFlags(Usable(SourceItems(s, source)), t)
                 else FlagsOf(s.permissions, r, t)
  {
    var items := SourceItems(s, source);
    BatchAppliesUsable(s, target, items);
    if AllTrimmed(Usable(items)) {
      TrimmedAreClean(Usable(items));
      BatchIsFold(s, target, Usable(items), r, t);
    }
    if r != target {
      BatchKeepsOtherRoles(s, target, items, Some(r));
    }
  }

  lemma TrimmedAreClean(items: seq<Item>)
    requires AllTrimmed(items) && forall i :: 0 <= i < |items| ==> Quotable(items[i].table)
    ensures CleanItems(items)
  {
    forall i | 0 <= i < |items| ensures Clean(items[i].table) {
      Text.TrimIdentity(items[i].table.value);
    }
  }

  /** If moreover the source has one row per table, the target ends up equal to it on its tables. */
  lemma CopyMakesEqual(s: Store, source: int, target: int, t: string)
    requires TablePermissions in s.present && UniquePermissionIds(s)
    requires UniqueKeys(RowsOf(s.permissions, Some(source))) && CleanItems(SourceItems(s, source))
    ensures CopyPermissions(s, source, target).error == None
    ensures FlagsOf(CopyPermissions(s, source, target).store.permissions, target, t)
            == if FlagsOf(s.permissions, source, t).Some? then FlagsOf(s.permissions, source, t)
               else FlagsOf(s.permissions, target, t)
  {
    BatchIsFold(s, target, SourceItems(s, source), target, t);
    LastFlagsOfRows(RowsOf(s.permissions, Some(source)), source, t);
    FlagsOfRows(s.permissions, source, t);
  }

  /** Deleting a role's permissions removes all its rows, and keeps every other row in order. */
  lemma DeleteRemovesOneRole(s: Store, role: int, other: Option<int>)
    requires TablePermissions in s.present
    ensures var r := DeleteRolePermissions(s, role);
            r.Ok? && OnlyPermissions(s, r.value)
            && RowsOf(r.value.permissions, other) == if other == Some(role) then [] else RowsOf(s.permissions, other)
  {
    var none := (p: PermissionRow) => false;
    var kept, mine := (p: PermissionRow) => p.roleId != Some(role), (p: PermissionRow) => p.roleId == other;
    if other == Some(role) {
      SelectTwice(s.permissions, kept, mine, none);
      SelectNone(s.permissions, none);
    } else {
      SelectTwice(s.permissions, kept, mine, mine);
    }
  }

  /** Seen as a map, a delete empties one role and keeps every other key. */
  lemma DeleteIsMapDelete(s: Store, role: int, r: int, t: string)
    requires TablePermissions in s.present
    ensures FlagsOf(DeleteRolePermissions(s, role).value.permissions, r, t)
            == if r == role then None else FlagsOf(s.permissions, r, t)
  {
    DeleteRemovesOneRole(s, role, Some(r));
    FlagsOfRows(DeleteRolePermissions(s, role).value.permissions, r, t);
    FlagsOfRows(s.permissions, r, t);
  }

  /** A delete keeps whatever held of the rows before. */
  lemma DeleteKeepsRowsOk(s: Store, role: int)
    requires RowsOk(s)
    ensures DeleteRolePermissions(s, role).Ok? && RowsOk(DeleteRolePermissions(s, role).value)
  {
    var kept := (p: PermissionRow) => p.roleId != Some(role);
    var rows, after := s.permissions, DeleteRolePermissions(s, role).value.permissions;
    SelectKeepsPairs(rows, kept, (a: PermissionRow, b: PermissionRow) => a.id != b.id);
    SelectKeepsPairs(rows, kept, (a: PermissionRow, b: PermissionRow) => a.roleId != b.roleId || a.table != b.table);
    assert forall i :: 0 <= i < |after| ==> after[i] in rows;
  }

  // ── The service ───────────────────────────────────────────────────────────

  class PermissionsManagementService {
    const permissions: PermissionsService

    constructor (permissions: PermissionsService)
      ensures this.permissions == permissions
    {
      this.permissions := permissions;
    }

    /** A successful update clears the whole cache; a failed one changes nothing. */
    method SetTablePermissions(role: int, item: Item) returns (error: Option<Error>)
      modifies permissions.db`store, permissions`cache
      ensures var r := SetPermission(old(permissions.db.store), role, item);
              if r.Ok? then error == None && permissions.db.store == r.value && permissions.cache == []
              else error == Some(r.error) && permissions.db.store == old(permissions.db.store)
                   && permissions.cache == old(permissions.cache)
    {
      var s := permissions.db.store;
      if TablePermissions !in s.present {
        return Some(NotFound);
      }
      if item.table.None? {
        return Some(Unavailable);
      }
      var name := item.table.value;
      match Filter.NormalizeText(name) {
        case Err(e) => return Some(e);
        case Ok(key) =>
          var existing := FindPermission(s.permissions, role, key);
          if existing.Some? {
            var id := s.permissions[existing.value].id;
            permissions.db.store := s.(permissions :=
                UpdatePermissionById(s.permissions, id, role, name, item.flags));
          } else {
            permissions.db.store := InsertPermission(s, role, name, item.flags);
          }
          permissions.ClearCache(None);
          error := None;
      }
    }

    method BatchSetPermissions(role: int, items: seq<Item>) returns (count: nat, error: Option<Error>)
      modifies permissions.db`store, permissions`cache
      ensures BatchSet(old(permissions.db.store), role, items) == Batch(permissions.db.store, count, error)
      ensures permissions.cache == if count > 0 then [] else old(permissions.cache)
    {
      count, error := 0, None;
      for i := 0 to |items|
        invariant error == None
        invariant BatchSet(old(permissions.db.store), role, items[..i]) == Batch(permissions.db.store, count, None)
        invariant permissions.cache == if count > 0 then [] else old(permissions.cache)
      {
        BatchStep(old(permissions.db.store), role, items, i);
        error := SetTablePermissions(role, items[i]);
        if error.Some? {
          return;
        }
        count := count + 1;
      }
      assert items[..|items|] == items;
    }

    method CopyPermissionsTo(source: int, target: int) returns (count: nat, error: Option<Error>)
      requires permissions.db.cap >= 1000
      modifies permissions.db`store, permissions`cache, permissions.db.limiter
      ensures CopyPermissions(old(permissions.db.store), source, target) == Batch(permissions.db.store, count, error)
      ensures permissions.cache == if count > 0 then [] else old(permissions.cache)
    {
      if TablePermissions !in permissions.db.store.present {
        return 0, Some(NotFound);
      }
      var rows := permissions.db.ListAll(RowsOf(permissions.db.store.permissions, Some(source)));
      count, error := BatchSetPermissions(target, ItemsOf(rows));
    }

    /** Reads the role's rows, deletes each by its id, then clears the cache. */
    method DeletePermissionsOf(role: int) returns (error: Option<Error>)
      requires permissions.db.cap >= 1000 && UniquePermissionIds(permissions.db.store)
      modifies permissions.db`store, permissions`cache, permissions.db.limiter
      ensures var r := DeleteRolePermissions(old(permissions.db.store), role);
              if r.Ok? then error == None && permissions.db.store == r.value && permissions.cache == []
              else error == Some(r.error) && permissions.db.store == old(permissions.db.store)
                   && permissions.cache == old(permissions.cache)
    {
      var s := permissions.db.store;
      if TablePermissions !in s.present {
        return Some(NotFound);
      }
      var rows := permissions.db.ListAll(RowsOf(s.permissions, Some(role)));
      DeleteNone(s.permissions);
      for i := 0 to |rows|
        invariant permissions.db.store == s.(permissions := WithoutIds(s.permissions, rows[..i]))
      {
        DeleteOne(s.permissions, rows, i);
        permissions.db.store :=
          permissions.db.store.(permissions := DeletePermissionById(permissions.db.store.permissions, rows[i].id));
      }
      assert rows[..|rows|] == rows;
      DeletedAll(s, role);
      permissions.ClearCache(None);
      error := None;
    }
  }

  lemma BatchStep(s: Store, role: int, items: seq<Item>, i: nat)
    requires i < |items| && BatchSet(s, role, items[..i]).error == None
    ensures var b := BatchSet(s, role, items[..i]);
            var r := SetPermission(b.store, role, items[i]);
            if r.Ok? then BatchSet(s, role, items[..i + 1]) == Batch(r.value, b.applied + 1, None)
            else BatchSet(s, role, items) == b.(error := Some(r.error))
  {
    assert items[..i + 1][..i] == items[..i];
    if BatchSet(s, role, items[..i + 1]).error.Some? {
      BatchStopsAtError(s, role, items, i + 1);
    }
  }

  lemma {:induction false} BatchStopsAtError(s: Store, role: int, items: seq<Item>, i: nat)
    requires i <= |items| && BatchSet(s, role, items[..i]).error.Some?
    ensures BatchSet(s, role, items) == BatchSet(s, role, items[..i])
  {
    if i < |items| {
      var front := items[..|items| - 1];
      assert front[..i] == items[..i];
      BatchStopsAtError(s, role, front, i);
    } else {
      assert items[..i] == items;
    }
  }

  /** The rows whose id is none of the ids of `gone`. */
  function WithoutIds(rows: seq<PermissionRow>, gone: seq<PermissionRow>): seq<PermissionRow> {
    Select(rows, (p: PermissionRow) => forall g :: g in gone ==> p.id != g.id)
  }

  lemma {:induction false} SelectSame<T(!new)>(s: seq<T>, p: T -> bool, q: T -> bool)
    requires forall x :: x in s ==> p(x) == q(x)
    ensures Select(s, p) == Select(s, q)
  {
    if s != [] {
      SelectSame(s[1..], p, q);
    }
  }

  lemma {:induction false} SelectTwice<T(!new)>(s: seq<T>, p: T -> bool, q: T -> bool, both: T -> bool)
    requires forall x :: x in s ==> (both(x) <==> p(x) && q(x))
    ensures Select(Select(s, p), q) == Select(s, both)
  {
    if s != [] {
      SelectTwice(s[1..], p, q, both);
      SelectAppend(if p(s[0]) then [s[0]] else [], Select(s[1..], p), q);
    }
  }

  lemma DeleteNone(rows: seq<PermissionRow>)
    ensures WithoutIds(rows, []) == rows
  {
    var none: seq<PermissionRow> := [];
    SelectAll(rows, (p: PermissionRow) => forall g :: g in none ==> p.id != g.id);
  }

  lemma DeleteOne(rows: seq<PermissionRow>, gone: seq<PermissionRow>, i: nat)
    requires i < |gone|
    ensures DeletePermissionById(WithoutIds(rows, gone[..i]), gone[i].id) == WithoutIds(rows, gone[..i + 1])
  {
    var before, id, after := gone[..i], gone[i].id, gone[..i + 1];
    assert forall g :: g in after <==> g in before || g == gone[i];
    SelectTwice(rows, (p: PermissionRow) => forall g :: g in before ==> p.id != g.id,
                (p: PermissionRow) => p.id != id,
                (p: PermissionRow) => forall g :: g in after ==> p.id != g.id);
  }

  lemma DeletedAll(s: Store, role: int)
    requires UniquePermissionIds(s)
    ensures WithoutIds(s.permissions, RowsOf(s.permissions, Some(role)))
            == Select(s.permissions, (p: PermissionRow) => p.roleId != Some(role))
  {
    var rows := RowsOf(s.permissions, Some(role));
    forall p | p in s.permissions ensures (forall g :: g in rows ==> p.id != g.id) <==> p.roleId != Some(role) {
      if p.roleId == Some(role) { assert p in rows; }
      forall g | g in rows && p.id == g.id ensures p == g {
        var i :| 0 <= i < |s.permissions| && s.permissions[i] == p;
        var j :| 0 <= j < |s.permissions| && s.permissions[j] == g;
        assert i == j;
      }
    }
    SelectSame(s.permissions, (p: PermissionRow) => forall g :: g in rows ==> p.id != g.id,
               (p: PermissionRow) => p.roleId != Some(role));
  }
}
