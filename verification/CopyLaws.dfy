/** When copying permissions twice is copying once. */
module CopyLaws {
  import opened Wrappers
  import Text
  import Filter
  import opened Store
  import opened Permissions
  import opened PermissionRows

  // ── Untrimmed names pile up ───────────────────────────────────────────────

  predicate IsUntrimmed(table: Option<string>) {
    table.Some? && !Text.Trimmed(table.value)
  }

  /** The rows of a role whose name carries outer white space. */
  function UntrimmedRows(rows: seq<PermissionRow>, role: int): nat {
    if rows == [] then 0 else
      UntrimmedRows(rows[..|rows| - 1], role) + Weight(rows[|rows| - 1], role)
  }

  function Weight(p: PermissionRow, role: int): nat {
    if p.roleId == Some(role) && IsUntrimmed(p.table) then 1 else 0
  }

  function UntrimmedItems(items: seq<Item>): nat {
    if items == [] then 0 else
      UntrimmedItems(items[..|items| - 1]) + if IsUntrimmed(items[|items| - 1].table) then 1 else 0
  }

  lemma {:induction false} UntrimmedAfterUpdate(rows: seq<PermissionRow>, i: nat, p: PermissionRow, role: int)
    requires i < |rows|
    ensures UntrimmedRows(rows[i := p], role) + Weight(rows[i], role) == UntrimmedRows(rows, role) + Weight(p, role)
  {
    var front := rows[..|rows| - 1];
    if i == |rows| - 1 {
      assert rows[i := p][..|rows| - 1] == front;
    } else {
      assert rows[i := p][..|rows| - 1] == front[i := p];
      UntrimmedAfterUpdate(front, i, p, role);
    }
  }

  lemma UntrimmedAfterAppend(rows: seq<PermissionRow>, p: PermissionRow, role: int)
    ensures UntrimmedRows(rows + [p], role) == UntrimmedRows(rows, role) + Weight(p, role)
  {
    assert (rows + [p])[..|rows|] == rows;
  }

  /** An update with an untrimmed name always leaves one more untrimmed row, renamed or new. */
  lemma SetAddsUntrimmed(s: Store, role: int, item: Item)
    requires TablePermissions in s.present && UniquePermissionIds(s) && Quotable(item.table)
    ensures SetPermission(s, role, item).Ok?
    ensures UntrimmedRows(SetPermission(s, role, item).value.permissions, role)
            == UntrimmedRows(s.permissions, role) + if IsUntrimmed(item.table) then 1 else 0
  {
    SetByIndex(s, role, item);
    Text.TrimIsTrimmed(item.table.value);
    var i := FindPermission(s.permissions, role, Filter.NormalizeText(item.table.value).value);
    if i.Some? {
      var row := PermissionRow(s.permissions[i.value].id, Some(role), item.table, item.flags);
      UntrimmedAfterUpdate(s.permissions, i.value, row, role);
    } else {
      UntrimmedAfterAppend(s.permissions, PermissionRow(s.nextPermission, Some(role), item.table, item.flags), role);
    }
  }

  lemma {:induction false} BatchAddsUntrimmed(s: Store, role: int, items: seq<Item>)
    requires TablePermissions in s.present && UniquePermissionIds(s)
    requires forall i :: 0 <= i < |items| ==> Quotable(items[i].table)
    ensures UntrimmedRows(BatchSet(s, role, items).store.permissions, role)
            == UntrimmedRows(s.permissions, role) + UntrimmedItems(items)
    ensures BatchSet(s, role, items).error == None
  {
    if items != [] {
      var front, last := items[..|items| - 1], items[|items| - 1];
      BatchAddsUntrimmed(s, role, front);
      BatchAppliesUsable(s, role, front);
      assert Quotable(last.table);
      SetAddsUntrimmed(BatchSet(s, role, front).store, role, last);
    }
  }

  lemma {:induction false} SomeUntrimmed(items: seq<Item>, i: nat)
    requires i < |items| && IsUntrimmed(items[i].table)
    ensures UntrimmedItems(items) > 0
  {
    if i < |items| - 1 {
      SomeUntrimmed(items[..|items| - 1], i);
    }
  }

  // ── Names that a batch keeps ──────────────────────────────────────────────

  /** A usable name stays usable, an untrimmed one stays as it is. */
  predicate NameKept(p: PermissionRow, q: PermissionRow) {
    && q.roleId == p.roleId && (Quotable(p.table) ==> Quotable(q.table))
    && (IsUntrimmed(p.table) ==> q.table == p.table)
  }

  predicate NamesKept(a: seq<PermissionRow>, b: seq<PermissionRow>) {
    |a| <= |b| && forall k :: 0 <= k < |a| ==> NameKept(a[k], b[k])
  }

  lemma SetKeepsNames(s: Store, role: int, item: Item)
    requires TablePermissions in s.present && UniquePermissionIds(s) && Quotable(item.table)
    ensures SetPermission(s, role, item).Ok?
    ensures NamesKept(s.permissions, SetPermission(s, role, item).value.permissions)
  {
    SetByIndex(s, role, item);
    Text.TrimIsTrimmed(item.table.value);
  }

  lemma {:induction false} BatchKeepsNames(s: Store, role: int, items: seq<Item>)
    requires TablePermissions in s.present && UniquePermissionIds(s)
    requires forall i :: 0 <= i < |items| ==> Quotable(items[i].table)
    ensures NamesKept(s.permissions, BatchSet(s, role, items).store.permissions)
  {
    if items != [] {
      var front, last := items[..|items| - 1], items[|items| - 1];
      BatchKeepsNames(s, role, front);
      BatchAppliesUsable(s, role, front);
      BatchAddsUntrimmed(s, role, front);
      assert Quotable(last.table);
      var mid := BatchSet(s, role, front).store;
      SetKeepsNames(mid, role, last);
      NamesKeptTransitive(s.permissions, mid.permissions, BatchSet(s, role, items).store.permissions);
    }
  }

  lemma NamesKeptTransitive(a: seq<PermissionRow>, b: seq<PermissionRow>, c: seq<PermissionRow>)
    requires NamesKept(a, b) && NamesKept(b, c)
    ensures NamesKept(a, c)
  {
    forall k | 0 <= k < |a| ensures NameKept(a[k], c[k]) {
      assert NameKept(a[k], b[k]) && NameKept(b[k], c[k]);
    }
  }

  ghost predicate Related(a: seq<PermissionRow>, b: seq<PermissionRow>, rel: (PermissionRow, PermissionRow) -> bool) {
    |a| <= |b| && forall k :: 0 <= k < |a| ==> a[k].roleId == b[k].roleId && rel(a[k], b[k])
  }

  lemma RowsOfOne(p: PermissionRow, role: Option<int>)
    ensures RowsOf([p], role) == if p.roleId == role then [p] else []
  {
    assert [p][1..] == [];
  }

  lemma RowsOfSnoc(rows: seq<PermissionRow>, role: Option<int>)
    requires rows != []
    ensures RowsOf(rows, role)
            == RowsOf(rows[..|rows| - 1], role) + if rows[|rows| - 1].roleId == role then [rows[|rows| - 1]] else []
  {
    assert rows == rows[..|rows| - 1] + [rows[|rows| - 1]];
    RowsOfAppend(rows[..|rows| - 1], [rows[|rows| - 1]], role);
    RowsOfOne(rows[|rows| - 1], role);
  }

  lemma RelatedAppend(a: seq<PermissionRow>, b: seq<PermissionRow>, x: PermissionRow, y: PermissionRow,
                      rel: (PermissionRow, PermissionRow) -> bool)
    requires |a| == |b| && Related(a, b, rel) && x.roleId == y.roleId && rel(x, y)
    ensures Related(a + [x], b + [y], rel)
  {
  }

  lemma {:induction false} RowsOfSameLength(a: seq<PermissionRow>, b: seq<PermissionRow>, role: Option<int>,
                                            rel: (PermissionRow, PermissionRow) -> bool)
    requires |a| == |b| && Related(a, b, rel)
    ensures |RowsOf(a, role)| == |RowsOf(b, role)| && Related(RowsOf(a, role), RowsOf(b, role), rel)
  {
    if a != [] {
      var n := |a| - 1;
      RowsOfSameLength(a[..n], b[..n], role, rel);
      RowsOfSnoc(a, role);
      RowsOfSnoc(b, role);
      if a[n].roleId == role {
        RelatedAppend(RowsOf(a[..n], role), RowsOf(b[..n], role), a[n], b[n], rel);
      }
    }
  }

  /** Rows changed one by one, and rows appended: the rows of a role change one by one, and may be more. */
  lemma RowsOfRelated(a: seq<PermissionRow>, b: seq<PermissionRow>, role: Option<int>,
                      rel: (PermissionRow, PermissionRow) -> bool)
    requires Related(a, b, rel)
    ensures Related(RowsOf(a, role), RowsOf(b, role), rel)
    ensures |a| == |b| ==> |RowsOf(a, role)| == |RowsOf(b, role)|
  {
    assert b == b[..|a|] + b[|a|..];
    RowsOfAppend(b[..|a|], b[|a|..], role);
    RowsOfSameLength(a, b[..|a|], role, rel);
    if |a| == |b| {
      assert b[..|a|] == b;
    }
  }

  lemma UsableMayGrow(a: seq<Item>, b: seq<Item>)
    requires |a| <= |b| && forall i :: 0 <= i < |a| && Quotable(a[i].table) ==> Quotable(b[i].table)
    ensures |Usable(a)| <= |Usable(b)|
  {
    forall i | 0 <= i < |Usable(a)| ensures Quotable(b[i].table) {
      assert Usable(a)[i] == a[i] && Quotable(Usable(a)[i].table);
    }
  }

  /** The entries of a second copy: the usable ones are still usable, and an untrimmed one is the same. */
  lemma SecondCopyEntries(s: Store, source: int, target: int, i: nat)
    requires TablePermissions in s.present && UniquePermissionIds(s)
    requires i < |Usable(SourceItems(s, source))| && IsUntrimmed(SourceItems(s, source)[i].table)
    ensures var again := SourceItems(CopyPermissions(s, source, target).store, source);
            i < |Usable(again)| && IsUntrimmed(Usable(again)[i].table)
  {
    var items := SourceItems(s, source);
    var once := CopyPermissions(s, source, target).store;
    BatchAppliesUsable(s, target, items);
    BatchKeepsNames(s, target, Usable(items));
    RowsOfRelated(s.permissions, once.permissions, Some(source), NameKept);
    var rows, after := RowsOf(s.permissions, Some(source)), RowsOf(once.permissions, Some(source));
    assert forall k :: 0 <= k < |rows| ==> NameKept(rows[k], after[k]);
    UsableMayGrow(items, SourceItems(once, source));
  }

  /** If a source name is untrimmed, the second copy leaves one more such row than the first. */
  lemma UntrimmedCopyGrows(s: Store, source: int, target: int, i: nat)
    requires TablePermissions in s.present && UniquePermissionIds(s)
    requires i < |Usable(SourceItems(s, source))| && IsUntrimmed(SourceItems(s, source)[i].table)
    ensures var once := CopyPermissions(s, source, target).store;
            UntrimmedRows(CopyPermissions(once, source, target).store.permissions, target)
            > UntrimmedRows(once.permissions, target)
  {
    var once := CopyPermissions(s, source, target).store;
    var again := SourceItems(once, source);
    SecondCopyEntries(s, source, target, i);
    SomeUntrimmed(Usable(again), i);
    BatchAppliesUsable(s, target, SourceItems(s, source));
    BatchAppliesUsable(once, target, again);
    BatchAddsUntrimmed(once, target, Usable(again));
  }

  // ── Trimmed names are only overlaid ───────────────────────────────────────

  predicate IsFirst(rows: seq<PermissionRow>, role: int, k: nat)
    requires k < |rows|
  {
    rows[k].roleId == Some(role) && rows[k].table.Some? && FindPermission(rows, role, rows[k].table.value) == Some(k)
  }

  function Overlaid(rows: seq<PermissionRow>, role: int, items: seq<Item>, k: nat): PermissionRow
    requires k < |rows|
  {
    if IsFirst(rows, role, k) && LastFlags(items, rows[k].table.value).Some?
    then rows[k].(flags := LastFlags(items, rows[k].table.value).value) else rows[k]
  }

  /** The first row of each listed table gets its last flags. */
  function Overlay(rows: seq<PermissionRow>, role: int, items: seq<Item>): (r: seq<PermissionRow>)
    ensures |r| == |rows| && forall k :: 0 <= k < |rows| ==> r[k] == Overlaid(rows, role, items, k)
  {
    seq(|rows|, k requires 0 <= k < |rows| => Overlaid(rows, role, items, k))
  }

  predicate AllPresentIn(rows: seq<PermissionRow>, role: int, items: seq<Item>) {
    forall i :: 0 <= i < |items| ==> items[i].table.Some? && FindPermission(rows, role, items[i].table.value).Some?
  }

  lemma OverlayStep(rows: seq<PermissionRow>, role: int, front: seq<Item>, last: Item, j: nat)
    requires last.table.Some? && FindPermission(rows, role, last.table.value) == Some(j)
    ensures FindPermission(Overlay(rows, role, front), role, last.table.value) == Some(j)
    ensures Overlay(rows, role, front)[j := PermissionRow(rows[j].id, Some(role), last.table, last.flags)]
            == Overlay(rows, role, front + [last])
  {
    var before, all := Overlay(rows, role, front), front + [last];
    SameKeysSameIndex(rows, before, role, last.table.value);
    assert all[..|front|] == front && all[|front|] == last;
    var after := before[j := PermissionRow(rows[j].id, Some(role), last.table, last.flags)];
    forall k | 0 <= k < |rows| ensures after[k] == Overlaid(rows, role, all, k) {
      if IsFirst(rows, role, k) && k != j {
        assert rows[k].table != last.table;
      }
    }
  }

  lemma SetOverlays(s: Store, role: int, front: seq<Item>, last: Item)
    requires TablePermissions in s.present
             && UniquePermissionIds(s.(permissions := Overlay(s.permissions, role, front)))
    requires Clean(last.table) && FindPermission(s.permissions, role, last.table.value).Some?
    ensures SetPermission(s.(permissions := Overlay(s.permissions, role, front)), role, last)
            == Ok(s.(permissions := Overlay(s.permissions, role, front + [last])))
  {
    var j := FindPermission(s.permissions, role, last.table.value).value;
    OverlayStep(s.permissions, role, front, last, j);
    SetByIndex(s.(permissions := Overlay(s.permissions, role, front)), role, last);
  }

  lemma {:induction false} BatchIsOverlay(s: Store, role: int, items: seq<Item>)
    requires TablePermissions in s.present && UniquePermissionIds(s)
    requires CleanItems(items) && AllPresentIn(s.permissions, role, items)
    ensures BatchSet(s, role, items).error == None
    ensures BatchSet(s, role, items).store == s.(permissions := Overlay(s.permissions, role, items))
  {
    if items == [] {
      assert Overlay(s.permissions, role, items) == s.permissions;
    } else {
      var front, last := items[..|items| - 1], items[|items| - 1];
      assert items == front + [last] && Clean(last.table);
      BatchIsOverlay(s, role, front);
      BatchIsFold(s, role, front, role, "");
      SetOverlays(s, role, front, last);
    }
  }

  /** A batch that says what the rows already hold changes nothing, however often it names a table. */
  lemma BatchAgainIsNoop(s: Store, role: int, items: seq<Item>)
    requires TablePermissions in s.present && UniquePermissionIds(s) && CleanItems(items)
    requires forall t :: LastFlags(items, t).Some? ==> FlagsOf(s.permissions, role, t) == LastFlags(items, t)
    ensures BatchSet(s, role, items).store == s && BatchSet(s, role, items).error == None
  {
    forall i | 0 <= i < |items|
      ensures items[i].table.Some? && FindPermission(s.permissions, role, items[i].table.value).Some?
    {
      assert Clean(items[i].table);
      ListedHasFlags(items, i);
    }
    BatchIsOverlay(s, role, items);
    var over := Overlay(s.permissions, role, items);
    forall k | 0 <= k < |over| ensures over[k] == s.permissions[k] {
      if IsFirst(s.permissions, role, k) {
        assert FlagsOf(s.permissions, role, s.permissions[k].table.value) == Some(s.permissions[k].flags);
      }
    }
  }

  lemma {:induction false} ListedHasFlags(items: seq<Item>, i: nat)
    requires i < |items| && items[i].table.Some?
    ensures LastFlags(items, items[i].table.value).Some?
  {
    if i < |items| - 1 {
      ListedHasFlags(items[..|items| - 1], i);
    }
  }

  /** A copy to another role: the second one finds everything as the first left it. */
  lemma TrimmedCopyAgain(s: Store, source: int, target: int)
    requires TablePermissions in s.present && UniquePermissionIds(s) && source != target
    requires AllTrimmed(Usable(SourceItems(s, source)))
    ensures var once := CopyPermissions(s, source, target).store;
            CopyPermissions(once, source, target).store == once
  {
    var items := SourceItems(s, source);
    var once := CopyPermissions(s, source, target).store;
    CopyLaw(s, source, target, source, "");
    TrimmedAreClean(Usable(items));
    forall t | LastFlags(Usable(items), t).Some?
      ensures FlagsOf(once.permissions, target, t) == LastFlags(Usable(items), t)
    {
      CopyLaw(s, source, target, target, t);
    }
    BatchAgainIsNoop(once, target, Usable(items));
    BatchAppliesUsable(once, target, items);
  }

  // ── A copy of a role onto itself ──────────────────────────────────────────

  /** Only the flags may differ, and then they are the last ones listed. */
  predicate Reflagged(items: seq<Item>, p: PermissionRow, q: PermissionRow) {
    q == p || (p.table.Some? && LastFlags(items, p.table.value).Some?
               && q == p.(flags := LastFlags(items, p.table.value).value))
  }

  lemma {:induction false} LastFlagsReflagged(a: seq<Item>, b: seq<Item>, t: string, last: Option<Flags>)
    requires |a| == |b| && LastFlags(a, t) == last
    requires forall i :: 0 <= i < |a| ==> b[i].table == a[i].table
    requires forall i :: 0 <= i < |a| && a[i].table == Some(t) ==>
             b[i].flags == a[i].flags || Some(b[i].flags) == last
    ensures LastFlags(b, t) == last
  {
    if a != [] && a[|a| - 1].table != Some(t) {
      LastFlagsReflagged(a[..|a| - 1], b[..|b| - 1], t, last);
    }
  }

  lemma UsableSameNames(a: seq<Item>, b: seq<Item>)
    requires |a| == |b| && forall i :: 0 <= i < |a| ==> b[i].table == a[i].table
    ensures |Usable(a)| == |Usable(b)|
  {
    UsableMayGrow(a, b);
    UsableMayGrow(b, a);
  }

  /** The entries of a role before and after an overlay with its own usable entries. */
  lemma OwnItemsReflagged(rows: seq<PermissionRow>, role: int, t: string)
    ensures var items := ItemsOf(RowsOf(rows, Some(role)));
            var again := ItemsOf(RowsOf(Overlay(rows, role, Usable(items)), Some(role)));
            && |again| == |items| && (forall i :: 0 <= i < |items| ==> again[i].table == items[i].table)
            && LastFlags(Usable(again), t) == LastFlags(Usable(items), t)
  {
    var items := ItemsOf(RowsOf(rows, Some(role)));
    var used := Usable(items);
    var over := Overlay(rows, role, used);
    var again := ItemsOf(RowsOf(over, Some(role)));
    forall k | 0 <= k < |rows| ensures Reflagged(used, rows[k], over[k]) {
      assert over[k] == Overlaid(rows, role, used, k);
    }
    RowsOfRelated(rows, over, Some(role), (p: PermissionRow, q: PermissionRow) => Reflagged(used, p, q));
    var before, after := RowsOf(rows, Some(role)), RowsOf(over, Some(role));
    assert forall i :: 0 <= i < |before| ==> Reflagged(used, before[i], after[i]);
    UsableSameNames(items, again);
    LastFlagsReflagged(used, Usable(again), t, LastFlags(used, t));
  }

  lemma OwnItemsArePresent(rows: seq<PermissionRow>, role: int)
    ensures AllPresentIn(rows, role, Usable(ItemsOf(RowsOf(rows, Some(role)))))
  {
    var mine := RowsOf(rows, Some(role));
    var used := Usable(ItemsOf(mine));
    forall i | 0 <= i < |used| ensures used[i].table.Some? && FindPermission(rows, role, used[i].table.value).Some? {
      assert Quotable(used[i].table) && mine[i] in mine;
      var k :| 0 <= k < |rows| && rows[k] == mine[i];
    }
  }

  lemma OverlayFlags(rows: seq<PermissionRow>, role: int, items: seq<Item>, t: string)
    requires LastFlags(items, t).Some? && FindPermission(rows, role, t).Some?
    ensures FlagsOf(Overlay(rows, role, items), role, t) == LastFlags(items, t)
  {
    var over := Overlay(rows, role, items);
    SameKeysSameIndex(rows, over, role, t);
    var k := FindPermission(rows, role, t).value;
    assert over[k] == Overlaid(rows, role, items, k);
  }

  lemma TrimmedSelfCopyAgain(s: Store, role: int)
    requires TablePermissions in s.present && UniquePermissionIds(s)
    requires AllTrimmed(Usable(SourceItems(s, role)))
    ensures var once := CopyPermissions(s, role, role).store;
            CopyPermissions(once, role, role).store == once
  {
    var items := SourceItems(s, role);
    var used := Usable(items);
    var once := CopyPermissions(s, role, role).store;
    TrimmedAreClean(used);
    OwnItemsArePresent(s.permissions, role);
    BatchIsOverlay(s, role, used);
    BatchAppliesUsable(s, role, items);
    var again := SourceItems(once, role);
    OwnItemsReflagged(s.permissions, role, "");
    UsableSameNames(items, again);
    TrimmedAreClean(Usable(again));
    forall t | LastFlags(Usable(again), t).Some?
      ensures FlagsOf(once.permissions, role, t) == LastFlags(Usable(again), t)
    {
      OwnItemsReflagged(s.permissions, role, t);
      LastFlagsFound(used, t);
      OverlayFlags(s.permissions, role, used, t);
    }
    BatchAgainIsNoop(once, role, Usable(again));
    BatchAppliesUsable(once, role, again);
  }

  // ── The condition ─────────────────────────────────────────────────────────

  /**
   Copying twice is copying once exactly when every source name up to the first
   unusable one is trimmed. Otherwise every further copy leaves one more row.
   */
  lemma CopyIsIdempotentIff(s: Store, source: int, target: int)
    requires TablePermissions in s.present && UniquePermissionIds(s)
    ensures var once := CopyPermissions(s, source, target).store;
            CopyPermissions(once, source, target).store == once <==> AllTrimmed(Usable(SourceItems(s, source)))
  {
    var used := Usable(SourceItems(s, source));
    if AllTrimmed(used) {
      if source == target { TrimmedSelfCopyAgain(s, source); } else { TrimmedCopyAgain(s, source, target); }
    } else {
      var i :| 0 <= i < |used| && !(used[i].table.Some? && Text.Trimmed(used[i].table.value));
      assert Quotable(used[i].table);
      UntrimmedCopyGrows(s, source, target, i);
    }
  }

  /** In particular while the rows are what the service itself writes for checked names. */
  lemma CopyIsIdempotent(s: Store, source: int, target: int)
    requires RowsOk(s)
    ensures var once := CopyPermissions(s, source, target).store;
            CopyPermissions(once, source, target).store == once
  {
    CopyIsIdempotentIff(s, source, target);
    var rows := RowsOf(s.permissions, Some(source));
    forall i | 0 <= i < |rows| ensures Clean(rows[i].table) && Text.Trimmed(rows[i].table.value) {
      assert rows[i] in rows;
      var k :| 0 <= k < |s.permissions| && s.permissions[k] == rows[i];
      Text.TrimIdentity(rows[i].table.value);
    }
  }

  /** A row typed into the table with a leading space, and two copies of its role to an empty one. */
  const TYPED := Store({TablePermissions}, [], 1, [], 1, [], 1,
                       [PermissionRow(1, Some(1), Some(" a"), Flags(false, true, false, false))], 2)

  const READ_ONLY := Flags(false, true, false, false)

  /** Every row is unique before and after the first copy; the second makes a second row for one key. */
  lemma CopyTwiceDuplicates()
    ensures UniqueKeys(TYPED.permissions) && UniquePermissionIds(TYPED)
    ensures var once := CopyPermissions(TYPED, 1, 2).store;
            && once.permissions == TYPED.permissions + [PermissionRow(2, Some(2), Some(" a"), READ_ONLY)]
            && CopyPermissions(once, 1, 2).store.permissions
               == once.permissions + [PermissionRow(3, Some(2), Some(" a"), READ_ONLY)]
    ensures !UniqueKeys(CopyPermissions(CopyPermissions(TYPED, 1, 2).store, 1, 2).store.permissions)
  {
    SpacedName();
    CopyOfOne(TYPED, TYPED.permissions[0], READ_ONLY);
    var once := InsertPermission(TYPED, 2, " a", READ_ONLY);
    CopyOfOne(once, TYPED.permissions[0], READ_ONLY);
    var twice := InsertPermission(once, 2, " a", READ_ONLY).permissions;
    assert twice[1].roleId == twice[2].roleId && twice[1].table == twice[2].table;
  }

  lemma SpacedName()
    ensures Filter.NormalizeText(" a") == Ok("a")
  {
    assert Text.TrimStart(" a") == "a";
    assert Text.Trim(" a") == "a";
  }

  lemma CopyOfOne(s: Store, row: PermissionRow, read: Flags)
    requires TablePermissions in s.present && UniquePermissionIds(s) && s.permissions != [] && s.permissions[0] == row
    requires row.roleId == Some(1) && row.table == Some(" a") && row.flags == read
             && Filter.NormalizeText(" a") == Ok("a")
    requires forall k :: 1 <= k < |s.permissions| ==>
             s.permissions[k].roleId == Some(2) && s.permissions[k].table == Some(" a")
    ensures CopyPermissions(s, 1, 2).store == InsertPermission(s, 2, " a", read)
  {
    var rows := s.permissions;
    assert rows == [row] + rows[1..];
    RowsOfAppend([row], rows[1..], Some(1));
    RowsOfOne(row, Some(1));
    SelectNone(rows[1..], (p: PermissionRow) => p.roleId == Some(1));
    var items := SourceItems(s, 1);
    assert items == [Item(Some(" a"), read)] && items[..0] == [];
    SetByIndex(s, 2, items[0]);
    assert BatchSet(s, 2, items[..0]) == Batch(s, 0, None);
  }
}
