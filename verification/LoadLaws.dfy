/**
 Split loads against the atomic join: a load during which the tables do not
 change is the join, and once the tables are quiet every answer becomes it.
 */
module LoadLaws {
  import opened Wrappers
  import opened Paging
  import opened Store
  import opened Permissions
  import opened Interleaving

  // ── A load on tables that do not change ───────────────────────────────────

  /** How much of a table a load holds: nothing before its phase, a prefix in it, all of it after. */
  predicate Partly<T(==)>(got: seq<T>, rows: seq<T>, phase: nat, at: nat, offset: nat) {
    if at < phase then got == []
    else if at == phase then offset <= |rows| && got == rows[..offset]
    else got == rows
  }

  /** What the join of one user reads from the tables. */
  datatype View = View(present: set<SystemTable>, username: string, assignments: seq<AssignmentRow>,
                       roles: seq<RoleRow>, permissions: seq<PermissionRow>)

  function ActiveOf(v: View): seq<int> {
    Active(RoleIds(v.assignments), Ids(v.roles))
  }

  function ViewOf(st: Store, user: int): View {
    var assignments := AssignmentsOf(st, user);
    var roles := RolesIn(st, RoleIds(assignments));
    View(st.present, Username(st, user), assignments, roles,
         PermissionsIn(st, Active(RoleIds(assignments), Ids(roles))))
  }

  /** The join on what it reads. */
  function Join(v: View, user: int): Loaded {
    if Users !in v.present then Loaded(NoPermissions(user, "unknown"), false)
    else if UserRoles !in v.present || RoleIds(v.assignments) == [] || Roles !in v.present || ActiveOf(v) == []
            || TablePermissions !in v.present then Loaded(NoPermissions(user, v.username), false)
    else Loaded(UserPermissions(user, v.username, Names(v.roles), Aggregate(v.permissions, Ids(v.roles))), true)
  }

  lemma LoadIsJoin(st: Store, user: int)
    ensures Load(st, user) == Join(ViewOf(st, user), user)
  {
  }

  predicate Passed(v: View, at: nat) {
    && (at >= 1 ==> Users in v.present) && (at >= 3 ==> UserRoles in v.present)
    && (at >= 4 ==> RoleIds(v.assignments) != []) && (at >= 5 ==> Roles in v.present)
    && (at >= 6 ==> ActiveOf(v) != []) && (at >= 7 ==> TablePermissions in v.present)
  }

  /** The load has got what the join reads up to its phase. */
  predicate Got(v: View, l: Loading) {
    var at := Rank(l.phase);
    && Passed(v, at)
    && l.username == (if at >= 2 then v.username else "unknown")
    && Partly(l.assignments, v.assignments, 3, at, l.offset)
    && Partly(l.roles, v.roles, 5, at, l.offset)
    && Partly(l.permissions, v.permissions, 7, at, l.offset)
  }

  function Expected(v: View, cap: nat, l: Loading): Answer {
    match l.phase
    case FindUsers => Present(Users in v.present)
    case ReadUser => UserName(v.username)
    case FindUserRoles => Present(UserRoles in v.present)
    case AssignmentPages => AssignmentPage(Page(v.assignments, l.offset, PAGE, cap))
    case FindRoles => Present(Roles in v.present)
    case RolePages => RolePage(Page(v.roles, l.offset, PAGE, cap))
    case FindPermissions => Present(TablePermissions in v.present)
    case PermissionPages => PermissionPage(Page(v.permissions, l.offset, PAGE, cap))
  }

  lemma AnswerIsExpected(st: Store, cap: nat, l: Loading)
    requires Got(ViewOf(st, l.user), l)
    ensures AnswerOf(st, cap, l) == Expected(ViewOf(st, l.user), cap, l)
  {
  }

  predicate Tracks(v: View, cap: nat, l: Loading) {
    Got(v, l) && (l.answer.Some? ==> l.answer.value == Expected(v, cap, l))
  }

  /** The load goes on in step with the join, or returns what the join returns. */
  predicate AsTheJoin(v: View, cap: nat, user: int, next: Next) {
    match next
    case Goes(l) => Tracks(v, cap, l) && l.user == user
    case Returns(value, complete) => Join(v, user) == Loaded(value, complete)
  }

  /** One page more, or the rest. */
  lemma PageAdds<T>(rows: seq<T>, offset: nat, cap: nat, page: seq<T>)
    requires offset <= |rows| && cap >= PAGE && page == Page(rows, offset, PAGE, cap)
    ensures |page| < PAGE ==> rows[..offset] + page == rows
    ensures |page| >= PAGE ==> offset + PAGE <= |rows| && rows[..offset] + page == rows[..offset + PAGE]
  {
  }

  lemma LastAssignmentPage(v: View, cap: nat, l: Loading, page: seq<AssignmentRow>)
    requires Got(v, l) && l.phase == AssignmentPages && |page| < PAGE && l.assignments + page == v.assignments
    ensures AsTheJoin(v, cap, l.user, Continue(l, AssignmentPage(page)))
  {
  }

  lemma LastRolePage(v: View, cap: nat, l: Loading, page: seq<RoleRow>)
    requires Got(v, l) && l.phase == RolePages && |page| < PAGE && l.roles + page == v.roles
    ensures AsTheJoin(v, cap, l.user, Continue(l, RolePage(page)))
  {
  }

  lemma LastPermissionPage(v: View, cap: nat, l: Loading, page: seq<PermissionRow>)
    requires Got(v, l) && l.phase == PermissionPages && |page| < PAGE && l.permissions + page == v.permissions
    ensures AsTheJoin(v, cap, l.user, Continue(l, PermissionPage(page)))
  {
  }

  lemma TakeInPage(v: View, cap: nat, l: Loading)
    requires Tracks(v, cap, l) && cap >= PAGE && l.answer.Some?
    requires l.phase == AssignmentPages || l.phase == RolePages || l.phase == PermissionPages
    ensures AsTheJoin(v, cap, l.user, Continue(l, l.answer.value))
  {
    match l.answer.value
    case AssignmentPage(page) =>
      PageAdds(v.assignments, l.offset, cap, page);
      if |page| < PAGE { LastAssignmentPage(v, cap, l, page); }
    case RolePage(page) =>
      PageAdds(v.roles, l.offset, cap, page);
      if |page| < PAGE { LastRolePage(v, cap, l, page); }
    case PermissionPage(page) =>
      PageAdds(v.permissions, l.offset, cap, page);
      if |page| < PAGE { LastPermissionPage(v, cap, l, page); }
  }

  lemma TakeInLookup(v: View, cap: nat, l: Loading)
    requires Tracks(v, cap, l) && l.answer.Some?
    requires l.phase != AssignmentPages && l.phase != RolePages && l.phase != PermissionPages
    ensures AsTheJoin(v, cap, l.user, Continue(l, l.answer.value))
  {
  }

  lemma TakeIn(v: View, cap: nat, l: Loading)
    requires Tracks(v, cap, l) && cap >= PAGE && l.answer.Some?
    ensures AsTheJoin(v, cap, l.user, Continue(l, l.answer.value))
  {
    if l.phase == AssignmentPages || l.phase == RolePages || l.phase == PermissionPages {
      TakeInPage(v, cap, l);
    } else {
      TakeInLookup(v, cap, l);
    }
  }

  lemma ServedTracks(st: Store, cap: nat, l: Loading, step: nat)
    requires Tracks(ViewOf(st, l.user), cap, l) && l.answer.None?
    ensures Tracks(ViewOf(st, l.user), cap, Served(l, AnswerOf(st, cap, l), step))
  {
    AnswerIsExpected(st, cap, l);
    ExpectedTracks(ViewOf(st, l.user), cap, l, step);
  }

  lemma ExpectedTracks(v: View, cap: nat, l: Loading, step: nat)
    requires Tracks(v, cap, l)
    ensures Tracks(v, cap, Served(l, Expected(v, cap, l), step))
  {
  }

  lemma OthersKeepLoad(s: State, e: Event, id: nat)
    requires id in s.loads && id < s.step && e != Serve(id) && e != Resume(id) && e != Fail(id)
    ensures id in Step(s, e).loads && Step(s, e).loads[id] == s.loads[id]
  {
  }

  lemma FailReturnsNothing(s: State, id: nat)
    ensures Step(s, Fail(id)).returned.None? && id !in Step(s, Fail(id)).loads
  {
  }

  lemma ResumeTracks(s: State, id: nat, v: View)
    requires id in s.loads && s.cap >= PAGE && Tracks(v, s.cap, s.loads[id])
    ensures InStep(s, Step(s, Resume(id)), id, v)
  {
    if s.loads[id].answer.Some? {
      TakeIn(v, s.cap, s.loads[id]);
    }
  }

  /** After a step the load still tracks the join, or has returned its value. */
  predicate InStep(s: State, t: State, id: nat, v: View)
    requires id in s.loads
  {
    && (id in t.loads ==> t.loads[id].user == s.loads[id].user && Tracks(v, s.cap, t.loads[id]))
    && (id !in t.loads && t.returned.Some? ==> t.returned.value.value == Join(v, s.loads[id].user).value)
  }

  lemma ServeTracks(s: State, id: nat)
    requires id in s.loads && Tracks(ViewOf(s.store, s.loads[id].user), s.cap, s.loads[id])
    ensures InStep(s, Step(s, Serve(id)), id, ViewOf(s.store, s.loads[id].user))
  {
    if s.loads[id].answer.None? {
      var l := ServedLoad(s, id);
    }
  }

  lemma ServedKeeps(l: Loading, a: Answer, step: nat)
    ensures var m := Served(l, a, step);
            m.answer == Some(a) && m.phase == l.phase && m.offset == l.offset && m.user == l.user
  {
  }

  lemma ServedLoad(s: State, id: nat) returns (l: Loading)
    requires id in s.loads && s.loads[id].answer.None?
    requires Tracks(ViewOf(s.store, s.loads[id].user), s.cap, s.loads[id])
    ensures Step(s, Serve(id)) == s.(step := s.step + 1, returned := None, loads := s.loads[id := l])
    ensures l.user == s.loads[id].user && Tracks(ViewOf(s.store, l.user), s.cap, l)
    ensures l.answer.Some? && l.phase == s.loads[id].phase && l.offset == s.loads[id].offset
  {
    l := ServedTracking(s.store, s.cap, s.loads[id], s.step);
    ServeIs(s, id, l);
  }

  lemma ServedTracking(st: Store, cap: nat, m: Loading, step: nat) returns (l: Loading)
    requires m.answer.None? && Tracks(ViewOf(st, m.user), cap, m)
    ensures l == Served(m, AnswerOf(st, cap, m), step) && Tracks(ViewOf(st, m.user), cap, l)
    ensures l.answer.Some? && l.phase == m.phase && l.offset == m.offset && l.user == m.user
  {
    l := Served(m, AnswerOf(st, cap, m), step);
    ServedKeeps(m, AnswerOf(st, cap, m), step);
    ServedTracks(st, cap, m, step);
  }

  lemma TrackStep(s: State, e: Event, id: nat)
    requires id in s.loads && id < s.step && s.cap >= PAGE
             && Tracks(ViewOf(s.store, s.loads[id].user), s.cap, s.loads[id])
    ensures InStep(s, Step(s, e), id, ViewOf(s.store, s.loads[id].user))
  {
    if e == Resume(id) {
      ResumeTracks(s, id, ViewOf(s.store, s.loads[id].user));
    } else if e == Serve(id) {
      ServeTracks(s, id);
    } else if e == Fail(id) {
      FailReturnsNothing(s, id);
    } else {
      OthersKeepLoad(s, e, id);
    }
  }

  // ── Runs ──────────────────────────────────────────────────────────────────

  /** The states of a run, seen as a sequence in which each follows from the one before. */
  predicate Follows(hist: seq<State>, es: seq<Event>) {
    |hist| == |es| + 1 && forall k :: 0 <= k < |es| ==> hist[k + 1] == Step(hist[k], es[k])
  }

  lemma {:induction false} RunFollows(s: State, es: seq<Event>)
    ensures Follows(Run(s, es), es) && Run(s, es)[0] == s
  {
    if es != [] {
      var front := es[..|es| - 1];
      RunFollows(s, front);
      var before, hist := Run(s, front), Run(s, es);
      forall k | 0 <= k < |es| ensures hist[k + 1] == Step(hist[k], es[k]) {
        if k < |front| { assert before[k + 1] == Step(before[k], front[k]); }
      }
    }
  }

  lemma {:induction false} RunCounts(hist: seq<State>, es: seq<Event>, k: nat)
    requires Follows(hist, es) && Start(hist[0]) && k <= |es|
    ensures hist[k].step == k && hist[k].cap == hist[0].cap
  {
    if k > 0 {
      RunCounts(hist, es, k - 1);
      assert hist[k - 1 + 1] == Step(hist[k - 1], es[k - 1]);
    }
  }

  lemma {:induction false} TimeGrows(hist: seq<State>, es: seq<Event>, i: nat, k: nat)
    requires Follows(hist, es) && i <= k <= |es|
    ensures hist[i].now <= hist[k].now
    decreases k
  {
    if i < k {
      TimeGrows(hist, es, i, k - 1);
      assert hist[k - 1 + 1] == Step(hist[k - 1], es[k - 1]);
    }
  }

  lemma {:induction false} StoreStays(hist: seq<State>, es: seq<Event>, k: nat)
    requires Follows(hist, es) && k <= |es| && forall e :: e in es ==> !e.Write?
    ensures hist[k].store == hist[0].store
  {
    if k > 0 {
      StoreStays(hist, es, k - 1);
      assert hist[k - 1 + 1] == Step(hist[k - 1], es[k - 1]) && es[k - 1] in es;
    }
  }

  /** The tables are `st` from step `lo` to step `hi`. */
  ghost predicate Quiet(hist: seq<State>, st: Store, lo: nat, hi: nat) {
    hi < |hist| && forall k :: lo <= k <= hi ==> hist[k].store == st
  }

  lemma BeginTracks(s: State, e: Event, v: View)
    requires s.step !in s.loads && s.step in Step(s, e).loads
    ensures Tracks(v, s.cap, Step(s, e).loads[s.step])
  {
    assert e.Call? && Step(s, e).loads[s.step] == Begin(e.user, s.step);
  }

  lemma TracksNext(s: State, e: Event, t: State, id: nat, user: int)
    requires t == Step(s, e) && id < s.step && s.cap >= PAGE
    requires id in s.loads && s.loads[id].user == user && Tracks(ViewOf(s.store, user), s.cap, s.loads[id])
    requires id in t.loads
    ensures Tracks(ViewOf(s.store, user), s.cap, t.loads[id])
  {
    TrackStep(s, e, id);
  }

  lemma TracksFirst(hist: seq<State>, es: seq<Event>, from: nat, v: View)
    requires Follows(hist, es) && Start(hist[0]) && from < |es|
    requires from !in hist[from].loads && from in hist[from + 1].loads
    ensures Tracks(v, hist[0].cap, hist[from + 1].loads[from])
  {
    RunCounts(hist, es, from);
    BeginTracks(hist[from], es[from], v);
  }

  lemma {:induction false} TracksAlong(hist: seq<State>, es: seq<Event>, st: Store, user: int, from: nat, to: nat,
      k: nat)
    requires Follows(hist, es) && Start(hist[0]) && hist[0].cap >= PAGE
    requires from < k <= to <= |es| && Quiet(hist, st, from, to)
    requires from !in hist[from].loads
    requires forall i :: from < i <= to ==> from in hist[i].loads && hist[i].loads[from].user == user
    ensures Tracks(ViewOf(st, user), hist[0].cap, hist[k].loads[from])
    decreases k
  {
    if k == from + 1 {
      TracksFirst(hist, es, from, ViewOf(st, user));
    } else {
      var j: nat := k - 1;
      TracksAlong(hist, es, st, user, from, to, j);
      RunCounts(hist, es, j);
      TracksNext(hist[j], es[j], hist[j + 1], from, user);
    }
  }

  /**
   Whatever else happens meanwhile, a load during which the tables stay the same
   returns exactly the join of those tables, over any number of pages.
   */
  lemma UndisturbedLoadIsTheJoin(s: State, es: seq<Event>, st: Store, user: int, value: UserPermissions, from: nat,
      to: nat)
    requires Start(s) && s.cap >= 1000
    requires Completed(Run(s, es), user, value, from, to) && Quiet(Run(s, es), st, from, to)
    ensures value == Load(st, user).value
  {
    RunFollows(s, es);
    var hist := Run(s, es);
    TracksAlong(hist, es, st, user, from, to, to);
    RunCounts(hist, es, to);
    TrackStep(hist[to], es[to], from);
    LoadIsJoin(st, user);
  }

  /**
   Once the tables have stayed the same for five minutes, with no older load still
   running, every answer is the fresh join, with or without cache clears.
   */
  lemma AnswersConverge(s: State, es: seq<Event>, quiet: nat, st: Store)
    requires Start(s) && s.cap >= 1000 && quiet < |es| && Quiet(Run(s, es), st, quiet, |es|)
    requires Run(s, es)[quiet].loads == map[]
    requires Run(s, es)[quiet].now + 5 * 60 * 1000 <= Run(s, es)[|es|].now
    ensures var last := Run(s, es)[|es|];
            last.returned.Some? ==> last.returned.value.value == Load(st, last.returned.value.user).value
  {
    var hist := Run(s, es);
    if hist[|es|].returned.Some? {
      var r := hist[|es|].returned.value;
      BoundedStaleness(s, es);
      var from: nat, to: nat :| Completed(hist, r.user, r.value, from, to)
                                && (to + 1 == |es| || hist[|es|].now < hist[to].now + CACHE_TTL);
      RunFollows(s, es);
      if to < quiet {
        TimeGrows(hist, es, to, quiet);
      }
      assert quiet <= to;
      assert quiet <= from;
      UndisturbedLoadIsTheJoin(s, es, st, r.user, r.value, from, to);
    }
  }

  /** From an empty cache and without writes, every answer is the join of the tables. */
  lemma AnswersAreExactWithoutWrites(s: State, es: seq<Event>)
    requires Start(s) && s.cap >= 1000 && forall e :: e in es ==> !e.Write?
    ensures var last := Run(s, es)[|es|];
            last.returned.Some? ==> last.returned.value.value == Load(s.store, last.returned.value.user).value
  {
    var hist := Run(s, es);
    RunFollows(s, es);
    forall k | 0 <= k <= |es| ensures hist[k].store == s.store { StoreStays(hist, es, k); }
    if hist[|es|].returned.Some? {
      var r := hist[|es|].returned.value;
      BoundedStaleness(s, es);
      var from: nat, to: nat :| Completed(hist, r.user, r.value, from, to);
      UndisturbedLoadIsTheJoin(s, es, s.store, r.user, r.value, from, to);
    }
  }

  // ── What is cached ────────────────────────────────────────────────────────

  /** Loads are in step with the join of the current tables, and entries are what a load to the end returned. */
  ghost predicate AllInStep(s: State) {
    && (forall id :: id in s.loads ==>
          id < s.step && Tracks(ViewOf(s.store, s.loads[id].user), s.cap, s.loads[id]))
    && (forall e :: e in s.cache ==> Load(s.store, e.user) == Loaded(e.value, true))
  }

  lemma CallKeepsInStep(s: State, user: int)
    requires AllInStep(s)
    ensures AllInStep(Step(s, Call(user)))
  {
    if Hit(s.cache, user, s.now).None? {
      assert s.step !in s.loads;
      BeginTracks(s, Call(user), ViewOf(s.store, user));
    }
  }

  lemma ServeKeepsInStep(s: State, id: nat)
    requires AllInStep(s)
    ensures AllInStep(Step(s, Serve(id)))
  {
    if id in s.loads && s.loads[id].answer.None? {
      var l := ServedLoad(s, id);
    }
  }

  lemma ResumeKeepsInStep(s: State, id: nat)
    requires AllInStep(s) && s.cap >= PAGE
    ensures AllInStep(Step(s, Resume(id)))
  {
    if id in s.loads && s.loads[id].answer.Some? {
      var l := s.loads[id];
      TakeIn(ViewOf(s.store, l.user), s.cap, l);
      match Continue(l, l.answer.value)
      case Goes(_) =>
      case Returns(value, complete) =>
        LoadIsJoin(s.store, l.user);
        InsertMembers(s.cache, l.user, value, s.now);
    }
  }

  lemma StepKeepsInStep(s: State, e: Event)
    requires AllInStep(s) && s.cap >= PAGE && !e.Write?
    ensures AllInStep(Step(s, e)) && Step(s, e).store == s.store && Step(s, e).cap == s.cap
  {
    match e
    case Call(user) => CallKeepsInStep(s, user);
    case Serve(id) => ServeKeepsInStep(s, id);
    case Resume(id) => ResumeKeepsInStep(s, id);
    case _ => OtherStep(s, e);
  }

  /**
   Only loads that got to their end are cached: without writes every entry is the
   answer of such a load, so a user without an existing role is never answered
   from the cache.
   */
  lemma {:induction false} OnlyCompleteLoadsAreCached(s: State, es: seq<Event>)
    requires Start(s) && s.cap >= 1000 && forall e :: e in es ==> !e.Write?
    ensures var t := Last(Run(s, es));
            && AllInStep(t) && t.store == s.store && t.cap == s.cap
            && forall e :: e in t.cache ==>
                 Load(s.store, e.user) == Loaded(e.value, true) && exists r :: HasRole(s.store, e.user, r)
  {
    if es != [] {
      var front, last := es[..|es| - 1], es[|es| - 1];
      assert last in es && forall e :: e in front ==> e in es;
      OnlyCompleteLoadsAreCached(s, front);
      StepKeepsInStep(Last(Run(s, front)), last);
    }
    var t := Last(Run(s, es));
    forall e | e in t.cache ensures exists r :: HasRole(s.store, e.user, r) {
      LoadIsCachedIff(s.store, e.user);
    }
  }

  // ── After a clear ─────────────────────────────────────────────────────────

  /** An answer or an entry is the fresh join. */
  predicate IsFresh(st: Store, user: int, value: UserPermissions) {
    value == Load(st, user).value
  }

  /** A step that ends a load hands out its value, and caches no other new one. */
  ghost predicate EndsLoad(s: State, t: State, id: nat) {
    && id in s.loads && id !in t.loads && t.returned.Some? && t.returned.value.user == s.loads[id].user
    && forall x :: x in t.cache ==>
       x in s.cache || (x.user == t.returned.value.user && x.value == t.returned.value.value)
  }

  /** Any other step hands out cached values, and caches nothing new. */
  ghost predicate OnlyReadsCache(s: State, t: State) {
    && (forall x :: x in t.cache ==> x in s.cache)
    && (t.returned.Some? ==>
          exists x :: x in s.cache && x.user == t.returned.value.user && x.value == t.returned.value.value)
  }

  lemma StepOutput(s: State, e: Event)
    ensures OnlyReadsCache(s, Step(s, e)) || (e.Resume? && EndsLoad(s, Step(s, e), e.id))
  {
    if e.Resume? && e.id in s.loads && s.loads[e.id].answer.Some? {
      ResumeOutput(s, e.id);
    } else if e.Call? {
      if Hit(s.cache, e.user, s.now).Some? {
        assert Lookup(s.cache, e.user).value in s.cache;
      }
    } else if !e.Serve? {
      OtherStep(s, e);
    }
  }

  lemma ResumeOutput(s: State, id: nat)
    requires id in s.loads && s.loads[id].answer.Some?
    ensures OnlyReadsCache(s, Step(s, Resume(id))) || EndsLoad(s, Step(s, Resume(id)), id)
  {
    var l := s.loads[id];
    match Continue(l, l.answer.value)
    case Goes(_) =>
    case Returns(value, complete) =>
      if complete {
        InsertMembers(s.cache, l.user, value, s.now);
      }
  }

  lemma {:induction false} RunPrefix(s: State, es: seq<Event>, k: nat)
    requires k <= |es|
    ensures Run(s, es)[..k + 1] == Run(s, es[..k])
  {
    if k == |es| {
      assert es[..k] == es;
    } else {
      assert es[..|es| - 1][..k] == es[..k];
      RunPrefix(s, es[..|es| - 1], k);
    }
  }

  /** A load that ends on tables unchanged since before any running load began returns the join. */
  lemma EndedLoadIsFresh(s: State, es: seq<Event>, quiet: nat, st: Store, j: nat, id: nat)
    requires Start(s) && s.cap >= PAGE && quiet <= j < |es| && Quiet(Run(s, es), st, quiet, |es|)
    requires Run(s, es)[quiet].loads == map[] && EndsLoad(Run(s, es)[j], Run(s, es)[j + 1], id)
    ensures var r := Run(s, es)[j + 1].returned.value; IsFresh(st, r.user, r.value)
  {
    var hist := Run(s, es);
    var l := hist[j].loads[id];
    RunKeepsInv(s, es[..j]);
    RunPrefix(s, es, j);
    InFlightInPrefix(hist, j, id, l.user);
    assert quiet <= id;
    RunFollows(s, es);
    TracksAlong(hist, es, st, l.user, id, j, j);
    RunCounts(hist, es, j);
    TrackStep(hist[j], es[j], id);
    LoadIsJoin(st, l.user);
  }

  lemma InFlightInPrefix(hist: seq<State>, j: nat, id: nat, user: int)
    requires j < |hist| && Inv(hist[..j + 1]) && id in hist[j].loads && hist[j].loads[id].user == user
    ensures id < j && id !in hist[id].loads
    ensures forall i :: id < i <= j ==> id in hist[i].loads && hist[i].loads[id].user == user
  {
    var before := hist[..j + 1];
    assert Last(before) == hist[j];
    assert InFlight(before, id, user);
    forall i | id < i <= j ensures id in hist[i].loads && hist[i].loads[id].user == user {
      assert before[i] == hist[i];
    }
    assert before[id] == hist[id];
  }

  ghost predicate FreshAt(s: State, st: Store) {
    && (forall x :: x in s.cache ==> IsFresh(st, x.user, x.value))
    && (s.returned.Some? ==> IsFresh(st, s.returned.value.user, s.returned.value.value))
  }

  lemma {:induction false} FreshSince(s: State, es: seq<Event>, quiet: nat, st: Store, k: nat)
    requires Start(s) && s.cap >= PAGE && quiet < k <= |es| && Quiet(Run(s, es), st, quiet, |es|)
    requires Run(s, es)[quiet].loads == map[] && Run(s, es)[quiet].cache == []
    ensures FreshAt(Run(s, es)[k], st)
    decreases k
  {
    var hist := Run(s, es);
    var j: nat := k - 1;
    if j > quiet {
      FreshSince(s, es, quiet, st, j);
    }
    RunFollows(s, es);
    StepOutput(hist[j], es[j]);
    if !OnlyReadsCache(hist[j], hist[k]) {
      EndedLoadIsFresh(s, es, quiet, st, j, es[j].id);
    }
  }

  /**
   What clearing is for: if at some step the cache is empty and no load runs, and
   the tables stay the same from then on, every later answer is the fresh join,
   without waiting for the TTL.
   */
  lemma AnswersAreFreshAfterClear(s: State, es: seq<Event>, quiet: nat, st: Store)
    requires Start(s) && s.cap >= 1000 && quiet < |es| && Quiet(Run(s, es), st, quiet, |es|)
    requires Run(s, es)[quiet].loads == map[] && Run(s, es)[quiet].cache == []
    ensures var last := Run(s, es)[|es|];
            last.returned.Some? ==> last.returned.value.value == Load(st, last.returned.value.user).value
  {
    FreshSince(s, es, quiet, st, |es|);
  }

  // ── The bound is tight ────────────────────────────────────────────────────

  /** n answers of the server, each taken in at once, by the load called at step 0. */
  function Rounds(user: int, n: nat): seq<Event> {
    if n == 0 then [Call(user)] else Rounds(user, n - 1) + [Serve(0)] + [Resume(0)]
  }

  /**
   The permission rows are served, then the tables change and the cache is
   cleared, then the load goes on and caches what it read, and some milliseconds
   later the user is asked for again.
   */
  function LateLoad(user: int, later: Store, wait: nat): seq<Event> {
    Rounds(user, 7) + [Serve(0)] + [Write(later)] + [ClearCache(None)] + [Resume(0)] + [Tick(wait)] + [Call(user)]
  }

  function End(s: State, es: seq<Event>): State {
    Last(Run(s, es))
  }

  lemma EndSnoc(s: State, es: seq<Event>, e: Event)
    ensures End(s, es + [e]) == Step(End(s, es), e)
  {
    assert (es + [e])[..|es|] == es;
  }

  predicate Small(v: View) {
    |v.assignments| < 1000 && |v.roles| < 1000 && |v.permissions| < 1000
  }

  /** The one load there is, waiting in the phase of this rank, in step with the join. */
  predicate Waiting(s: State, t: State, user: int, rank: nat) {
    && t == s.(step := t.step, returned := None, loads := t.loads)
    && t.loads.Keys == {0} && t.loads[0].user == user && t.loads[0].answer.None?
    && Rank(t.loads[0].phase) == rank && t.loads[0].offset == 0 && Got(ViewOf(s.store, user), t.loads[0])
  }

  lemma OneMoreRound(v: View, l: Loading, cap: nat)
    requires Join(v, l.user).complete && Small(v) && cap >= PAGE && Rank(l.phase) < 7
    requires Tracks(v, cap, l) && l.answer.Some? && l.offset == 0
    ensures var next := Continue(l, l.answer.value);
            && next.Goes? && Got(v, next.l) && next.l.answer.None? && next.l.user == l.user
            && next.l.offset == 0 && Rank(next.l.phase) == Rank(l.phase) + 1
  {
    TakeIn(v, cap, l);
    assert |Page(v.assignments, 0, PAGE, cap)| < PAGE && |Page(v.roles, 0, PAGE, cap)| < PAGE;
    OnwardRank(l, cap, v);
  }

  /** A load that does not return at a short page goes on to the next phase. */
  lemma OnwardRank(l: Loading, cap: nat, v: View)
    requires l.answer.Some? && Rank(l.phase) < 7 && l.answer.value == Expected(v, cap, l)
    requires l.answer.value.AssignmentPage? ==> |l.answer.value.assignments| < PAGE
    requires l.answer.value.RolePage? ==> |l.answer.value.roles| < PAGE
    ensures match Continue(l, l.answer.value)
            case Returns(value, complete) => !complete
            case Goes(l') => Rank(l'.phase) == Rank(l.phase) + 1 && l'.answer.None? && l'.offset == 0
  {
  }

  lemma ResumedIs(u: State, l: Loading, l': Loading)
    requires u.loads.Keys == {0} && u.loads[0] == l && l.answer.Some? && Continue(l, l.answer.value) == Goes(l')
    ensures Step(u, Resume(0)) == u.(step := u.step + 1, returned := None, loads := u.loads[0 := l'])
  {
  }

  lemma RoundStep(s: State, t: State, user: int, rank: nat)
    requires Waiting(s, t, user, rank) && rank < 7 && s.cap >= PAGE
    requires Join(ViewOf(s.store, user), user).complete && Small(ViewOf(s.store, user))
    ensures Waiting(s, Step(Step(t, Serve(0)), Resume(0)), user, rank + 1)
  {
    var l := ServedLoad(t, 0);
    OneMoreRound(ViewOf(s.store, user), l, s.cap);
    ResumedIs(Step(t, Serve(0)), l, Continue(l, l.answer.value).l);
  }

  lemma {:induction false} RoundsWait(s: State, user: int, n: nat)
    requires Start(s) && s.cap >= PAGE && n <= 7
    requires Join(ViewOf(s.store, user), user).complete && Small(ViewOf(s.store, user))
    ensures Waiting(s, End(s, Rounds(user, n)), user, n)
  {
    if n == 0 {
      EndSnoc(s, [], Call(user));
      assert [] + [Call(user)] == Rounds(user, 0);
    } else {
      RoundsWait(s, user, n - 1);
      EndSnoc(s, Rounds(user, n - 1), Serve(0));
      EndSnoc(s, Rounds(user, n - 1) + [Serve(0)], Resume(0));
      RoundStep(s, End(s, Rounds(user, n - 1)), user, n - 1);
    }
  }

  lemma LastRound(v: View, l: Loading, cap: nat)
    requires Tracks(v, cap, l) && cap >= PAGE && l.answer.Some? && l.phase == PermissionPages && l.offset == 0
             && Small(v)
    requires Join(v, l.user).complete
    ensures Continue(l, l.answer.value) == Returns(Join(v, l.user).value, true)
  {
    TakeIn(v, cap, l);
    assert |Page(v.permissions, 0, PAGE, cap)| < PAGE;
  }

  lemma ServedLast(s: State, t: State, user: int)
    requires Waiting(s, t, user, 7) && s.cap >= PAGE
    requires Join(ViewOf(s.store, user), user).complete && Small(ViewOf(s.store, user))
    ensures var u := Step(t, Serve(0));
            && u.loads.Keys == {0} && u.loads[0].answer.Some? && u.loads[0].user == user
            && Continue(u.loads[0], u.loads[0].answer.value) == Returns(Load(s.store, user).value, true)
  {
    var l := ServedLoad(t, 0);
    LastRound(ViewOf(s.store, user), l, s.cap);
    LoadIsJoin(s.store, user);
  }

  /** The state of that run in which the load has been sent its last page. */
  lemma LastPageServed(s: State, user: int) returns (u: State)
    requires Start(s) && s.cap >= 1000 && Load(s.store, user).complete && Small(ViewOf(s.store, user))
    ensures u == End(s, Rounds(user, 7) + [Serve(0)]) && u.step > 0
    ensures u.loads.Keys == {0} && u.loads[0].answer.Some? && u.loads[0].user == user
    ensures Continue(u.loads[0], u.loads[0].answer.value) == Returns(Load(s.store, user).value, true)
    ensures Load(s.store, user).value.user == user
  {
    LoadIsJoin(s.store, user);
    RoundsWait(s, user, 7);
    ServedLast(s, End(s, Rounds(user, 7)), user);
    EndSnoc(s, Rounds(user, 7), Serve(0));
    u := End(s, Rounds(user, 7) + [Serve(0)]);
  }

  /** On tables `later`, the old value is answered for exactly five minutes; then a new load begins. */
  predicate AnsweredFor(last: State, user: int, value: UserPermissions, later: Store, wait: nat) {
    && last.store == later && last.step > 0
    && if wait < 5 * 60 * 1000 then last.returned == Some(Returned(user, value)) && last.loads == map[]
       else last.returned == None && last.loads == map[last.step - 1 := Begin(user, last.step - 1)]
  }

  lemma AskedAgain(u: State, user: int, value: UserPermissions, later: Store, wait: nat)
    requires u.loads.Keys == {0} && u.loads[0].answer.Some? && u.loads[0].user == user && value.user == user
    requires Continue(u.loads[0], u.loads[0].answer.value) == Returns(value, true) && u.step > 0
    ensures AnsweredFor(Step(Step(Step(Step(Step(u, Write(later)), ClearCache(None)), Resume(0)), Tick(wait)),
            Call(user)),
                        user, value, later, wait)
  {
    var cleared := Step(Step(u, Write(later)), ClearCache(None));
    InsertKeepsOk([], user, value, u.now, u.now);
    assert cleared.loads == u.loads;
    assert Step(cleared, Resume(0)).cache == Insert([], user, value, u.now);
    assert Step(cleared, Resume(0)).loads == map[];
  }

  /**
   Clearing the cache does not shorten the bound, and nothing lengthens it:
   whatever the tables become, a load caught between its last read and its end
   answers for the old ones for exactly five minutes, to the millisecond; then the
   user is loaded anew.
   */
  lemma LateLoadOutlivesClear(s: State, user: int, later: Store, wait: nat)
    requires Start(s) && s.cap >= 1000 && Load(s.store, user).complete && Small(ViewOf(s.store, user))
    ensures AnsweredFor(End(s, LateLoad(user, later, wait)), user, Load(s.store, user).value, later, wait)
  {
    var u := LastPageServed(s, user);
    AskedAgain(u, user, Load(s.store, user).value, later, wait);
    EndOfRace(s, Rounds(user, 7) + [Serve(0)], user, later, wait);
  }

  lemma EndOfRace(s: State, es: seq<Event>, user: int, later: Store, wait: nat)
    ensures End(s, es + [Write(later)] + [ClearCache(None)] + [Resume(0)] + [Tick(wait)] + [Call(user)])
            == Step(Step(Step(Step(Step(End(s, es), Write(later)), ClearCache(None)), Resume(0)), Tick(wait)),
                Call(user))
  {
    EndSnoc(s, es, Write(later));
    EndSnoc(s, es + [Write(later)], ClearCache(None));
    EndSnoc(s, es + [Write(later)] + [ClearCache(None)], Resume(0));
    EndSnoc(s, es + [Write(later)] + [ClearCache(None)] + [Resume(0)], Tick(wait));
    EndSnoc(s, es + [Write(later)] + [ClearCache(None)] + [Resume(0)] + [Tick(wait)], Call(user));
  }
}
