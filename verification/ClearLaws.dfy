/**
 When clearing the cache takes effect at once: exactly when every load that is
 still running would, finished on the current tables, return the fresh join.
 */
module ClearLaws {
  import opened Wrappers
  import opened Paging
  import opened Store
  import opened Permissions
  import opened Interleaving
  import opened LoadLaws

  // ── What a running load will return ───────────────────────────────────────

  predicate AnswerFits(l: Loading) {
    l.answer.Some? ==> Fits(l.phase, l.answer.value)
  }

  /** The rows of the current list behind the load's offset. */
  function Remaining(st: Store, l: Loading): nat {
    var all := match l.phase
      case AssignmentPages => |AssignmentsOf(st, l.user)|
      case RolePages => |RolesIn(st, RoleIds(l.assignments))|
      case PermissionPages => |PermissionsIn(st, ActiveIds(l))|
      case _ => 0;
    if all > l.offset then all - l.offset else 0
  }

  /** The answer the load has, or else the one it would be served from these tables. */
  function NextAnswer(st: Store, cap: nat, l: Loading): Answer {
    if l.answer.Some? then l.answer.value else AnswerOf(st, cap, l)
  }

  lemma NextAnswerFits(st: Store, cap: nat, l: Loading)
    requires AnswerFits(l)
    ensures Fits(l.phase, NextAnswer(st, cap, l))
  {
  }

  lemma PageIsFull<T>(rows: seq<T>, offset: nat, cap: nat)
    ensures |Page(rows, offset, PAGE, cap)| >= PAGE ==> offset < |rows|
  {
  }

  /** Each continuation brings the load nearer to its end. */
  lemma ContinueIsNearer(st: Store, cap: nat, l: Loading)
    requires AnswerFits(l) && Continue(l, NextAnswer(st, cap, l)).Goes?
    ensures var l' := Continue(l, NextAnswer(st, cap, l)).l;
            && l'.answer.None? && l'.user == l.user
            && (Rank(l'.phase) > Rank(l.phase)
                || (l'.phase == l.phase && Remaining(st, l') <= Remaining(st, l)
                    && (l.answer.None? ==> Remaining(st, l') < Remaining(st, l))))
  {
    NextAnswerFits(st, cap, l);
    match l.phase
    case AssignmentPages => PageIsFull(AssignmentsOf(st, l.user), l.offset, cap);
    case RolePages => PageIsFull(RolesIn(st, RoleIds(l.assignments)), l.offset, cap);
    case PermissionPages => PageIsFull(PermissionsIn(st, ActiveIds(l)), l.offset, cap);
    case _ =>
  }

  /** What the load returns if it is finished on these tables. */
  function Finish(st: Store, cap: nat, l: Loading): UserPermissions
    requires AnswerFits(l)
    decreases 8 - Rank(l.phase), Remaining(st, l), if l.answer.Some? then 1 else 0
  {
    match Continue(l, NextAnswer(st, cap, l))
    case Returns(value, _) => value
    case Goes(l') => ContinueIsNearer(st, cap, l); Finish(st, cap, l')
  }

  // ── It depends neither on marks nor on when the answer is served ──────────

  predicate SameCore(l: Loading, m: Loading) {
    m == l.(answer := m.answer, assignmentsBy := m.assignmentsBy, rolesBy := m.rolesBy,
        permissionsBy := m.permissionsBy)
  }

  predicate SameNext(a: Next, b: Next) {
    match a
    case Returns(_, _) => b == a
    case Goes(l) => b.Goes? && SameCore(l, b.l) && l.answer == b.l.answer
  }

  lemma ContinueSameCore(l: Loading, m: Loading, a: Answer)
    requires SameCore(l, m)
    ensures SameNext(Continue(l, a), Continue(m, a))
  {
  }

  lemma SameCoreSameAnswer(st: Store, cap: nat, l: Loading, m: Loading)
    requires SameCore(l, m)
    ensures AnswerOf(st, cap, l) == AnswerOf(st, cap, m)
  {
  }

  lemma {:induction false} FinishSameCore(st: Store, cap: nat, l: Loading, m: Loading)
    requires AnswerFits(l) && AnswerFits(m) && SameCore(l, m) && NextAnswer(st, cap, l) == NextAnswer(st, cap, m)
    ensures Finish(st, cap, l) == Finish(st, cap, m)
    decreases 8 - Rank(l.phase), Remaining(st, l), if l.answer.Some? then 1 else 0
  {
    var a := NextAnswer(st, cap, l);
    ContinueSameCore(l, m, a);
    match Continue(l, a)
    case Returns(_, _) =>
    case Goes(l') =>
      var m' := Continue(m, a).l;
      ContinueIsNearer(st, cap, l);
      SameCoreSameAnswer(st, cap, l', m');
      FinishSameCore(st, cap, l', m');
  }

  lemma FinishServed(st: Store, cap: nat, l: Loading, step: nat)
    requires l.answer.None?
    ensures var l' := Served(l, AnswerOf(st, cap, l), step);
            AnswerFits(l') && l'.user == l.user && Finish(st, cap, l') == Finish(st, cap, l)
  {
    var l' := Served(l, AnswerOf(st, cap, l), step);
    FinishSameCore(st, cap, l, l');
  }

  // ── A load in step with the tables finishes with the join ─────────────────

  lemma ContinueIgnoresAnswer(l: Loading, x: Option<Answer>, a: Answer)
    ensures Continue(l.(answer := x), a) == Continue(l, a)
  {
  }

  lemma TracksFits(v: View, cap: nat, l: Loading)
    requires Tracks(v, cap, l)
    ensures AnswerFits(l)
  {
  }

  lemma AnsweredTracks(v: View, cap: nat, l: Loading, a: Answer)
    requires cap >= PAGE && Tracks(v, cap, l) && a == Expected(v, cap, l)
    ensures AsTheJoin(v, cap, l.user, Continue(l, a))
  {
    ContinueIgnoresAnswer(l, Some(a), a);
    TakeIn(v, cap, l.(answer := Some(a)));
  }

  lemma NextAnswerIsExpected(st: Store, cap: nat, l: Loading)
    requires Tracks(ViewOf(st, l.user), cap, l)
    ensures NextAnswer(st, cap, l) == Expected(ViewOf(st, l.user), cap, l)
  {
    AnswerIsExpected(st, cap, l);
  }

  lemma {:induction false} FinishIsJoin(st: Store, cap: nat, v: View, l: Loading)
    requires cap >= PAGE && v == ViewOf(st, l.user) && Tracks(v, cap, l) && AnswerFits(l)
    ensures Finish(st, cap, l) == Join(v, l.user).value
    decreases 8 - Rank(l.phase), Remaining(st, l), if l.answer.Some? then 1 else 0
  {
    var a := NextAnswer(st, cap, l);
    NextAnswerIsExpected(st, cap, l);
    AnsweredTracks(v, cap, l, a);
    match Continue(l, a)
    case Returns(_, _) =>
    case Goes(l') =>
      ContinueIsNearer(st, cap, l);
      FinishIsJoin(st, cap, v, l');
  }

  // ── The condition ─────────────────────────────────────────────────────────

  /** What holds of every reachable state. */
  ghost predicate WellFormed(s: State) {
    UniqueUsers(s.cache) && forall id :: id in s.loads ==> id < s.step && AnswerFits(s.loads[id])
  }

  /** Every valid entry is the fresh join. */
  ghost predicate EntriesFresh(s: State) {
    forall e :: e in s.cache && e.expiresAt > s.now ==> IsFresh(s.store, e.user, e.value)
  }

  /** Every running load will return it, finished on the current tables. */
  ghost predicate LoadsFresh(s: State)
    requires WellFormed(s)
  {
    forall id :: id in s.loads ==> IsFresh(s.store, s.loads[id].user, Finish(s.store, s.cap, s.loads[id]))
  }

  lemma InsertKeepsUniqueUsers(c: Cache, user: int, value: UserPermissions, now: nat)
    requires UniqueUsers(c)
    ensures UniqueUsers(Insert(c, user, value, now))
  {
    SelectKeepsUsers(c, (e: Entry) => e.expiresAt > now);
    var swept := Sweep(c, now);
    SelectKeepsUsers(swept, (e: Entry) => e.user != user);
    var others := Without(swept, user);
    assert forall e :: e in Evict(others) ==> e in others;
    UniqueAppend(Evict(others), Entry(user, value, now + CACHE_TTL));
  }

  lemma UniqueAppend(c: Cache, e: Entry)
    requires UniqueUsers(c) && forall x :: x in c ==> x.user != e.user
    ensures UniqueUsers(c + [e])
  {
    assert forall i :: 0 <= i < |c| ==> c[i] in c;
  }

  lemma ClearKeepsUniqueUsers(c: Cache, whom: Option<int>)
    requires UniqueUsers(c)
    ensures UniqueUsers(Clear(c, whom)) && forall e :: e in Clear(c, whom) ==> e in c
  {
    if whom.Some? && whom.value != 0 {
      SelectKeepsUsers(c, (e: Entry) => e.user != whom.value);
    }
  }

  lemma ContinueFits(l: Loading, a: Answer)
    ensures Continue(l, a).Goes? ==> AnswerFits(Continue(l, a).l) && Continue(l, a).l.user == l.user
  {
  }

  lemma ResumeKeepsWellFormed(s: State, id: nat)
    requires WellFormed(s)
    ensures WellFormed(Step(s, Resume(id)))
  {
    if id in s.loads && s.loads[id].answer.Some? {
      var l := s.loads[id];
      ContinueFits(l, l.answer.value);
      match Continue(l, l.answer.value)
      case Goes(_) =>
      case Returns(value, _) => InsertKeepsUniqueUsers(s.cache, l.user, value, s.now);
    }
  }

  lemma StepKeepsWellFormed(s: State, e: Event)
    requires WellFormed(s)
    ensures WellFormed(Step(s, e))
  {
    match e
    case Call(_) =>
    case Serve(id) =>
      if id in s.loads && s.loads[id].answer.None? {
        FinishServed(s.store, s.cap, s.loads[id], s.step);
      }
    case Resume(id) => ResumeKeepsWellFormed(s, id);
    case Fail(_) =>
    case Write(_) =>
    case ClearCache(whom) => ClearKeepsUniqueUsers(s.cache, whom);
    case Tick(_) =>
  }

  lemma {:induction false} RunKeepsWellFormed(s: State, es: seq<Event>)
    requires WellFormed(s)
    ensures WellFormed(Last(Run(s, es)))
  {
    if es != [] {
      RunKeepsWellFormed(s, es[..|es| - 1]);
      StepKeepsWellFormed(Last(Run(s, es[..|es| - 1])), es[|es| - 1]);
    }
  }

  // ── It is kept ────────────────────────────────────────────────────────────

  ghost predicate Ready(s: State) {
    WellFormed(s) && EntriesFresh(s) && LoadsFresh(s)
  }

  ghost predicate AnswerFresh(s: State, st: Store) {
    s.returned.Some? ==> IsFresh(st, s.returned.value.user, s.returned.value.value)
  }

  lemma CallKeepsReady(s: State, user: int)
    requires Ready(s) && s.cap >= PAGE
    ensures Ready(Step(s, Call(user))) && AnswerFresh(Step(s, Call(user)), s.store)
  {
    StepKeepsWellFormed(s, Call(user));
    if Hit(s.cache, user, s.now).Some? {
      assert Lookup(s.cache, user).value in s.cache;
    } else {
      BeginTracks(s, Call(user), ViewOf(s.store, user));
      FinishIsJoin(s.store, s.cap, ViewOf(s.store, user), Begin(user, s.step));
      LoadIsJoin(s.store, user);
    }
  }

  lemma ServeKeepsReady(s: State, id: nat)
    requires Ready(s)
    ensures Ready(Step(s, Serve(id))) && AnswerFresh(Step(s, Serve(id)), s.store)
  {
    StepKeepsWellFormed(s, Serve(id));
    if id in s.loads && s.loads[id].answer.None? {
      FinishServed(s.store, s.cap, s.loads[id], s.step);
    }
  }

  lemma ResumeKeepsReady(s: State, id: nat)
    requires Ready(s)
    ensures Ready(Step(s, Resume(id))) && AnswerFresh(Step(s, Resume(id)), s.store)
  {
    StepKeepsWellFormed(s, Resume(id));
    if id in s.loads && s.loads[id].answer.Some? {
      var l := s.loads[id];
      ContinueFits(l, l.answer.value);
      assert IsFresh(s.store, l.user, Finish(s.store, s.cap, l));
      match Continue(l, l.answer.value)
      case Goes(_) =>
      case Returns(value, _) => InsertMembers(s.cache, l.user, value, s.now);
    }
  }

  lemma StepKeepsReady(s: State, e: Event)
    requires Ready(s) && s.cap >= PAGE && !e.Write?
    ensures var t := Step(s, e); Ready(t) && t.store == s.store && t.cap == s.cap && AnswerFresh(t, s.store)
  {
    StepKeepsWellFormed(s, e);
    match e
    case Call(user) => CallKeepsReady(s, user);
    case Serve(id) => ServeKeepsReady(s, id);
    case Resume(id) => ResumeKeepsReady(s, id);
    case Fail(_) =>
    case ClearCache(whom) => ClearKeepsUniqueUsers(s.cache, whom);
    case Tick(_) =>
  }

  predicate NoWrites(es: seq<Event>) {
    forall e :: e in es ==> !e.Write?
  }

  lemma {:induction false} ReadyStays(s: State, es: seq<Event>)
    requires Ready(s) && s.cap >= PAGE && NoWrites(es)
    ensures var t := Last(Run(s, es));
            && Ready(t) && t.store == s.store && t.cap == s.cap && (es != [] ==> AnswerFresh(t, s.store))
  {
    if es != [] {
      var front, last := es[..|es| - 1], es[|es| - 1];
      assert last in es && forall e :: e in front ==> e in es;
      ReadyStays(s, front);
      StepKeepsReady(Last(Run(s, front)), last);
    }
  }

  // ── It is needed ──────────────────────────────────────────────────────────

  lemma {:induction false} RunCons(s: State, e: Event, es: seq<Event>)
    ensures Last(Run(s, [e] + es)) == Last(Run(Step(s, e), es))
  {
    var all := [e] + es;
    if es == [] {
      assert all[..0] == [] && all == [e];
    } else {
      assert all[..|all| - 1] == [e] + es[..|es| - 1];
      RunCons(s, e, es[..|es| - 1]);
    }
  }

  lemma ServeThenResume(s: State, id: nat)
    requires WellFormed(s) && id in s.loads && s.loads[id].answer.None?
    ensures var t := Step(s, Serve(id));
            && WellFormed(t) && id in t.loads && t.loads[id].answer.Some? && t.store == s.store && t.cap == s.cap
            && SameCore(s.loads[id], t.loads[id]) && t.loads[id].answer.value == AnswerOf(s.store, s.cap, s.loads[id])
            && t.loads[id].user == s.loads[id].user
            && Finish(t.store, t.cap, t.loads[id]) == Finish(s.store, s.cap, s.loads[id])
  {
    StepKeepsWellFormed(s, Serve(id));
    FinishServed(s.store, s.cap, s.loads[id], s.step);
  }

  lemma ResumeOne(s: State, id: nat)
    requires WellFormed(s) && id in s.loads && s.loads[id].answer.Some?
    ensures var l, t := s.loads[id], Step(s, Resume(id));
            && WellFormed(t) && t.store == s.store && t.cap == s.cap
            && match Continue(l, l.answer.value)
               case Returns(value, _) =>
                 t.returned == Some(Returned(l.user, value)) && value == Finish(s.store, s.cap, l)
               case Goes(l') =>
                 id in t.loads && t.loads[id] == l' && l'.user == l.user
                 && Finish(t.store, t.cap, l') == Finish(s.store, s.cap, l)
  {
    StepKeepsWellFormed(s, Resume(id));
    ContinueFits(s.loads[id], s.loads[id].answer.value);
  }

  /** Left alone with the server, a load returns what `Finish` says. */
  lemma {:induction false} FinishesAlone(s: State, id: nat) returns (es: seq<Event>)
    requires WellFormed(s) && id in s.loads
    ensures es != [] && NoWrites(es)
    ensures Last(Run(s, es)).returned == Some(Returned(s.loads[id].user, Finish(s.store, s.cap, s.loads[id])))
    decreases 8 - Rank(s.loads[id].phase), Remaining(s.store, s.loads[id]), if s.loads[id].answer.Some? then 1 else 0
  {
    var l := s.loads[id];
    if l.answer.None? {
      ServeThenResume(s, id);
      var t := Step(s, Serve(id));
      var rest := AnsweredFinishesAlone(s, t, id);
      es := [Serve(id)] + rest;
      RunCons(s, Serve(id), rest);
    } else {
      es := AnsweredFinishesAlone(s, s, id);
    }
  }

  /** From `t`, which is `s` or `s` with the answer of its load served. */
  lemma {:induction false} AnsweredFinishesAlone(s: State, t: State, id: nat) returns (es: seq<Event>)
    requires WellFormed(s) && WellFormed(t) && id in s.loads && id in t.loads && t.loads[id].answer.Some?
    requires t.store == s.store && t.cap == s.cap && SameCore(s.loads[id], t.loads[id])
    requires t.loads[id].answer.value == NextAnswer(s.store, s.cap, s.loads[id])
    ensures es != [] && NoWrites(es)
    ensures Last(Run(t, es)).returned == Some(Returned(t.loads[id].user, Finish(t.store, t.cap, t.loads[id])))
    decreases 8 - Rank(s.loads[id].phase), Remaining(s.store, s.loads[id]), if s.loads[id].answer.Some? then 1
        else 0, 0
  {
    var l, m := s.loads[id], t.loads[id];
    var a := m.answer.value;
    ResumeOne(t, id);
    match Continue(m, a)
    case Returns(_, _) =>
      es := [Resume(id)];
      RunCons(t, Resume(id), []);
    case Goes(m') =>
      ContinueSameCore(l, m, a);
      ContinueIsNearer(s.store, s.cap, l);
      SameCoreSameRemaining(s.store, Continue(l, a).l, m');
      var u := Step(t, Resume(id));
      var rest := FinishesAlone(u, id);
      es := [Resume(id)] + rest;
      RunCons(t, Resume(id), rest);
  }

  lemma SameCoreSameRemaining(st: Store, l: Loading, m: Loading)
    requires SameCore(l, m)
    ensures Remaining(st, l) == Remaining(st, m) && l.phase == m.phase
  {
  }

  lemma {:induction false} LookupUnique(c: Cache, e: Entry)
    requires UniqueUsers(c) && e in c
    ensures Lookup(c, e.user) == Some(e)
  {
    if c[0] != e {
      assert e in c[1..];
      var i :| 0 <= i < |c| && c[i] == e;
      assert c[0].user != c[i].user;
      LookupUnique(c[1..], e);
    }
  }

  /** The answer of the last step of a continuation without writes. */
  ghost predicate AnswersFresh(s: State, es: seq<Event>) {
    es != [] && NoWrites(es) ==> AnswerFresh(Last(Run(s, es)), s.store)
  }

  ghost predicate AlwaysFresh(s: State) {
    forall es :: AnswersFresh(s, es)
  }

  lemma ValidEntryIsAnswered(s: State, e: Entry)
    requires WellFormed(s) && AlwaysFresh(s) && e in s.cache && e.expiresAt > s.now
    ensures IsFresh(s.store, e.user, e.value)
  {
    LookupUnique(s.cache, e);
    var es := [Call(e.user)];
    RunCons(s, Call(e.user), []);
    assert es == es + [];
    assert AnswersFresh(s, es);
  }

  lemma RunningLoadIsAnswered(s: State, id: nat)
    requires WellFormed(s) && AlwaysFresh(s) && id in s.loads
    ensures IsFresh(s.store, s.loads[id].user, Finish(s.store, s.cap, s.loads[id]))
  {
    var es := FinishesAlone(s, id);
    assert AnswersFresh(s, es);
  }

  /**
   From a state on, as long as nothing is written, every answer is the fresh join
   exactly when every valid entry is and every running load will return it.
   */
  lemma AnswersAreFreshIff(s: State)
    requires WellFormed(s) && s.cap >= 1000
    ensures AlwaysFresh(s) <==> EntriesFresh(s) && LoadsFresh(s)
  {
    if AlwaysFresh(s) {
      forall e | e in s.cache && e.expiresAt > s.now ensures IsFresh(s.store, e.user, e.value) {
        ValidEntryIsAnswered(s, e);
      }
      forall id | id in s.loads ensures IsFresh(s.store, s.loads[id].user, Finish(s.store, s.cap, s.loads[id])) {
        RunningLoadIsAnswered(s, id);
      }
    }
    if EntriesFresh(s) && LoadsFresh(s) {
      forall es ensures AnswersFresh(s, es) {
        if es != [] && NoWrites(es) {
          ReadyStays(s, es);
        }
      }
    }
  }

  /**
   A clear after any run takes effect at once, so that every answer until the next
   write is the fresh join, exactly when every load still running will return it.
   */
  lemma ClearTakesEffectIff(start: State, run: seq<Event>)
    requires Start(start) && start.cap >= 1000
    ensures WellFormed(Last(Run(start, run)))
    ensures AlwaysFresh(Step(Last(Run(start, run)), ClearCache(None))) <==> LoadsFresh(Last(Run(start, run)))
  {
    RunKeepsWellFormed(start, run);
    RunFollows(start, run);
    RunCounts(Run(start, run), run, |run|);
    var s := Last(Run(start, run));
    var cleared := Step(s, ClearCache(None));
    StepKeepsWellFormed(s, ClearCache(None));
    AnswersAreFreshIff(cleared);
  }
}
