/**
 The client's 401 → refresh → retry interceptors, split at the one point where
 they wait (`await onRefresh()`): everything between two waits is atomic.
 */
module HttpClient {
  import opened Wrappers

  /**
   A token and the session it was issued for. The session is not visible to the
   client; carrying it here says that tokens of different sessions differ.
   */
  datatype Token = Token(session: nat, serial: nat)

  datatype TokenPair = TokenPair(access: Token, refresh: Option<Token>)

  const UNAUTHORIZED := 401

  function AccessOf(p: Option<TokenPair>): Option<Token> {
    if p.Some? then Some(p.value.access) else None
  }

  function RefreshOf(p: Option<TokenPair>): Option<Token> {
    if p.Some? then p.value.refresh else None
  }

  /** Compares the two tokens of two storage reads by value. */
  predicate SameSession(a: Option<TokenPair>, b: Option<TokenPair>) {
    AccessOf(a) == AccessOf(b) && RefreshOf(a) == RefreshOf(b)
  }

  lemma SameSessionIsEquality(a: Option<TokenPair>, b: Option<TokenPair>)
    ensures SameSession(a, b) <==> a == b
  {
  }

  /** Whether a rejected response starts a refresh. */
  predicate StartsRefresh(status: nat, retried: bool, isRefreshing: bool, canRefresh: bool) {
    status == UNAUTHORIZED && !retried && !isRefreshing && canRefresh
  }

  /** Whether the refreshed token may be stored and the request sent again. */
  predicate MayStore(now: Option<TokenPair>, before: Option<TokenPair>, newToken: Token) {
    now.Some? && (SameSession(now, before) || now.value.access == newToken)
  }

  /** The storage after a refresh that returned a token. */
  function StoredAfter(now: Option<TokenPair>, before: Option<TokenPair>, newToken: Token): Option<TokenPair> {
    if MayStore(now, before, newToken) then Some(now.value.(access := newToken)) else now
  }

  /** The configuration object of a request; `header` is its Authorization header. */
  class RequestConfig {
    var retryFlag: bool
    var header: Option<Token>

    constructor ()
      ensures !retryFlag && header == None
    {
      retryFlag := false;
      header := None;
    }
  }

  /** The shared instance: the captured `isRefreshing` variable and the token storage. */
  class Client {
    var tokens: Option<TokenPair>
    var isRefreshing: bool
    const canRefresh: bool

    constructor (canRefresh: bool)
      ensures tokens == None && !isRefreshing && this.canRefresh == canRefresh
    {
      this.canRefresh := canRefresh;
      tokens := None;
      isRefreshing := false;
    }

    /** Request interceptor. */
    method AttachToken(config: RequestConfig)
      modifies config
      ensures config.header == if tokens.Some? then Some(tokens.value.access) else old(config.header)
      ensures config.retryFlag == old(config.retryFlag)
    {
      if tokens.Some? {
        config.header := Some(tokens.value.access);
      }
    }

    /**
     Response interceptor up to the call of `onRefresh`: either the error is
     propagated, or the refresh begins and the storage read before it is kept.
     */
    method OnError(config: RequestConfig, status: nat) returns (pending: bool, sessionBefore: Option<TokenPair>)
      modifies this`isRefreshing, config`retryFlag
      ensures pending == (status == 401 && !old(config.retryFlag) && !old(isRefreshing) && canRefresh)
      ensures isRefreshing == (pending || old(isRefreshing))
      ensures config.retryFlag == (pending || old(config.retryFlag))
      ensures tokens == old(tokens) && sessionBefore == if pending then tokens else None
    {
      pending, sessionBefore := false, None;
      if status == UNAUTHORIZED && !config.retryFlag && !isRefreshing && canRefresh {
        config.retryFlag := true;
        isRefreshing := true;
        sessionBefore := tokens;
        pending := true;
      }
    }

    /** The callback threw: the tokens are dropped and the original error is propagated. */
    method OnRefreshFailed()
      modifies this
      ensures tokens == None && !isRefreshing
    {
      tokens := None;
      isRefreshing := false;
    }

    /** The callback returned a token. */
    method OnRefreshed(sessionBefore: Option<TokenPair>, newAccessToken: Token) returns (retry: bool)
      modifies this
      ensures !isRefreshing
      ensures retry == MayStore(old(tokens), sessionBefore, newAccessToken)
      ensures tokens == StoredAfter(old(tokens), sessionBefore, newAccessToken)
    {
      isRefreshing := false;
      var sessionNow := tokens;
      var unchangedSession := SameSession(sessionNow, sessionBefore);
      var storedByCallback := AccessOf(sessionNow) == Some(newAccessToken);
      if sessionNow == None || (!unchangedSession && !storedByCallback) {
        return false;
      }
      tokens := Some(sessionNow.value.(access := newAccessToken));
      return true;
    }
  }

  function HeaderAfter(tokens: Option<TokenPair>, header: Option<Token>): Option<Token> {
    if tokens.Some? then Some(tokens.value.access) else header
  }

  // ── The protocol as a step system over arbitrarily many requests ──────────

  datatype Phase =
    | Sending                                   // handed to the instance, request interceptor still to run
    | InFlight                                  // sent, waiting for the response
    | Refreshing(before: Option<TokenPair>)     // waiting for onRefresh
    | Succeeded
    | Failed(status: nat)

  /** A request of a caller. `sends` and `refreshes` only count, for the statements below. */
  datatype Request = Request(phase: Phase, retried: bool, header: Option<Token>, sends: nat, refreshes: nat)

  datatype State = State(tokens: Option<TokenPair>, isRefreshing: bool, requests: map<nat, Request>)

  datatype Event =
    | Issue(r: nat)                     // a caller issues a request
    | Attach(r: nat)                    // the request interceptor runs and the request is sent
    | Respond(r: nat, status: nat)      // a response, or 0 for a network error
    | RefreshOk(r: nat, token: Token)   // onRefresh returns a token
    | RefreshFail(r: nat)               // onRefresh throws
    | SetTokens(pair: TokenPair)        // sign-in, or the callback storing a rotated pair
    | ClearTokens                       // sign-out

  const Initial := State(None, false, map[])

  predicate IsSuccess(status: nat) {
    200 <= status < 300
  }

  predicate Enabled(s: State, e: Event) {
    match e
    case Issue(r) => r !in s.requests
    case Attach(r) => r in s.requests && s.requests[r].phase.Sending?
    case Respond(r, _) => r in s.requests && s.requests[r].phase.InFlight?
    case RefreshOk(r, _) => r in s.requests && s.requests[r].phase.Refreshing?
    case RefreshFail(r) => r in s.requests && s.requests[r].phase.Refreshing?
    case SetTokens(_) => true
    case ClearTokens => true
  }

  function Apply(s: State, e: Event, canRefresh: bool): State
    requires Enabled(s, e)
  {
    match e
    case Issue(r) => s.(requests := s.requests[r := Request(Sending, false, None, 0, 0)])
    case Attach(r) =>
      var q := s.requests[r];
      s.(requests := s.requests[r :=
          q.(phase := InFlight, header := HeaderAfter(s.tokens, q.header), sends := q.sends + 1)])
    case Respond(r, status) =>
      var q := s.requests[r];
      if IsSuccess(status) then
        s.(requests := s.requests[r := q.(phase := Succeeded)])
      else if StartsRefresh(status, q.retried, s.isRefreshing, canRefresh) then
        s.(isRefreshing := true,
           requests := s.requests[r :=
               q.(phase := Refreshing(s.tokens), retried := true, refreshes := q.refreshes + 1)])
      else
        s.(requests := s.requests[r := q.(phase := Failed(status))])
    case RefreshOk(r, token) =>
      var q := s.requests[r];
      var next := if MayStore(s.tokens, q.phase.before, token) then Sending else Failed(UNAUTHORIZED);
      State(StoredAfter(s.tokens, q.phase.before, token), false, s.requests[r := q.(phase := next)])
    case RefreshFail(r) =>
      State(None, false, s.requests[r := s.requests[r].(phase := Failed(UNAUTHORIZED))])
    case SetTokens(pair) => s.(tokens := Some(pair))
    case ClearTokens => s.(tokens := None)
  }

  predicate PairOk(p: TokenPair) {
    p.refresh.Some? ==> p.refresh.value.session == p.access.session
  }

  /**
   What the environment promises: a pair handed to the storage belongs to one
   session, and a refresh returns a token of the session stored when it began.
   */
  predicate Contract(s: State, e: Event)
    requires Enabled(s, e)
  {
    match e
    case SetTokens(pair) => PairOk(pair)
    case RefreshOk(r, token) =>
      var before := s.requests[r].phase.before;
      before.Some? ==> token.session == before.value.access.session
    case _ => true
  }

  /** A run: every event is possible and keeps the contract where it happens. */
  predicate Run(s: State, es: seq<Event>, canRefresh: bool)
    decreases |es|
  {
    es == [] || (Enabled(s, es[0]) && Contract(s, es[0]) && Run(Apply(s, es[0], canRefresh), es[1..], canRefresh))
  }

  function After(s: State, es: seq<Event>, canRefresh: bool): State
    requires Run(s, es, canRefresh)
    decreases |es|
  {
    if es == [] then s else After(Apply(s, es[0], canRefresh), es[1..], canRefresh)
  }

  // ── The invariant ─────────────────────────────────────────────────────────

  /** Where a request is in its life, and how often it was sent and refreshed by then. */
  predicate RequestOk(q: Request) {
    && q.refreshes == (if q.retried then 1 else 0)
    && match q.phase
       case Sending => q.sends == q.refreshes
       case InFlight => q.sends == q.refreshes + 1
       case Refreshing(before) => q.retried && q.sends == 1 && (before.Some? ==> PairOk(before.value))
       case Succeeded => 1 <= q.sends <= q.refreshes + 1
       case Failed(_) => 1 <= q.sends <= q.refreshes + 1
  }

  predicate IsPending(s: State, r: nat) {
    r in s.requests && s.requests[r].phase.Refreshing?
  }

  ghost predicate Inv(s: State) {
    && (s.tokens.Some? ==> PairOk(s.tokens.value))
    && (forall r :: r in s.requests ==> RequestOk(s.requests[r]))
    && (s.isRefreshing <==> exists r :: IsPending(s, r))
    && (forall r, q :: IsPending(s, r) && IsPending(s, q) ==> r == q)
  }

  lemma StepKeepsInv(s: State, e: Event, canRefresh: bool)
    requires Inv(s) && Enabled(s, e) && Contract(s, e)
    ensures Inv(Apply(s, e, canRefresh))
  {
    var t := Apply(s, e, canRefresh);
    match e
    case Issue(r) => assert forall q :: IsPending(t, q) <==> IsPending(s, q);
    case Attach(r) => assert forall q :: IsPending(t, q) <==> IsPending(s, q);
    case Respond(r, status) =>
      assert forall q :: q != r ==> (IsPending(t, q) <==> IsPending(s, q));
      if t.requests[r].phase.Refreshing? { assert IsPending(t, r); }
      else { assert forall q :: IsPending(t, q) <==> IsPending(s, q); }
    case RefreshOk(r, token) =>
      assert IsPending(s, r);
      forall q ensures !IsPending(t, q) {
        assert IsPending(t, q) ==> q != r && IsPending(s, q);
      }
    case RefreshFail(r) =>
      assert IsPending(s, r);
      forall q ensures !IsPending(t, q) {
        assert IsPending(t, q) ==> q != r && IsPending(s, q);
      }
    case SetTokens(pair) => assert forall q :: IsPending(t, q) <==> IsPending(s, q);
    case ClearTokens => assert forall q :: IsPending(t, q) <==> IsPending(s, q);
  }

  lemma {:induction false} RunKeepsInv(s: State, es: seq<Event>, canRefresh: bool)
    requires Inv(s) && Run(s, es, canRefresh)
    ensures Inv(After(s, es, canRefresh))
    decreases |es|
  {
    if es != [] {
      StepKeepsInv(s, es[0], canRefresh);
      RunKeepsInv(Apply(s, es[0], canRefresh), es[1..], canRefresh);
    }
  }

  /** The stored pair never joins tokens of two sessions, in any run. */
  lemma NoSessionMixing(es: seq<Event>, canRefresh: bool)
    requires Run(Initial, es, canRefresh)
    ensures var tokens := After(Initial, es, canRefresh).tokens;
            tokens.Some? && tokens.value.refresh.Some? ==>
              tokens.value.access.session == tokens.value.refresh.value.session
  {
    RunKeepsInv(Initial, es, canRefresh);
  }

  /** At most one refresh is pending, and the lock is set exactly while one is. */
  lemma OneRefreshAtATime(es: seq<Event>, canRefresh: bool)
    requires Run(Initial, es, canRefresh)
    ensures var s := After(Initial, es, canRefresh);
            (s.isRefreshing <==> exists r :: IsPending(s, r))
            && forall r, q :: IsPending(s, r) && IsPending(s, q) ==> r == q
  {
    RunKeepsInv(Initial, es, canRefresh);
  }

  /** A request is sent at most twice and causes at most one refresh; without a callback, once and none. */
  lemma SentAtMostTwice(es: seq<Event>, canRefresh: bool, r: nat)
    requires Run(Initial, es, canRefresh) && r in After(Initial, es, canRefresh).requests
    ensures var q := After(Initial, es, canRefresh).requests[r];
            q.sends <= 2 && q.refreshes <= 1 && (q.sends == 2 ==> q.refreshes == 1)
    ensures !canRefresh ==> After(Initial, es, canRefresh).requests[r].sends <= 1
  {
    RunKeepsInv(Initial, es, canRefresh);
    if !canRefresh {
      NoCallbackNoRetry(Initial, es);
      assert RequestOk(After(Initial, es, canRefresh).requests[r]);
    }
  }

  predicate NeverRetried(s: State) {
    forall r :: r in s.requests ==> !s.requests[r].retried && !s.requests[r].phase.Refreshing?
  }

  lemma {:induction false} NoCallbackNoRetry(s: State, es: seq<Event>)
    requires Run(s, es, false) && NeverRetried(s)
    ensures NeverRetried(After(s, es, false))
    decreases |es|
  {
    if es != [] {
      NoCallbackNoRetry(Apply(s, es[0], false), es[1..]);
    }
  }

  // ── Signing out and switching accounts while a refresh is pending ─────────

  predicate Settled(q: Request) {
    q.phase.Succeeded? || q.phase.Failed?
  }

  predicate IsSettled(s: State, r: nat) {
    r in s.requests && Settled(s.requests[r])
  }

  /** A settled request stays as it is in every continuation: it is never sent again. */
  lemma {:induction false} SettledStays(s: State, es: seq<Event>, r: nat, canRefresh: bool)
    requires Run(s, es, canRefresh) && IsSettled(s, r)
    ensures IsSettled(After(s, es, canRefresh), r) && After(s, es, canRefresh).requests[r] == s.requests[r]
    decreases |es|
  {
    if es != [] {
      SettledStays(Apply(s, es[0], canRefresh), es[1..], r, canRefresh);
    }
  }

  /** An empty storage stays empty until the next sign-in. */
  lemma {:induction false} EmptyStaysEmpty(s: State, es: seq<Event>, canRefresh: bool)
    requires Run(s, es, canRefresh) && s.tokens == None
    requires forall i :: 0 <= i < |es| ==> !es[i].SetTokens?
    ensures After(s, es, canRefresh).tokens == None
    decreases |es|
  {
    if es != [] {
      assert !es[0].SetTokens?;
      EmptyStaysEmpty(Apply(s, es[0], canRefresh), es[1..], canRefresh);
    }
  }

  /**
   A refresh that completes on an empty storage ends its request for good: in
   every continuation it is not sent again, and until someone signs in the
   storage stays empty.
   */
  lemma SignedOutStaysSignedOut(s: State, r: nat, token: Token, es: seq<Event>, canRefresh: bool)
    requires Enabled(s, RefreshOk(r, token)) && s.tokens == None
    requires Run(Apply(s, RefreshOk(r, token), canRefresh), es, canRefresh)
    ensures var t := After(Apply(s, RefreshOk(r, token), canRefresh), es, canRefresh);
            && IsSettled(t, r) && t.requests[r].phase == Failed(401)
            && t.requests[r].sends == s.requests[r].sends
            && ((forall i :: 0 <= i < |es| ==> !es[i].SetTokens?) ==> t.tokens == None)
  {
    SettledStays(Apply(s, RefreshOk(r, token), canRefresh), es, r, canRefresh);
    if forall i :: 0 <= i < |es| ==> !es[i].SetTokens? {
      EmptyStaysEmpty(Apply(s, RefreshOk(r, token), canRefresh), es, canRefresh);
    }
  }

  // ── Which response leads to a retry ───────────────────────────────────────

  /** Some continuation sends the request again. */
  ghost predicate CanBeSentAgain(s: State, r: nat, canRefresh: bool)
    requires r in s.requests
  {
    exists es :: SentAgain(s, r, es, canRefresh)
  }

  predicate SentAgain(s: State, r: nat, es: seq<Event>, canRefresh: bool)
    requires r in s.requests
  {
    && Run(s, es, canRefresh)
    && r in After(s, es, canRefresh).requests
    && After(s, es, canRefresh).requests[r].sends > s.requests[r].sends
  }

  /** A continuation in which the callback stores the refreshed token itself. */
  lemma PendingCanBeSentAgain(s: State, r: nat, canRefresh: bool)
    requires Enabled(s, RefreshFail(r))
    ensures CanBeSentAgain(s, r, canRefresh)
  {
    var before := s.requests[r].phase.before;
    var token := Token(if before.Some? then before.value.access.session else 0, 0);
    var store, refreshed := SetTokens(TokenPair(token, None)), RefreshOk(r, token);
    RunSnoc(s, [], store, canRefresh);
    RunSnoc(s, [] + [store], refreshed, canRefresh);
    RunSnoc(s, [] + [store] + [refreshed], Attach(r), canRefresh);
    assert SentAgain(s, r, [] + [store] + [refreshed] + [Attach(r)], canRefresh);
  }

  /** Every send carries the access token stored at that moment, or the header as it was if none is. */
  lemma SendsCarryStoredToken(s: State, r: nat, canRefresh: bool)
    requires Enabled(s, Attach(r))
    ensures var t := Apply(s, Attach(r), canRefresh);
            && t.requests[r].phase == InFlight && t.requests[r].sends == s.requests[r].sends + 1
            && t.requests[r].header == (if s.tokens.Some? then Some(s.tokens.value.access) else s.requests[r].header)
            && t.tokens == s.tokens && t.isRefreshing == s.isRefreshing && t.requests - {r} == s.requests - {r}
  {
  }

  /** A request begins unsent and without a header. */
  lemma IssuedIsUnsent(s: State, r: nat, canRefresh: bool)
    requires Enabled(s, Issue(r))
    ensures var t := Apply(s, Issue(r), canRefresh);
            t == s.(requests := s.requests[r := Request(Sending, false, None, 0, 0)])
  {
  }

  /**
   A 2xx succeeds. Any other answer but a 401 fails the request with its status,
   and so does a 401 that may not refresh; tokens, lock and the other requests
   stay as they are. The 401 that may refresh takes the lock and keeps the tokens
   it was sent beside.
   */
  lemma RespondSettlesOrRefreshes(s: State, r: nat, status: nat, canRefresh: bool)
    requires Enabled(s, Respond(r, status))
    ensures var q, t := s.requests[r], Apply(s, Respond(r, status), canRefresh);
            && t.tokens == s.tokens && t.requests - {r} == s.requests - {r} && t.requests[r].sends == q.sends
            && if 200 <= status < 300 then t.requests[r].phase == Succeeded && t.isRefreshing == s.isRefreshing
               else if status == 401 && canRefresh && !q.retried && !s.isRefreshing
               then t.requests[r].phase == Refreshing(s.tokens) && t.requests[r].retried && t.isRefreshing
               else t.requests[r].phase == Failed(status) && t.isRefreshing == s.isRefreshing
  {
  }

  /** A refresh that throws fails the request with its 401, empties the storage and frees the lock. */
  lemma FailedRefreshFails(s: State, r: nat, canRefresh: bool)
    requires Enabled(s, RefreshFail(r))
    ensures var t := Apply(s, RefreshFail(r), canRefresh);
            && t.requests[r].phase == Failed(401) && t.tokens == None && !t.isRefreshing
            && t.requests[r].sends == s.requests[r].sends && t.requests - {r} == s.requests - {r}
  {
  }

  /**
   After any answer, some continuation sends the request again exactly if it was
   the first 401 of the request, with a callback, while no other refresh is
   pending; after every other answer it is settled, whatever happens later.
   */
  lemma ResponseIsRetriedIff(s: State, r: nat, status: nat, canRefresh: bool)
    requires Inv(s) && Enabled(s, Respond(r, status))
    ensures CanBeSentAgain(Apply(s, Respond(r, status), canRefresh), r, canRefresh)
            <==> status == 401 && canRefresh && !s.requests[r].retried && forall q :: !IsPending(s, q)
  {
    var t := Apply(s, Respond(r, status), canRefresh);
    RespondSettlesOrRefreshes(s, r, status, canRefresh);
    assert s.isRefreshing <==> !forall q :: !IsPending(s, q);
    if t.requests[r].phase.Refreshing? {
      PendingCanBeSentAgain(t, r, canRefresh);
    } else {
      forall es ensures !SentAgain(t, r, es, canRefresh) {
        if Run(t, es, canRefresh) {
          SettledStays(t, es, r, canRefresh);
        }
      }
    }
  }

  /** Of the 401s the documentation promises a refresh and a retry for, it holds exactly for those. */
  lemma UnauthorizedIsRetriedIff(s: State, r: nat, canRefresh: bool)
    requires Inv(s) && Enabled(s, Respond(r, 401))
    ensures CanBeSentAgain(Apply(s, Respond(r, 401), canRefresh), r, canRefresh)
            <==> canRefresh && !s.requests[r].retried && forall q :: !IsPending(s, q)
  {
    ResponseIsRetriedIff(s, r, 401, canRefresh);
  }

  /**
   A run in which two requests are answered 401 while signed in: the refresh of
   the first succeeds and it is retried, the second is lost although a valid
   token is stored.
   */
  lemma SecondUnauthorizedIsLost() returns (es: seq<Event>)
    ensures Run(Initial, es, true)
    ensures var s := After(Initial, es, true);
            && s.tokens == Some(TokenPair(Token(1, 1), None))
            && IsSettled(s, 0) && s.requests[0].phase == Succeeded && s.requests[0].sends == 2
            && IsSettled(s, 1) && s.requests[1].phase == Failed(401) && s.requests[1].sends == 1
  {
    es := TwoInFlight();
    RunSnoc(Initial, es, Respond(0, UNAUTHORIZED), true);
    es := es + [Respond(0, UNAUTHORIZED)];
    RunSnoc(Initial, es, Respond(1, UNAUTHORIZED), true);
    es := es + [Respond(1, UNAUTHORIZED)];
    RunSnoc(Initial, es, RefreshOk(0, Token(1, 1)), true);
    es := es + [RefreshOk(0, Token(1, 1))];
    RunSnoc(Initial, es, Attach(0), true);
    es := es + [Attach(0)];
    RunSnoc(Initial, es, Respond(0, 200), true);
    es := es + [Respond(0, 200)];
  }

  /** A signed-in user with two requests on the way. */
  lemma TwoInFlight() returns (es: seq<Event>)
    ensures Run(Initial, es, true)
    ensures var sent := Request(InFlight, false, Some(Token(1, 0)), 1, 0);
            After(Initial, es, true) == State(Some(TokenPair(Token(1, 0), None)), false, map[0 := sent, 1 := sent])
  {
    es := [];
    RunSnoc(Initial, es, SetTokens(TokenPair(Token(1, 0), None)), true);
    es := es + [SetTokens(TokenPair(Token(1, 0), None))];
    RunSnoc(Initial, es, Issue(0), true);
    es := es + [Issue(0)];
    RunSnoc(Initial, es, Attach(0), true);
    es := es + [Attach(0)];
    RunSnoc(Initial, es, Issue(1), true);
    es := es + [Issue(1)];
    RunSnoc(Initial, es, Attach(1), true);
    es := es + [Attach(1)];
  }

  /**
   A successful refresh touches the storage only if it still holds what it held
   when the refresh began, and then replaces the access token alone; any other
   pair signed in meanwhile is left as it is.
   */
  lemma RefreshOnlyTouchesItsSession(s: State, r: nat, token: Token, canRefresh: bool)
    requires Enabled(s, RefreshOk(r, token))
    ensures var before := s.requests[r].phase.before;
            var t := Apply(s, RefreshOk(r, token), canRefresh);
            t.tokens == (if before.Some? && s.tokens == before
                         then Some(before.value.(access := token)) else s.tokens)
    ensures var t := Apply(s, RefreshOk(r, token), canRefresh);
            && !t.isRefreshing && t.requests - {r} == s.requests - {r}
            && t.requests[r].phase == if s.tokens.Some? && (s.tokens == s.requests[r].phase.before
                                                            || s.tokens.value.access == token)
                                      then Sending else Failed(401)
  {
    SameSessionIsEquality(s.tokens, s.requests[r].phase.before);
  }

  /**
   The guard has no counterpart when the callback throws: the storage is emptied
   whatever it holds. A completed refresh therefore keeps a pair signed in
   meanwhile exactly when it succeeded or there is no such pair.
   */
  lemma CompletionKeepsNewSession(s: State, e: Event, r: nat, canRefresh: bool)
    requires (e.RefreshOk? || e.RefreshFail?) && e.r == r && Enabled(s, e)
    requires s.tokens != s.requests[r].phase.before
    ensures Apply(s, e, canRefresh).tokens == s.tokens <==> e.RefreshOk? || s.tokens == None
  {
    if e.RefreshOk? {
      RefreshOnlyTouchesItsSession(s, r, e.token, canRefresh);
    }
  }

  lemma {:induction false} RunSnoc(s: State, es: seq<Event>, e: Event, canRefresh: bool)
    requires Run(s, es, canRefresh)
    requires var t := After(s, es, canRefresh); Enabled(t, e) && Contract(t, e)
    ensures Run(s, es + [e], canRefresh)
    ensures After(s, es + [e], canRefresh) == Apply(After(s, es, canRefresh), e, canRefresh)
    decreases |es|
  {
    if es == [] {
      assert es + [e] == [e];
    } else {
      assert (es + [e])[1..] == es[1..] + [e];
      RunSnoc(Apply(s, es[0], canRefresh), es[1..], e, canRefresh);
    }
  }

  /** A run in which a second account signs in during a refresh and is signed out by its failure. */
  lemma FailedRefreshSignsOutNewSession() returns (es: seq<Event>)
    ensures Run(Initial, es + [SetTokens(TokenPair(Token(2, 0), None))] + [RefreshFail(0)], true)
    ensures After(Initial, es + [SetTokens(TokenPair(Token(2, 0), None))] + [RefreshFail(0)], true).tokens == None
  {
    var second := SetTokens(TokenPair(Token(2, 0), None));
    es := [];
    RunSnoc(Initial, es, SetTokens(TokenPair(Token(1, 0), None)), true);
    es := es + [SetTokens(TokenPair(Token(1, 0), None))];
    RunSnoc(Initial, es, Issue(0), true);
    es := es + [Issue(0)];
    RunSnoc(Initial, es, Attach(0), true);
    es := es + [Attach(0)];
    RunSnoc(Initial, es, Respond(0, UNAUTHORIZED), true);
    es := es + [Respond(0, UNAUTHORIZED)];
    RunSnoc(Initial, es, second, true);
    RunSnoc(Initial, es + [second], RefreshFail(0), true);
  }

  // ── A refresh nobody disturbs ─────────────────────────────────────────────

  /** Events that neither sign in or out nor complete the refresh of r. */
  predicate Undisturbing(e: Event, r: nat) {
    !e.SetTokens? && !e.ClearTokens? && !(e.RefreshOk? && e.r == r) && !(e.RefreshFail? && e.r == r)
  }

  /** While r is refreshing, the other requests change neither the stored tokens nor r. */
  lemma {:induction false} LockFreezesTokens(s: State, es: seq<Event>, r: nat, canRefresh: bool)
    requires Inv(s) && Run(s, es, canRefresh) && IsPending(s, r)
    requires forall i :: 0 <= i < |es| ==> Undisturbing(es[i], r)
    ensures var t := After(s, es, canRefresh);
            IsPending(t, r) && t.tokens == s.tokens && t.requests[r] == s.requests[r]
    decreases |es|
  {
    if es != [] {
      assert Undisturbing(es[0], r);
      StepKeepsInv(s, es[0], canRefresh);
      assert es[0].RefreshOk? || es[0].RefreshFail? ==> IsPending(s, es[0].r);
      LockFreezesTokens(Apply(s, es[0], canRefresh), es[1..], r, canRefresh);
    }
  }

  /**
   A rejected request of a signed-in user is retried with a token of the same
   session: if nobody signs in or out while the refresh is pending, the new
   token is stored beside the old refresh token and the request is sent with it.
   */
  lemma UndisturbedRefreshRetries(s: State, es: seq<Event>, r: nat, token: Token)
    requires Inv(s) && s.tokens.Some? && token.session == s.tokens.value.access.session
    requires r in s.requests && s.requests[r].phase.InFlight? && !s.requests[r].retried && !s.isRefreshing
    requires Run(Apply(s, Respond(r, 401), true), es, true)
    requires forall i :: 0 <= i < |es| ==> Undisturbing(es[i], r)
    ensures var t := After(Apply(s, Respond(r, 401), true), es, true);
            Enabled(t, RefreshOk(r, token)) && Contract(t, RefreshOk(r, token))
            && var u := Apply(t, RefreshOk(r, token), true);
               u.tokens == Some(s.tokens.value.(access := token))
               && Enabled(u, Attach(r))
               && Apply(u, Attach(r), true).requests[r].header == Some(token)
               && Apply(u, Attach(r), true).requests[r].sends == 2
  {
    StepKeepsInv(s, Respond(r, UNAUTHORIZED), true);
    LockFreezesTokens(Apply(s, Respond(r, UNAUTHORIZED), true), es, r, true);
  }

  // ── Termination ───────────────────────────────────────────────────────────

  /** Protocol steps a request can still take. */
  function Rank(q: Request): nat {
    match q.phase
    case Sending => if q.retried then 2 else 5
    case InFlight => if q.retried then 1 else 4
    case Refreshing(_) => 3
    case Succeeded => 0
    case Failed(_) => 0
  }

  function RankOf(s: State, r: nat): nat {
    if r in s.requests then Rank(s.requests[r]) else 5
  }

  predicate IsStepOf(e: Event, r: nat) {
    (e.Attach? || e.Respond? || e.RefreshOk? || e.RefreshFail?) && e.r == r
  }

  function StepsOf(es: seq<Event>, r: nat): nat {
    |Select(es, (e: Event) => IsStepOf(e, r))|
  }

  lemma StepLowersRank(s: State, e: Event, r: nat, canRefresh: bool)
    requires Inv(s) && Enabled(s, e)
    ensures RankOf(Apply(s, e, canRefresh), r) + (if IsStepOf(e, r) then 1 else 0) <= RankOf(s, r)
  {
    if IsStepOf(e, r) { assert RequestOk(s.requests[r]); }
  }

  /** In any run a request takes at most five steps, however the others interleave. */
  lemma {:induction false} RequestsTerminate(s: State, es: seq<Event>, r: nat, canRefresh: bool)
    requires Inv(s) && Run(s, es, canRefresh)
    ensures StepsOf(es, r) + RankOf(After(s, es, canRefresh), r) <= RankOf(s, r) <= 5
    decreases |es|
  {
    if es != [] {
      StepLowersRank(s, es[0], r, canRefresh);
      StepKeepsInv(s, es[0], canRefresh);
      RequestsTerminate(Apply(s, es[0], canRefresh), es[1..], r, canRefresh);
    }
  }

  /** No request is ever stuck: until it is settled, some step of it is possible. */
  lemma UnsettledCanStep(s: State, r: nat)
    requires Inv(s) && r in s.requests && !s.requests[r].phase.Succeeded? && !s.requests[r].phase.Failed?
    ensures Rank(s.requests[r]) > 0
    ensures exists e :: IsStepOf(e, r) && Enabled(s, e) && Contract(s, e)
  {
    var q := s.requests[r];
    match q.phase
    case Sending => assert IsStepOf(Attach(r), r) && Enabled(s, Attach(r)) && Contract(s, Attach(r));
    case InFlight =>
      assert IsStepOf(Respond(r, 200), r) && Enabled(s, Respond(r, 200)) && Contract(s, Respond(r, 200));
    case Refreshing(_) =>
      assert IsStepOf(RefreshFail(r), r) && Enabled(s, RefreshFail(r)) && Contract(s, RefreshFail(r));
    case Succeeded =>
    case Failed(_) =>
  }
}
