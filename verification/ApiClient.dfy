/**
 The browser side of token refresh, joined to the server of AuthSessions. Each tab
 shares one in-flight refresh between the request interceptor, which refreshes before
 sending when the expiry hint has passed, and the response interceptor, which refreshes
 once and retries after a 401. Restoring a session on page load refreshes directly, past
 the shared one. The cookie jar belongs to the whole browser. Network messages, server
 handling and deliveries interleave freely.
 */
module ApiClient {
  import opened Prelude
  import opened AuthSessions

  type TabId = nat
  type RequestId = nat
  type CallId = nat

  datatype Phase =
    | Ready       // about to enter the request interceptor
    | AwaitSend   // in the request interceptor, waiting for the refresh
    | Cleared     // leaves the request interceptor
    | InFlight
    | AwaitRetry  // in the response interceptor, waiting for the refresh
    | Done

  datatype Request = Request(authEndpoint: bool, phase: Phase, retried: bool, sends: nat)
  datatype Tab = Tab(refreshPromise: Option<CallId>, requests: map<RequestId, Request>)

  const NEW_TAB := Tab(None, map[])

  function Put(tab: Tab, r: RequestId, req: Request): Tab { tab.(requests := tab.requests[r := req]) }

  /** `performRefresh`: start the given call unless one is already in flight. */
  function PerformRefresh(tab: Tab, call: CallId): Tab {
    if tab.refreshPromise == None then tab.(refreshPromise := Some(call)) else tab
  }

  function SendNow(req: Request): Request { req.(phase := InFlight, sends := req.sends + 1) }

  function RequestInterceptor(tab: Tab, r: RequestId, expired: bool, call: CallId): Tab {
    if r !in tab.requests || tab.requests[r].phase != Ready then tab
    else if !tab.requests[r].authEndpoint && expired
    then PerformRefresh(Put(tab, r, tab.requests[r].(phase := AwaitSend)), call)
    else Put(tab, r, SendNow(tab.requests[r]))
  }

  function SendCleared(tab: Tab, r: RequestId): Tab {
    if r in tab.requests && tab.requests[r].phase == Cleared then Put(tab, r, SendNow(tab.requests[r])) else tab
  }

  function ResponseInterceptor(tab: Tab, r: RequestId, unauthorized: bool, call: CallId): Tab {
    if r !in tab.requests || tab.requests[r].phase != InFlight then tab
    else
      var req := tab.requests[r];
      if !unauthorized || req.retried || req.authEndpoint then Put(tab, r, req.(phase := Done))
      else PerformRefresh(Put(tab, r, req.(phase := AwaitRetry, retried := true)), call)
  }

  /** The refresh settles: everyone waiting for it goes on. */
  function Settle(tab: Tab, ok: bool): Tab {
    Tab(None, map r | r in tab.requests :: Resume(tab.requests[r], ok))
  }

  function Resume(req: Request, ok: bool): Request {
    match req.phase
    case AwaitSend => req.(phase := Cleared)
    case AwaitRetry => req.(phase := if ok then Ready else Done)
    case _ => req
  }

  /** The module-level state of one tab and the code that changes it. */
  class TabClient {
    var refreshPromise: Option<CallId>
    var requests: map<RequestId, Request>

    constructor ()
      ensures State() == NEW_TAB
    {
      refreshPromise, requests := None, map[];
    }

    function State(): Tab
      reads this
    {
      Tab(refreshPromise, requests)
    }

    method Refresh(call: CallId) returns (started: bool)
      modifies this
      ensures State() == PerformRefresh(old(State()), call)
      ensures started <==> old(refreshPromise) == None
    {
      started := refreshPromise == None;
      if started { refreshPromise := Some(call); }
    }

    method OnRequest(r: RequestId, expired: bool, call: CallId) returns (started: bool)
      requires r in requests && requests[r].phase == Ready
      modifies this
      ensures State() == RequestInterceptor(old(State()), r, expired, call)
      ensures started <==> old(refreshPromise) == None && refreshPromise == Some(call)
    {
      started := false;
      if !requests[r].authEndpoint && expired {
        requests := requests[r := requests[r].(phase := AwaitSend)];
        started := Refresh(call);
      } else {
        requests := requests[r := SendNow(requests[r])];
      }
    }

    method OnError(r: RequestId, unauthorized: bool, call: CallId) returns (started: bool)
      requires r in requests && requests[r].phase == InFlight
      modifies this
      ensures State() == ResponseInterceptor(old(State()), r, unauthorized, call)
      ensures started <==> old(refreshPromise) == None && refreshPromise == Some(call)
    {
      started := false;
      var original := requests[r];
      if !unauthorized || original.retried || original.authEndpoint {
        requests := requests[r := original.(phase := Done)];
        return;
      }
      requests := requests[r := original.(phase := AwaitRetry, retried := true)];
      started := Refresh(call);
    }
  }

  // ---- browser, network and server ----------------------------------------------

  /** RefreshCall is the shared refresh of a tab; DirectRefresh is posted past it and settles nothing. */
  datatype Kind = RefreshCall | DirectRefresh | LoginCall(user: UserId) | LogoutCall

  predicate IsRefresh(kind: Kind) { kind == RefreshCall || kind == DirectRefresh }

  datatype Reply = SetCookie(jti: Jti) | ClearCookie | Refused
  datatype Call = Call(tab: TabId, kind: Kind, cookie: Option<Jti>, reply: Option<Reply>)

  /** `reuseSeen` records whether the server ever answered that a token was reused. */
  datatype System = System(
    server: World, tabs: map<TabId, Tab>, jar: Option<Jti>,
    calls: map<CallId, Call>, nextCall: CallId, reuseSeen: bool)

  /**
   What a request to login, refresh or logout asks of the server is its own event; `Open` is its way past the
   interceptors.
   */
  datatype Event =
    | Open(tab: TabId, request: RequestId, authEndpoint: bool)
    | Intercept(tab: TabId, request: RequestId, expired: bool)
    | Send(tab: TabId, request: RequestId)
    | Response(tab: TabId, request: RequestId, unauthorized: bool)
    | SubmitLogin(tab: TabId, user: UserId)
    | SubmitLogout(tab: TabId)
    | SubmitRefresh(tab: TabId)
    | Handle(call: CallId, at: int, jti: Jti, hash: string)
    | Deliver(call: CallId)
    | Lose(call: CallId)
    | PurgeTokens(at: int)

  const INITIAL := System(START, map[], None, map[], 0, false)

  function TabOf(s: System, t: TabId): Tab { if t in s.tabs then s.tabs[t] else NEW_TAB }

  function Submit(s: System, t: TabId, kind: Kind): System {
    s.(calls := s.calls[s.nextCall := Call(t, kind, s.jar, None)], nextCall := s.nextCall + 1)
  }

  /** The tab's code has just started its shared refresh. */
  predicate Starts(s: System, t: TabId, tab: Tab) {
    TabOf(s, t).refreshPromise == None && tab.refreshPromise == Some(s.nextCall)
  }

  /** Store the tab; if it started a refresh, the call leaves with the cookie now in the jar. */
  function Update(s: System, t: TabId, tab: Tab): System {
    var s' := s.(tabs := s.tabs[t := tab]);
    if Starts(s, t, tab) then Submit(s', t, RefreshCall) else s'
  }

  function CookieToken(w: World, cookie: Option<Jti>): Option<Token> {
    match cookie
    case None => None
    case Some(j) =>
      if j in w.minted then Some(Token(w.minted[j].hash, Some(Claims(w.minted[j].user, RefreshToken, Some(j)))))
      else Some(Token("", None))
  }

  function ServerStep(w: World, c: Call, at: int, jti: Jti, hash: string): Step {
    match c.kind
    case RefreshCall | DirectRefresh => Step.Refresh(CookieToken(w, c.cookie), at, jti, hash)
    case LoginCall(user) => Step.Login(user, at, jti, hash)
    case LogoutCall => Step.Logout(CookieToken(w, c.cookie), at)
  }

  function ReplyTo(w: World, c: Call, step: Step, jti: Jti): Reply {
    match c.kind
    case RefreshCall | DirectRefresh =>
      (match AnswerTo(w, step)
       case Some(Refreshed(j)) => SetCookie(j)
       case _ => Refused)
    case LoginCall(_) => SetCookie(jti)
    case LogoutCall => ClearCookie
  }

  /** The server takes an unanswered call; a jti that is not new changes nothing. */
  function HandleCall(cfg: Config, s: System, call: CallId, at: int, jti: Jti, hash: string): System {
    if call !in s.calls || s.calls[call].reply.Some? || jti in s.server.minted then s
    else
      var c := s.calls[call];
      var step := ServerStep(s.server, c, at, jti, hash);
      s.(server := AuthSessions.Next(cfg, s.server, step),
         calls := s.calls[call := c.(reply := Some(ReplyTo(s.server, c, step, jti)))],
         reuseSeen := s.reuseSeen || AnswerTo(s.server, step) == Some(ReuseDetected))
  }

  function Jar(jar: Option<Jti>, reply: Reply): Option<Jti> {
    match reply case SetCookie(j) => Some(j) case ClearCookie => None case Refused => jar
  }

  /** The call is over; the shared refresh settles the promise of its tab. */
  function Finish(s: System, call: CallId, jar: Option<Jti>, ok: bool): System
    requires call in s.calls
  {
    var c := s.calls[call];
    s.(jar := jar, calls := s.calls - {call},
       tabs := if c.kind == RefreshCall then s.tabs[c.tab := Settle(TabOf(s, c.tab), ok)] else s.tabs)
  }

  function Next(cfg: Config, s: System, e: Event): System {
    match e
    case Open(t, r, auth) =>
      if r in TabOf(s, t).requests then s
      else s.(tabs := s.tabs[t := Put(TabOf(s, t), r, Request(auth, Ready, false, 0))])
    case Intercept(t, r, expired) => Update(s, t, RequestInterceptor(TabOf(s, t), r, expired, s.nextCall))
    case Send(t, r) => s.(tabs := s.tabs[t := SendCleared(TabOf(s, t), r)])
    case Response(t, r, unauthorized) => Update(s, t, ResponseInterceptor(TabOf(s, t), r, unauthorized, s.nextCall))
    case SubmitLogin(t, user) => Submit(s, t, LoginCall(user))
    case SubmitLogout(t) => Submit(s, t, LogoutCall)
    case SubmitRefresh(t) => Submit(s, t, DirectRefresh)
    case Handle(call, at, jti, hash) => HandleCall(cfg, s, call, at, jti, hash)
    case Deliver(call) =>
      if call in s.calls && s.calls[call].reply.Some?
      then Finish(s, call, Jar(s.jar, s.calls[call].reply.value), s.calls[call].reply.value.SetCookie?)
      else s
    case Lose(call) => if call in s.calls then Finish(s, call, s.jar, false) else s
    case PurgeTokens(at) => s.(server := AuthSessions.Next(cfg, s.server, Step.Purge(at)))
  }

  function Run(cfg: Config, s: System, events: seq<Event>): System
    decreases |events|
  {
    if events == [] then s else Run(cfg, Next(cfg, s, events[0]), events[1..])
  }

  // ---- single flight and at most two sends, with any number of tabs and any losses ----

  ghost predicate SingleFlight(s: System) {
    && (forall c | c in s.calls :: c < s.nextCall)
    && (forall c | c in s.calls && s.calls[c].kind == RefreshCall ::
          s.calls[c].tab in s.tabs && s.tabs[s.calls[c].tab].refreshPromise == Some(c))
    && (forall t | t in s.tabs && s.tabs[t].refreshPromise.Some? ::
          var c := s.tabs[t].refreshPromise.value;
          c in s.calls && s.calls[c].kind == RefreshCall && s.calls[c].tab == t)
  }

  /** How often a request has been sent, from where it stands. */
  ghost predicate Counted(req: Request) {
    match req.phase
    case Ready | AwaitSend | Cleared => req.sends == if req.retried then 1 else 0
    case InFlight => req.sends == if req.retried then 2 else 1
    case AwaitRetry => req.retried && req.sends == 1
    case Done => 1 <= req.sends <= 2
  }

  ghost predicate AllCounted(tab: Tab) { forall r | r in tab.requests :: Counted(tab.requests[r]) }

  ghost predicate TabsCounted(s: System) { forall t | t in s.tabs :: AllCounted(s.tabs[t]) }

  lemma UpdateKeepsSingleFlight(s: System, t: TabId, tab: Tab)
    requires SingleFlight(s)
    requires tab.refreshPromise == TabOf(s, t).refreshPromise
               || Starts(s, t, tab)
    ensures SingleFlight(Update(s, t, tab))
  {}

  lemma NextKeepsSingleFlight(cfg: Config, s: System, e: Event)
    requires SingleFlight(s)
    ensures SingleFlight(Next(cfg, s, e))
  {
    hide AuthSessions.Next, AnswerTo, Update;
    match e
    case Intercept(t, r, expired) =>
      UpdateKeepsSingleFlight(s, t, RequestInterceptor(TabOf(s, t), r, expired, s.nextCall));
    case Response(t, r, unauthorized) =>
      UpdateKeepsSingleFlight(s, t, ResponseInterceptor(TabOf(s, t), r, unauthorized, s.nextCall));
    case _ =>
  }

  lemma NextKeepsCounted(cfg: Config, s: System, e: Event)
    requires TabsCounted(s)
    ensures TabsCounted(Next(cfg, s, e))
  {
    hide AuthSessions.Next, AnswerTo, AllCounted, RequestInterceptor, ResponseInterceptor, SendCleared, Settle, Put,
      HandleCall;
    match e
    case Open(t, r, auth) => ClientKeepsCounted(TabOf(s, t), r, auth, true, s.nextCall);
    case Intercept(t, r, expired) => ClientKeepsCounted(TabOf(s, t), r, true, expired, s.nextCall);
    case Send(t, r) => ClientKeepsCounted(TabOf(s, t), r, true, true, s.nextCall);
    case Response(t, r, unauthorized) => ClientKeepsCounted(TabOf(s, t), r, true, unauthorized, s.nextCall);
    case Handle(call, at, jti, hash) => HandleLeavesTabs(cfg, s, call, at, jti, hash);
    case Deliver(call) => SettledCounted(s, call);
    case Lose(call) => SettledCounted(s, call);
    case _ => FreshTabCounted();
  }

  lemma FreshTabCounted()
    ensures forall s, t :: TabsCounted(s) ==> AllCounted(TabOf(s, t))
  {}

  lemma HandleLeavesTabs(cfg: Config, s: System, call: CallId, at: int, jti: Jti, hash: string)
    ensures HandleCall(cfg, s, call, at, jti, hash).tabs == s.tabs
  {
    hide AuthSessions.Next, AnswerTo, ReplyTo, ServerStep;
  }

  lemma SettledCounted(s: System, call: CallId)
    requires TabsCounted(s)
    ensures call in s.calls ==> forall ok :: AllCounted(Settle(TabOf(s, s.calls[call].tab), ok))
  {}

  lemma ClientKeepsCounted(tab: Tab, r: RequestId, auth: bool, flag: bool, call: CallId)
    requires AllCounted(tab)
    ensures r !in tab.requests ==> AllCounted(Put(tab, r, Request(auth, Ready, false, 0)))
    ensures AllCounted(RequestInterceptor(tab, r, flag, call)) && AllCounted(SendCleared(tab, r))
    ensures AllCounted(ResponseInterceptor(tab, r, flag, call))
  {}

  /** Each tab has at most one shared refresh in flight, and each request is sent at most twice. */
  lemma {:induction false} AtMostOneRefreshTwoSends(cfg: Config, s: System, events: seq<Event>)
    requires SingleFlight(s) && TabsCounted(s)
    ensures var end := Run(cfg, s, events); SingleFlight(end) && TabsCounted(end)
    ensures var end := Run(cfg, s, events);
      && (forall c, d | c in end.calls && d in end.calls
            && end.calls[c].kind == RefreshCall && end.calls[d].kind == RefreshCall ::
            end.calls[c].tab == end.calls[d].tab ==> c == d)
      && (forall t, r | t in end.tabs && r in end.tabs[t].requests :: end.tabs[t].requests[r].sends <= 2)
    decreases |events|
  {
    if events != [] {
      NextKeepsSingleFlight(cfg, s, events[0]);
      NextKeepsCounted(cfg, s, events[0]);
      AtMostOneRefreshTwoSends(cfg, Next(cfg, s, events[0]), events[1..]);
    }
  }

  // ---- nobody waits for nothing, and the retry happens --------------------------------------

  /** A request waits only while its tab holds a promise. */
  ghost predicate Waiters(s: System) {
    forall t, r | t in s.tabs && r in s.tabs[t].requests && s.tabs[t].requests[r].phase in {AwaitSend, AwaitRetry} ::
      s.tabs[t].refreshPromise.Some?
  }

  lemma TabKeepsWaiters(tab: Tab, r: RequestId, flag: bool, call: CallId)
    requires forall q | q in tab.requests && tab.requests[q].phase in {AwaitSend, AwaitRetry} ::
               tab.refreshPromise.Some?
    ensures forall out: Tab | out in {RequestInterceptor(tab, r, flag, call), ResponseInterceptor(tab, r, flag, call),
              SendCleared(tab, r)} ::
              forall q | q in out.requests && out.requests[q].phase in {AwaitSend, AwaitRetry} ::
                out.refreshPromise.Some?
  {}

  lemma TabOfWaiters(s: System, t: TabId)
    requires Waiters(s)
    ensures forall q | q in TabOf(s, t).requests && TabOf(s, t).requests[q].phase in {AwaitSend, AwaitRetry} ::
              TabOf(s, t).refreshPromise.Some?
  {}

  lemma SettledHasNoWaiter(tab: Tab, ok: bool)
    ensures forall q | q in Settle(tab, ok).requests :: Settle(tab, ok).requests[q].phase !in {AwaitSend, AwaitRetry}
  {}

  lemma NextKeepsWaiters(cfg: Config, s: System, e: Event)
    requires Waiters(s)
    ensures Waiters(Next(cfg, s, e))
  {
    hide AuthSessions.Next, AnswerTo, RequestInterceptor, ResponseInterceptor, SendCleared, Settle, HandleCall;
    match e
    case Open(t, r, auth) => TabOfWaiters(s, t);
    case Intercept(t, r, expired) =>
      TabOfWaiters(s, t);
      TabKeepsWaiters(TabOf(s, t), r, expired, s.nextCall);
    case Send(t, r) =>
      TabOfWaiters(s, t);
      TabKeepsWaiters(TabOf(s, t), r, true, s.nextCall);
    case Response(t, r, unauthorized) =>
      TabOfWaiters(s, t);
      TabKeepsWaiters(TabOf(s, t), r, unauthorized, s.nextCall);
    case Handle(call, at, jti, hash) => HandleLeavesTabs(cfg, s, call, at, jti, hash);
    case Deliver(call) =>
      if call in s.calls && s.calls[call].reply.Some? {
        SettledHasNoWaiter(TabOf(s, s.calls[call].tab), s.calls[call].reply.value.SetCookie?);
      }
    case Lose(call) => if call in s.calls { SettledHasNoWaiter(TabOf(s, s.calls[call].tab), false); }
    case _ =>
  }

  predicate Has(s: System, t: TabId, r: RequestId, req: Request) {
    t in s.tabs && r in s.tabs[t].requests && s.tabs[t].requests[r] == req
  }

  /** The shared refresh of a tab, in flight. */
  predicate Refreshing(s: System, t: TabId, call: CallId) {
    call in s.calls && s.calls[call].kind == RefreshCall && s.calls[call].tab == t
  }

  ghost predicate Served(s: System) {
    forall t, r | t in s.tabs && r in s.tabs[t].requests && s.tabs[t].requests[r].phase in {AwaitSend, AwaitRetry} ::
      s.tabs[t].refreshPromise.Some? && Refreshing(s, t, s.tabs[t].refreshPromise.value)
  }

  /** In every run a waiting request has a refresh of its tab in flight, whose answer or loss sets it free. */
  lemma {:induction false} WaitersAreServed(cfg: Config, s: System, events: seq<Event>)
    requires SingleFlight(s) && Waiters(s)
    ensures Served(Run(cfg, s, events))
    decreases |events|
  {
    if events != [] {
      hide Next, Waiters, Served;
      NextKeepsSingleFlight(cfg, s, events[0]);
      NextKeepsWaiters(cfg, s, events[0]);
      WaitersAreServed(cfg, Next(cfg, s, events[0]), events[1..]);
    }
  }

  /**
   The first 401 of a request outside the auth endpoints parks it for one retry, on the refresh in flight or a new
   one.
   */
  lemma FirstUnauthorizedWaits(cfg: Config, s: System, t: TabId, r: RequestId, sends: nat)
    requires SingleFlight(s) && Has(s, t, r, Request(false, InFlight, false, sends))
    ensures var s' := Next(cfg, s, Response(t, r, true));
            var held := s.tabs[t].refreshPromise;
            var call := if held.Some? then held.value else s.nextCall;
      && Has(s', t, r, Request(false, AwaitRetry, true, sends)) && s'.tabs[t].refreshPromise == Some(call)
      && Refreshing(s', t, call)
      && (held == None ==> s'.calls[call] == Call(t, RefreshCall, s.jar, None))
      && (held.Some? ==> s'.calls == s.calls)
  {}

  /** A second 401, a 401 of an auth endpoint, and any other answer end the request. */
  lemma OtherAnswersEnd(cfg: Config, s: System, t: TabId, r: RequestId, req: Request, unauthorized: bool)
    requires Has(s, t, r, req) && req.phase == InFlight && (!unauthorized || req.retried || req.authEndpoint)
    ensures var s' := Next(cfg, s, Response(t, r, unauthorized));
            Has(s', t, r, req.(phase := Done)) && s'.calls == s.calls
              && s'.tabs[t].refreshPromise == s.tabs[t].refreshPromise
  {}

  /** A request goes out at once, or, with the expiry hint passed, waits for the refresh in flight or a new one. */
  lemma InterceptedSendsOrWaits(cfg: Config, s: System, t: TabId, r: RequestId, req: Request, expired: bool)
    requires SingleFlight(s) && Has(s, t, r, req) && req.phase == Ready
    ensures var s' := Next(cfg, s, Intercept(t, r, expired));
            if expired && !req.authEndpoint then (
              && Has(s', t, r, req.(phase := AwaitSend))
              && exists call: CallId :: Refreshing(s', t, call) && s'.tabs[t].refreshPromise == Some(call))
            else Has(s', t, r, req.(phase := InFlight, sends := req.sends + 1)) && s'.calls == s.calls
  {
    var s' := Next(cfg, s, Intercept(t, r, expired));
    if expired && !req.authEndpoint {
      var call := if s.tabs[t].refreshPromise.Some? then s.tabs[t].refreshPromise.value else s.nextCall;
      assert Refreshing(s', t, call);
    }
  }

  /**
   The refresh brings a cookie: the parked request passes the interceptor and is sent a second time, and the jar is
   renewed.
   */
  lemma RetriedAfterRefresh(cfg: Config, s: System, t: TabId, r: RequestId, call: CallId, j: Jti)
    requires Has(s, t, r, Request(false, AwaitRetry, true, 1)) && Refreshing(s, t, call)
    requires s.calls[call].reply == Some(SetCookie(j))
    ensures var s' := Next(cfg, s, Deliver(call));
      && s'.jar == Some(j) && s'.tabs[t].refreshPromise == None && Has(s', t, r, Request(false, Ready, true, 1))
      && Has(Next(cfg, s', Intercept(t, r, false)), t, r, Request(false, InFlight, true, 2))
  {}

  /** The refresh is refused or lost: the parked request is over, sent once, and the jar is as it was. */
  lemma EndedWithoutRefresh(cfg: Config, s: System, t: TabId, r: RequestId, call: CallId)
    requires Has(s, t, r, Request(false, AwaitRetry, true, 1)) && Refreshing(s, t, call)
    ensures var s' := Next(cfg, s, Lose(call)); Has(s', t, r, Request(false, Done, true, 1)) && s'.jar == s.jar
    ensures s.calls[call].reply == Some(Refused) ==>
              var s' := Next(cfg, s, Deliver(call)); Has(s', t, r, Request(false, Done, true, 1)) && s'.jar == s.jar
  {}

  /** A request that waited before it was sent goes out however the refresh ends. */
  lemma SentAfterRefresh(cfg: Config, s: System, t: TabId, r: RequestId, call: CallId, req: Request, end: Event)
    requires Has(s, t, r, req) && req.phase == AwaitSend && Refreshing(s, t, call)
    requires end == Lose(call) || (end == Deliver(call) && s.calls[call].reply.Some?)
    ensures var s' := Next(cfg, Next(cfg, s, end), Send(t, r));
            Has(s', t, r, req.(phase := InFlight, sends := req.sends + 1))
  {}

  /** A login's answer puts its token in the jar, a logout's empties it. */
  lemma JarAfter(cfg: Config, s: System, call: CallId)
    requires call in s.calls && s.calls[call].reply.Some?
    ensures var jar := Next(cfg, s, Deliver(call)).jar;
      && (forall j: Jti :: s.calls[call].reply == Some(SetCookie(j)) ==> jar == Some(j))
      && (s.calls[call].reply == Some(ClearCookie) ==> jar == None)
      && (s.calls[call].reply == Some(Refused) ==> jar == s.jar)
  {}

  // ---- nothing lost, no refresh beside another: reuse detection never fires --------------

  predicate Revoked(w: World, j: Jti) { j in w.db && w.db[j].revoked }

  ghost predicate CookiesMinted(s: System) {
    && (s.jar.Some? ==> s.jar.value in s.server.minted)
    && (forall c | c in s.calls && s.calls[c].cookie.Some? :: s.calls[c].cookie.value in s.server.minted)
  }

  predicate Replies(s: System, c: CallId, j: Jti)
    requires c in s.calls
  {
    s.calls[c].reply == Some(SetCookie(j))
  }

  /** A token on its way to the browser is minted, unrevoked, and held nowhere else. */
  ghost predicate OnTheWay(s: System, c: CallId, j: Jti)
    requires c in s.calls
  {
    && j in s.server.minted && !Revoked(s.server, j) && s.jar != Some(j)
    && (forall d | d in s.calls :: s.calls[d].cookie != Some(j) && (Replies(s, d, j) ==> d == c))
  }

  ghost predicate RepliesFresh(s: System) {
    forall c, j | c in s.calls && Replies(s, c, j) :: OnTheWay(s, c, j)
  }

  /** An unanswered refresh carries an unrevoked token. */
  ghost predicate PendingGood(s: System) {
    forall c | c in s.calls && IsRefresh(s.calls[c].kind) && s.calls[c].reply == None && s.calls[c].cookie.Some? ::
      !Revoked(s.server, s.calls[c].cookie.value)
  }

  /** The jar holds a revoked token only while its successor is on the way. */
  ghost predicate JarGood(s: System) {
    s.jar.Some? && Revoked(s.server, s.jar.value) ==>
      exists c, j :: c in s.calls && IsRefresh(s.calls[c].kind) && Replies(s, c, j)
  }

  /** No refresh is in flight. */
  predicate Idle(s: System) { forall c | c in s.calls :: !IsRefresh(s.calls[c].kind) }

  ghost predicate OneRefresh(s: System) {
    forall c, d | c in s.calls && d in s.calls && IsRefresh(s.calls[c].kind) && IsRefresh(s.calls[d].kind) :: c == d
  }

  /** Whether an event starts a refresh, shared or direct. */
  predicate StartsRefresh(s: System, e: Event) {
    match e
    case SubmitRefresh(_) => true
    case Intercept(t, r, expired) => Starts(s, t, RequestInterceptor(TabOf(s, t), r, expired, s.nextCall))
    case Response(t, r, unauthorized) => Starts(s, t, ResponseInterceptor(TabOf(s, t), r, unauthorized, s.nextCall))
    case _ => false
  }

  /** Every refresh starts while none is in flight: what a client can check before it posts one. */
  predicate Alone(s: System, e: Event) { StartsRefresh(s, e) ==> Idle(s) }

  predicate AllAlone(cfg: Config, s: System, events: seq<Event>)
    decreases |events|
  {
    events == [] || (Alone(s, events[0]) && AllAlone(cfg, Next(cfg, s, events[0]), events[1..]))
  }

  ghost predicate Safe(s: System) {
    && SingleFlight(s) && OneRefresh(s) && CookiesMinted(s) && RepliesFresh(s) && PendingGood(s) && JarGood(s)
    && RecordsMinted(s.server) && !s.reuseSeen
  }

  /** With no refresh in flight the jar is good to present. */
  lemma IdleJarUnrevoked(s: System)
    requires JarGood(s) && Idle(s) && s.jar.Some?
    ensures !Revoked(s.server, s.jar.value)
  {}

  lemma SubmitKeepsSafe(s: System, t: TabId, kind: Kind)
    requires OneRefresh(s) && CookiesMinted(s) && RepliesFresh(s) && PendingGood(s) && JarGood(s)
    requires forall c | c in s.calls :: c < s.nextCall
    requires IsRefresh(kind) ==> Idle(s)
    ensures var s' := Submit(s, t, kind);
            OneRefresh(s') && CookiesMinted(s') && RepliesFresh(s') && PendingGood(s') && JarGood(s')
  {
    var s' := Submit(s, t, kind);
    if IsRefresh(kind) && s.jar.Some? { IdleJarUnrevoked(s); }
    forall c, j | c in s'.calls && Replies(s', c, j) ensures OnTheWay(s', c, j) {
      assert c in s.calls && Replies(s, c, j) && OnTheWay(s, c, j);
    }
    if s'.jar.Some? && Revoked(s'.server, s'.jar.value) {
      var c, j :| c in s.calls && IsRefresh(s.calls[c].kind) && Replies(s, c, j);
      assert Replies(s', c, j);
    }
  }

  lemma UpdateKeepsSafe(s: System, t: TabId, tab: Tab)
    requires Safe(s)
    requires tab.refreshPromise == TabOf(s, t).refreshPromise
               || Starts(s, t, tab)
    requires Starts(s, t, tab) ==> Idle(s)
    ensures Safe(Update(s, t, tab))
  {
    UpdateKeepsSingleFlight(s, t, tab);
    var s' := s.(tabs := s.tabs[t := tab]);
    TabsAside(s, s');
    if Starts(s, t, tab) { SubmitKeepsSafe(s', t, RefreshCall); }
  }

  /** Nothing but single flight looks at the tabs. */
  lemma TabsAside(s: System, s': System)
    requires Safe(s) && s' == s.(tabs := s'.tabs)
    ensures OneRefresh(s') && CookiesMinted(s') && RepliesFresh(s') && PendingGood(s') && JarGood(s')
  {
    forall c, j | c in s'.calls && Replies(s', c, j) ensures OnTheWay(s', c, j) {
      assert Replies(s, c, j) && OnTheWay(s, c, j);
    }
    if s'.jar.Some? && Revoked(s'.server, s'.jar.value) {
      var c, j :| c in s.calls && IsRefresh(s.calls[c].kind) && Replies(s, c, j);
      assert Replies(s', c, j);
    }
  }

  lemma DeliverKeepsSafe(s: System, call: CallId)
    requires Safe(s) && call in s.calls && s.calls[call].reply.Some?
    ensures var s' := Finish(s, call, Jar(s.jar, s.calls[call].reply.value), s.calls[call].reply.value.SetCookie?);
            OneRefresh(s') && CookiesMinted(s') && RepliesFresh(s') && PendingGood(s') && JarGood(s')
  {
    hide Settle;
    var reply := s.calls[call].reply.value;
    var s' := Finish(s, call, Jar(s.jar, reply), reply.SetCookie?);
    if reply.SetCookie? { assert Replies(s, call, reply.jti) && OnTheWay(s, call, reply.jti); }
    forall c, j | c in s'.calls && Replies(s', c, j) ensures OnTheWay(s', c, j) {
      assert Replies(s, c, j) && OnTheWay(s, c, j);
    }
    if s'.jar.Some? && Revoked(s'.server, s'.jar.value) {
      assert s'.jar == s.jar && !reply.SetCookie?;
      var c, j :| c in s.calls && IsRefresh(s.calls[c].kind) && Replies(s, c, j);
      assert c != call && Replies(s', c, j);
    }
  }

  // The server's part: what one handled call does to the tokens.

  /** Handling the call of an unrevoked token never detects reuse and revokes at most that token. */
  lemma ServerEffect(cfg: Config, w: World, c: Call, at: int, jti: Jti, hash: string)
    requires RecordsMinted(w) && jti !in w.minted
    requires c.cookie.Some? ==> c.cookie.value in w.minted
    requires IsRefresh(c.kind) && c.cookie.Some? ==> !Revoked(w, c.cookie.value)
    ensures var step := ServerStep(w, c, at, jti, hash);
            var w' := AuthSessions.Next(cfg, w, step);
            var reply := ReplyTo(w, c, step, jti);
      && AnswerTo(w, step) != Some(ReuseDetected)
      && (forall j | j in w.minted :: j in w'.minted)
      && (forall j: Jti | Revoked(w', j) ::
        Revoked(w, j) || (IsRefresh(c.kind) && c.cookie == Some(j) && reply == SetCookie(jti)))
      && (reply.SetCookie? ==> reply.jti == jti && jti in w'.minted && !Revoked(w', jti))
  {}

  lemma HandleKeepsReplies(cfg: Config, s: System, call: CallId, at: int, jti: Jti, hash: string)
    requires Safe(s) && call in s.calls && s.calls[call].reply == None && jti !in s.server.minted
    ensures RepliesFresh(HandleCall(cfg, s, call, at, jti, hash))
  {
    var s' := HandleCall(cfg, s, call, at, jti, hash);
    ServerEffect(cfg, s.server, s.calls[call], at, jti, hash);
    hide AuthSessions.Next, AnswerTo, ServerStep, ReplyTo, Revoked, SingleFlight, RecordsMinted, JarGood, OneRefresh;
    forall d, j | d in s'.calls && Replies(s', d, j) ensures OnTheWay(s', d, j) {
      if d == call {
        assert j == jti;
        forall e | e in s'.calls ensures s'.calls[e].cookie != Some(j) && (Replies(s', e, j) ==> e == d) {
          assert e != call && Replies(s, e, j) ==> OnTheWay(s, e, j);
        }
      } else {
        assert Replies(s, d, j) && OnTheWay(s, d, j);
        assert s.calls[call].cookie != Some(j);
      }
    }
  }

  lemma HandleKeepsSafe(cfg: Config, s: System, call: CallId, at: int, jti: Jti, hash: string)
    requires Safe(s) && call in s.calls && s.calls[call].reply == None && jti !in s.server.minted
    ensures var s' := HandleCall(cfg, s, call, at, jti, hash);
            && OneRefresh(s') && CookiesMinted(s') && RepliesFresh(s') && PendingGood(s') && JarGood(s')
            && !s'.reuseSeen
  {
    var s' := HandleCall(cfg, s, call, at, jti, hash);
    HandleKeepsReplies(cfg, s, call, at, jti, hash);
    ServerEffect(cfg, s.server, s.calls[call], at, jti, hash);
    hide AuthSessions.Next, AnswerTo, ServerStep, ReplyTo, Revoked, SingleFlight, RecordsMinted, RepliesFresh, OnTheWay;
    forall d | d in s'.calls && IsRefresh(s'.calls[d].kind) && s'.calls[d].reply == None && s'.calls[d].cookie.Some?
      ensures !Revoked(s'.server, s'.calls[d].cookie.value)
    {
      assert d != call && IsRefresh(s.calls[d].kind);
    }
    if s'.jar.Some? && Revoked(s'.server, s'.jar.value) {
      if Revoked(s.server, s.jar.value) {
        var d, j :| d in s.calls && IsRefresh(s.calls[d].kind) && Replies(s, d, j);
        assert d != call && Replies(s', d, j);
      } else {
        assert Replies(s', call, jti);
      }
    }
  }

  lemma ServerKeepsRecords(cfg: Config, w: World, step: Step)
    requires RecordsMinted(w)
    ensures RecordsMinted(AuthSessions.Next(cfg, w, step))
  {
    NextKeepsRecords(cfg, w, step);
  }

  lemma PurgeKeepsSafe(cfg: Config, s: System, at: int)
    requires Safe(s)
    ensures Safe(Next(cfg, s, PurgeTokens(at)))
  {
    var s' := Next(cfg, s, PurgeTokens(at));
    assert forall j: Jti | Revoked(s'.server, j) :: Revoked(s.server, j);
    assert s'.server.minted == s.server.minted && s'.calls == s.calls && s'.tabs == s.tabs;
    forall c, j | c in s'.calls && Replies(s', c, j) ensures OnTheWay(s', c, j) {
      assert Replies(s, c, j) && OnTheWay(s, c, j);
    }
    if s'.jar.Some? && Revoked(s'.server, s'.jar.value) {
      var c, j :| c in s.calls && IsRefresh(s.calls[c].kind) && Replies(s, c, j);
      assert Replies(s', c, j);
    }
  }

  lemma NextKeepsSafe(cfg: Config, s: System, e: Event)
    requires Safe(s) && !e.Lose? && Alone(s, e)
    ensures Safe(Next(cfg, s, e))
  {
    NextKeepsSingleFlight(cfg, s, e);
    hide AuthSessions.Next, AnswerTo, SingleFlight, RepliesFresh, PendingGood, JarGood, CookiesMinted,
      OneRefresh, RecordsMinted, Settle, Idle;
    match e
    case Open(u, r, auth) => TabsAside(s, Next(cfg, s, e));
    case Send(u, r) => TabsAside(s, Next(cfg, s, e));
    case Intercept(u, r, expired) => UpdateKeepsSafe(s, u, RequestInterceptor(TabOf(s, u), r, expired, s.nextCall));
    case Response(u, r, unauthorized) =>
      UpdateKeepsSafe(s, u, ResponseInterceptor(TabOf(s, u), r, unauthorized, s.nextCall));
    case SubmitLogin(u, user) => CallsBelowNext(s); SubmitKeepsSafe(s, u, LoginCall(user));
    case SubmitLogout(u) => CallsBelowNext(s); SubmitKeepsSafe(s, u, LogoutCall);
    case SubmitRefresh(u) => CallsBelowNext(s); SubmitKeepsSafe(s, u, DirectRefresh);
    case Handle(call, at, jti, hash) =>
      if call in s.calls && s.calls[call].reply == None && jti !in s.server.minted {
        HandleKeepsSafe(cfg, s, call, at, jti, hash);
        ServerKeepsRecords(cfg, s.server, ServerStep(s.server, s.calls[call], at, jti, hash));
      }
    case Deliver(call) => if call in s.calls && s.calls[call].reply.Some? { DeliverKeepsSafe(s, call); }
    case PurgeTokens(at) => PurgeKeepsSafe(cfg, s, at);
  }

  lemma CallsBelowNext(s: System)
    requires SingleFlight(s)
    ensures forall c | c in s.calls :: c < s.nextCall
  {}

  lemma {:induction false} RunKeepsSafe(cfg: Config, s: System, events: seq<Event>)
    requires Safe(s) && (forall e: Event | e in events :: !e.Lose?) && AllAlone(cfg, s, events)
    ensures Safe(Run(cfg, s, events))
    decreases |events|
  {
    hide Safe, Next, Alone;
    if events != [] {
      NextKeepsSafe(cfg, s, events[0]);
      RunKeepsSafe(cfg, Next(cfg, s, events[0]), events[1..]);
    }
  }

  /** Any number of tabs, no lost message, no refresh started beside another: no rotated token is ever presented. */
  lemma AloneNeverReuses(cfg: Config, events: seq<Event>)
    requires (forall e: Event | e in events :: !e.Lose?) && AllAlone(cfg, INITIAL, events)
    ensures !Run(cfg, INITIAL, events).reuseSeen
  {
    RunKeepsSafe(cfg, INITIAL, events);
  }

  // ---- in one tab without direct refreshes the shared promise sees to that ----------------

  ghost predicate OnlyTab(s: System, t: TabId) { forall c | c in s.calls :: s.calls[c].tab == t }

  /** Events of tab t only, and no lost message. */
  predicate Orderly(e: Event, t: TabId) {
    match e
    case Open(u, _, _) => u == t
    case Intercept(u, _, _) => u == t
    case Send(u, _) => u == t
    case Response(u, _, _) => u == t
    case SubmitLogin(u, _) => u == t
    case SubmitLogout(u) => u == t
    case SubmitRefresh(u) => u == t
    case Lose(_) => false
    case _ => true
  }

  ghost predicate OnlyShared(s: System, t: TabId) {
    SingleFlight(s) && OnlyTab(s, t) && forall c | c in s.calls :: s.calls[c].kind != DirectRefresh
  }

  lemma SharedStartsAlone(s: System, e: Event, t: TabId)
    requires OnlyShared(s, t) && Orderly(e, t) && !e.SubmitRefresh?
    ensures Alone(s, e)
  {}

  lemma NextKeepsOnlyShared(cfg: Config, s: System, e: Event, t: TabId)
    requires OnlyShared(s, t) && Orderly(e, t) && !e.SubmitRefresh?
    ensures OnlyShared(Next(cfg, s, e), t)
  {
    NextKeepsSingleFlight(cfg, s, e);
    hide SingleFlight, AuthSessions.Next, AnswerTo, Settle, RequestInterceptor, ResponseInterceptor;
  }

  lemma {:induction false} SharedRunsAlone(cfg: Config, s: System, events: seq<Event>, t: TabId)
    requires OnlyShared(s, t) && forall e: Event | e in events :: Orderly(e, t) && !e.SubmitRefresh?
    ensures AllAlone(cfg, s, events)
    decreases |events|
  {
    hide OnlyShared, Next, Alone;
    if events != [] {
      assert events[0] in events;
      SharedStartsAlone(s, events[0], t);
      NextKeepsOnlyShared(cfg, s, events[0], t);
      SharedRunsAlone(cfg, Next(cfg, s, events[0]), events[1..], t);
    }
  }

  /**
   One tab, no lost message and no direct refresh: however requests interleave, no rotated token is ever presented.
   */
  lemma OneTabNeverReuses(cfg: Config, events: seq<Event>, t: TabId)
    requires forall e: Event | e in events :: Orderly(e, t) && !e.SubmitRefresh?
    ensures !Run(cfg, INITIAL, events).reuseSeen
  {
    SharedRunsAlone(cfg, INITIAL, events, t);
    AloneNeverReuses(cfg, events);
  }

  // ---- every condition is needed ----------------------------------------------------

  lemma RunThree(cfg: Config, s: System, a: Event, b: Event, c: Event, rest: seq<Event>)
    ensures Run(cfg, s, [a, b, c] + rest) == Run(cfg, Next(cfg, Next(cfg, Next(cfg, s, a), b), c), rest)
  {
    hide Next;
    var es := [a, b, c] + rest;
    assert es[1..] == [b, c] + rest && es[1..][1..] == [c] + rest && es[1..][1..][1..] == rest;
    var s1 := Next(cfg, s, a);
    assert Run(cfg, s1, es[1..]) == Run(cfg, Next(cfg, s1, b), es[1..][1..]);
    var s2 := Next(cfg, s1, b);
    assert Run(cfg, s2, es[1..][1..]) == Run(cfg, Next(cfg, s2, c), rest);
  }

  function LogIn(a: TabId): seq<Event> { [SubmitLogin(a, 7), Handle(0, 0, 1, "a"), Deliver(0)] }

  /** The browser holds token 1, live on the server. */
  function LoggedIn(cfg: Config): System {
    System(World(map[1 := Record(7, "a", 0, cfg.lifetime, false)], map[1 := Minted(7, "a", 1)], []),
           map[], Some(1), map[], 1, false)
  }

  lemma LogInRuns(cfg: Config, a: TabId, rest: seq<Event>)
    ensures Run(cfg, INITIAL, LogIn(a) + rest) == Run(cfg, LoggedIn(cfg), rest)
  {
    RunThree(cfg, INITIAL, SubmitLogin(a, 7), Handle(0, 0, 1, "a"), Deliver(0), rest);
    LogInState(cfg, a);
  }

  /** A second refresh presents token 1 after the first one rotated it. */
  lemma SecondPresentation(cfg: Config, s: System, call: CallId)
    requires call in s.calls && s.calls[call].kind == RefreshCall && s.calls[call].cookie == Some(1)
    requires s.calls[call].reply == None
    requires 1 in s.server.db && s.server.db[1] == Record(7, "a", 0, cfg.lifetime, true)
    requires 1 in s.server.minted && s.server.minted[1] == Minted(7, "a", 1) && 3 !in s.server.minted
    ensures Next(cfg, s, Handle(call, 0, 3, "c")).reuseSeen
  {}

  lemma FirstPresentation(cfg: Config, s: System, call: CallId)
    requires call in s.calls && s.calls[call].kind == RefreshCall && s.calls[call].cookie == Some(1)
    requires s.calls[call].reply == None
    requires s.server == LoggedIn(cfg).server
    ensures var s' := Next(cfg, s, Handle(call, 0, 2, "b"));
      && s' == s.(server := s'.server, calls := s.calls[call := s.calls[call].(reply := Some(SetCookie(2)))])
      && 1 in s'.server.db && s'.server.db[1] == Record(7, "a", 0, cfg.lifetime, true)
      && 1 in s'.server.minted && s'.server.minted[1] == Minted(7, "a", 1) && 3 !in s'.server.minted
  {}

  /** Both present token 1. */
  function TwoRefresh(a: TabId, b: TabId): seq<Event> {
    LogIn(a) + ([Open(a, 0, false), Intercept(a, 0, true), Open(b, 0, false)]
                + [Intercept(b, 0, true), Handle(1, 0, 2, "b"), Handle(2, 0, 3, "c")])
  }

  /** Two tabs share the cookie jar but not the promise: both present token 1. */
  lemma TwoTabsReuse(cfg: Config, a: TabId, b: TabId)
    requires a != b
    ensures Run(cfg, INITIAL, TwoRefresh(a, b)).reuseSeen
  {
    var s := LoggedIn(cfg);
    var last: seq<Event> := [Intercept(b, 0, true), Handle(1, 0, 2, "b"), Handle(2, 0, 3, "c")];
    LogInRuns(cfg, a, [Open(a, 0, false), Intercept(a, 0, true), Open(b, 0, false)] + last);
    RunThree(cfg, s, Open(a, 0, false), Intercept(a, 0, true), Open(b, 0, false), last);
    var s3 := Next(cfg, Next(cfg, Next(cfg, s, Open(a, 0, false)), Intercept(a, 0, true)), Open(b, 0, false));
    assert s3.calls == map[1 := Call(a, RefreshCall, Some(1), None)] && s3.nextCall == 2 && s3.jar == Some(1);
    var s4 := Next(cfg, s3, Intercept(b, 0, true));
    assert s4.calls[1] == Call(a, RefreshCall, Some(1), None) && s4.calls[2] == Call(b, RefreshCall, Some(1), None);
    hide Next;
    FirstPresentation(cfg, s4, 1);
    var s5 := Next(cfg, s4, Handle(1, 0, 2, "b"));
    SecondPresentation(cfg, s5, 2);
    assert last + [] == last;
    RunThree(cfg, s3, Intercept(b, 0, true), Handle(1, 0, 2, "b"), Handle(2, 0, 3, "c"), []);
  }

  function LoseAndRefresh(a: TabId): seq<Event> {
    LogIn(a) + ([Open(a, 0, false), Intercept(a, 0, true), Handle(1, 0, 2, "b")]
                + ([Lose(1), Open(a, 1, false), Intercept(a, 1, true)] + [Handle(2, 0, 3, "c")]))
  }

  /** The answer to a refresh is lost: the browser presents token 1 again. */
  lemma LostAnswerReuses(cfg: Config, a: TabId)
    ensures Run(cfg, INITIAL, LoseAndRefresh(a)).reuseSeen
  {
    var s := LoggedIn(cfg);
    var last := [Handle(2, 0, 3, "c")];
    var tail := [Lose(1), Open(a, 1, false), Intercept(a, 1, true)] + last;
    LogInRuns(cfg, a, [Open(a, 0, false), Intercept(a, 0, true), Handle(1, 0, 2, "b")] + tail);
    RunThree(cfg, s, Open(a, 0, false), Intercept(a, 0, true), Handle(1, 0, 2, "b"), tail);
    var s2 := Next(cfg, Next(cfg, s, Open(a, 0, false)), Intercept(a, 0, true));
    FirstRefresh(cfg, a);
    FirstPresentation(cfg, s2, 1);
    var s3 := Next(cfg, s2, Handle(1, 0, 2, "b"));
    RunThree(cfg, s3, Lose(1), Open(a, 1, false), Intercept(a, 1, true), last);
    LoseAndRetry(cfg, a, s3);
    hide Next;
    var s6 := Next(cfg, Next(cfg, Next(cfg, s3, Lose(1)), Open(a, 1, false)), Intercept(a, 1, true));
    SecondPresentation(cfg, s6, 2);
    assert last[1..] == [];
    assert Run(cfg, s6, last) == Run(cfg, Next(cfg, s6, Handle(2, 0, 3, "c")), []);
  }

  lemma FirstRefresh(cfg: Config, a: TabId)
    ensures var s := Next(cfg, Next(cfg, LoggedIn(cfg), Open(a, 0, false)), Intercept(a, 0, true));
      && s.calls == map[1 := Call(a, RefreshCall, Some(1), None)] && s.nextCall == 2 && s.jar == Some(1)
      && s.tabs == map[a := Tab(Some(1), map[0 := Request(false, AwaitSend, false, 0)])]
        && s.server == LoggedIn(cfg).server
  {
    var s1 := Next(cfg, LoggedIn(cfg), Open(a, 0, false));
    assert s1.tabs == map[a := Tab(None, map[0 := Request(false, Ready, false, 0)])];
    var s2 := Next(cfg, s1, Intercept(a, 0, true));
    assert s2.tabs[a].requests == map[0 := Request(false, AwaitSend, false, 0)];
    assert s2.tabs == map[a := Tab(Some(1), map[0 := Request(false, AwaitSend, false, 0)])];
  }

  lemma LoseAndRetry(cfg: Config, a: TabId, s: System)
    requires s.calls == map[1 := Call(a, RefreshCall, Some(1), Some(SetCookie(2)))] && s.nextCall == 2
    requires s.jar == Some(1)
    requires s.tabs == map[a := Tab(Some(1), map[0 := Request(false, AwaitSend, false, 0)])]
    ensures var s' := Next(cfg, Next(cfg, Next(cfg, s, Lose(1)), Open(a, 1, false)), Intercept(a, 1, true));
            s'.server == s.server && 2 in s'.calls && s'.calls[2] == Call(a, RefreshCall, Some(1), None)
  {
    var s1 := Next(cfg, s, Lose(1));
    assert s1.calls == map[];
    assert s1.tabs[a].refreshPromise == None && 1 !in s1.tabs[a].requests;
    var s2 := Next(cfg, s1, Open(a, 1, false));
    assert s2.tabs[a].requests[1] == Request(false, Ready, false, 0);
  }

  /**
   Two refreshes in flight with the same live token, in any state: once the server takes both,
   whichever first, it detects reuse.
   */
  lemma AtOnceReuses(
    cfg: Config, s: System, c: CallId, d: CallId, at: int, later: int, jti: Jti, hash: string, next: Jti, other: string)
    requires c in s.calls && d in s.calls && c != d && s.calls[c].reply == None && s.calls[d].reply == None
    requires IsRefresh(s.calls[c].kind) && IsRefresh(s.calls[d].kind)
    requires s.calls[c].cookie.Some? && s.calls[d].cookie == s.calls[c].cookie && RecordsMinted(s.server)
    requires var j := s.calls[c].cookie.value;
             && j in s.server.db && !s.server.db[j].revoked
             && at <= s.server.db[j].expiresAt && later <= s.server.db[j].expiresAt
    requires jti !in s.server.minted && next !in s.server.minted && jti != next
    ensures Next(cfg, Next(cfg, s, Handle(c, at, jti, hash)), Handle(d, later, next, other)).reuseSeen
  {
    var j := s.calls[c].cookie.value;
    var s1 := Next(cfg, s, Handle(c, at, jti, hash));
    assert s1.calls[d] == s.calls[d] && next !in s1.server.minted;
    assert j in s1.server.db && s1.server.db[j] == s.server.db[j].(revoked := true);
    assert j in s1.server.minted && s1.server.minted[j] == s.server.minted[j];
  }

  /**
   A page load restores its session with a direct refresh; before the answer another request starts the shared one.
   */
  function RestoreAndRefresh(a: TabId): seq<Event> {
    LogIn(a) + ([SubmitRefresh(a), Open(a, 0, false), Intercept(a, 0, true)]
                + [Handle(1, 0, 2, "b"), Handle(2, 0, 3, "c")])
  }

  lemma DirectRefreshReuses(cfg: Config, a: TabId)
    ensures Run(cfg, INITIAL, RestoreAndRefresh(a)).reuseSeen
  {
    var s := LoggedIn(cfg);
    var last: seq<Event> := [Handle(1, 0, 2, "b"), Handle(2, 0, 3, "c")];
    LogInRuns(cfg, a, [SubmitRefresh(a), Open(a, 0, false), Intercept(a, 0, true)] + last);
    RunThree(cfg, s, SubmitRefresh(a), Open(a, 0, false), Intercept(a, 0, true), last);
    var s2 := Next(cfg, Next(cfg, s, SubmitRefresh(a)), Open(a, 0, false));
    assert s2.calls == map[1 := Call(a, DirectRefresh, Some(1), None)] && s2.nextCall == 2 && s2.jar == Some(1);
    var s3 := Next(cfg, s2, Intercept(a, 0, true));
    assert s3.calls[1] == Call(a, DirectRefresh, Some(1), None) && s3.calls[2] == Call(a, RefreshCall, Some(1), None);
    hide Next;
    AtOnceReuses(cfg, s3, 1, 2, 0, 0, 2, "b", 3, "c");
    assert last[1..] == [Handle(2, 0, 3, "c")] && last[1..][1..] == [];
    var s4 := Next(cfg, s3, Handle(1, 0, 2, "b"));
    assert Run(cfg, s4, last[1..]) == Run(cfg, Next(cfg, s4, Handle(2, 0, 3, "c")), []);
  }

  // ---- exactly when reuse detection can fire by itself ----------------------------------

  /**
   Which tabs there are, whether messages get lost, whether sessions are restored directly, and
   whether every refresh waits until none is in flight in the whole browser.
   */
  datatype Environment = Environment(tabs: set<TabId>, losses: bool, direct: bool, alone: bool)

  predicate Allowed(e: Event, env: Environment) {
    match e
    case Open(u, _, _) => u in env.tabs
    case Intercept(u, _, _) => u in env.tabs
    case Send(u, _) => u in env.tabs
    case Response(u, _, _) => u in env.tabs
    case SubmitLogin(u, _) => u in env.tabs
    case SubmitLogout(u) => u in env.tabs
    case SubmitRefresh(u) => u in env.tabs && env.direct
    case Lose(_) => env.losses
    case _ => true
  }

  ghost predicate AllAllowed(events: seq<Event>, env: Environment) { forall e: Event | e in events :: Allowed(e, env) }

  /** Reuse detection never fires by itself. */
  ghost predicate NeverReuses(cfg: Config, env: Environment) {
    forall events | AllAllowed(events, env) && (env.alone ==> AllAlone(cfg, INITIAL, events)) ::
      !Run(cfg, INITIAL, events).reuseSeen
  }

  lemma {:induction false} NoTabNoCall(cfg: Config, s: System, events: seq<Event>, env: Environment)
    requires s.calls == map[] && !s.reuseSeen && env.tabs == {} && AllAllowed(events, env)
    ensures !Run(cfg, s, events).reuseSeen
    decreases |events|
  {
    hide AuthSessions.Next;
    if events != [] {
      assert events[0] in events;
      NoTabNoCall(cfg, Next(cfg, s, events[0]), events[1..], env);
    }
  }

  lemma OneTab(tabs: set<TabId>, t: TabId)
    requires t in tabs && |tabs| == 1
    ensures tabs == {t}
  {
    assert |tabs - {t}| == 0;
  }

  /** The lost answer needs no second refresh beside the first. */
  lemma LoseAndRefreshAlone(cfg: Config, a: TabId)
    ensures AllAlone(cfg, INITIAL, LoseAndRefresh(a))
  {
    hide Next, AllAlone, Idle;
    var s := LoggedIn(cfg);
    var last := [Handle(2, 0, 3, "c")];
    var again := [Lose(1), Open(a, 1, false), Intercept(a, 1, true)];
    var s1 := Next(cfg, s, Open(a, 0, false));
    var s2 := Next(cfg, s1, Intercept(a, 0, true));
    var s3 := Next(cfg, s2, Handle(1, 0, 2, "b"));
    var s4 := Next(cfg, s3, Lose(1));
    var s5 := Next(cfg, s4, Open(a, 1, false));
    FirstRefresh(cfg, a);
    FirstPresentation(cfg, s2, 1);
    CallsOfOpen(cfg, s, a, 0);
    CallsOfLose(cfg, s3, 1);
    CallsOfOpen(cfg, s4, a, 1);
    NoCallIdle(s1);
    NoCallIdle(s5);
    LogInAlone(cfg, a, [Open(a, 0, false), Intercept(a, 0, true), Handle(1, 0, 2, "b")] + (again + last));
    AloneThree(cfg, s, Open(a, 0, false), Intercept(a, 0, true), Handle(1, 0, 2, "b"), again + last);
    AloneThree(cfg, s3, Lose(1), Open(a, 1, false), Intercept(a, 1, true), last);
    LastAlone(cfg, Next(cfg, s5, Intercept(a, 1, true)), last[0]);
  }

  lemma NoCallIdle(s: System)
    requires s.calls == map[]
    ensures Idle(s)
  {}

  lemma CallsOfOpen(cfg: Config, s: System, a: TabId, r: RequestId)
    ensures Next(cfg, s, Open(a, r, false)).calls == s.calls
  {}

  lemma CallsOfLose(cfg: Config, s: System, call: CallId)
    ensures Next(cfg, s, Lose(call)).calls == s.calls - {call}
  {}

  lemma LastAlone(cfg: Config, s: System, e: Event)
    ensures AllAlone(cfg, s, [e]) <==> Alone(s, e)
  {
    hide Next, Alone;
    assert [e][1..] == [];
    assert AllAlone(cfg, Next(cfg, s, e), []);
  }

  lemma AloneThree(cfg: Config, s: System, a: Event, b: Event, c: Event, rest: seq<Event>)
    ensures var s1 := Next(cfg, s, a);
            var s2 := Next(cfg, s1, b);
            AllAlone(cfg, s, [a, b, c] + rest) <==>
            Alone(s, a) && Alone(s1, b) && Alone(s2, c) && AllAlone(cfg, Next(cfg, s2, c), rest)
  {
    hide Next, Alone;
    var es := [a, b, c] + rest;
    assert es[1..] == [b, c] + rest && es[1..][1..] == [c] + rest && es[1..][1..][1..] == rest;
    var s1 := Next(cfg, s, a);
    var s2 := Next(cfg, s1, b);
    assert AllAlone(cfg, s, es) <==> Alone(s, a) && AllAlone(cfg, s1, es[1..]);
    assert AllAlone(cfg, s1, es[1..]) <==> Alone(s1, b) && AllAlone(cfg, s2, es[1..][1..]);
    assert AllAlone(cfg, s2, es[1..][1..]) <==> Alone(s2, c) && AllAlone(cfg, Next(cfg, s2, c), rest);
  }

  lemma LogInAlone(cfg: Config, a: TabId, rest: seq<Event>)
    ensures AllAlone(cfg, INITIAL, LogIn(a) + rest) <==> AllAlone(cfg, LoggedIn(cfg), rest)
  {
    hide AllAlone, AuthSessions.Next;
    AloneThree(cfg, INITIAL, SubmitLogin(a, 7), Handle(0, 0, 1, "a"), Deliver(0), rest);
    LogInState(cfg, a);
  }

  lemma LogInState(cfg: Config, a: TabId)
    ensures Next(cfg, Next(cfg, Next(cfg, INITIAL, SubmitLogin(a, 7)), Handle(0, 0, 1, "a")), Deliver(0))
              == LoggedIn(cfg)
  {
    var s1 := Next(cfg, INITIAL, SubmitLogin(a, 7));
    assert s1.calls == map[0 := Call(a, LoginCall(7), None, None)];
    var s2 := Next(cfg, s1, Handle(0, 0, 1, "a"));
    assert s2.calls == map[0 := Call(a, LoginCall(7), None, Some(SetCookie(1)))];
    assert s2.server == LoggedIn(cfg).server;
  }

  /**
   Reuse detection never fires by itself exactly where there is no tab, or no message is lost and
   either every refresh waits for the others or there is one tab that never refreshes directly.
   */
  lemma NeverReusesIff(cfg: Config, env: Environment)
    ensures NeverReuses(cfg, env) <==>
            env.tabs == {} || (!env.losses && (env.alone || (|env.tabs| == 1 && !env.direct)))
  {
    hide Next, Run, AllAlone;
    if env.tabs == {} {
      forall events | AllAllowed(events, env) ensures !Run(cfg, INITIAL, events).reuseSeen {
        NoTabNoCall(cfg, INITIAL, events, env);
      }
    } else {
      var a :| a in env.tabs;
      if env.losses {
        LostAnswerReuses(cfg, a);
        LoseAndRefreshAlone(cfg, a);
        assert AllAllowed(LoseAndRefresh(a), env);
      } else if env.alone {
        forall events | AllAllowed(events, env) && AllAlone(cfg, INITIAL, events)
          ensures !Run(cfg, INITIAL, events).reuseSeen
        {
          forall e: Event | e in events ensures !e.Lose? { assert Allowed(e, env); }
          AloneNeverReuses(cfg, events);
        }
      } else if env.direct {
        DirectRefreshReuses(cfg, a);
        assert AllAllowed(RestoreAndRefresh(a), env);
      } else if b :| b in env.tabs && b != a {
        TwoTabsReuse(cfg, a, b);
        assert AllAllowed(TwoRefresh(a, b), env);
        if |env.tabs| == 1 { OneTab(env.tabs, a); }
      } else {
        assert env.tabs == {a};
        forall events | AllAllowed(events, env) ensures !Run(cfg, INITIAL, events).reuseSeen {
          forall e: Event | e in events ensures Orderly(e, a) && !e.SubmitRefresh? { assert Allowed(e, env); }
          OneTabNeverReuses(cfg, events, a);
        }
      }
    }
  }
}
