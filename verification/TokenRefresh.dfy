/** The 401 / refresh / retry protocol of the browser's API client.

    Requests, their network answers and the refresh call interleave freely: one `Event` is one
    uninterrupted stretch of the original's asynchronous code, and a run is any sequence of
    enabled events. `ApiClient` at the end holds the state the client really mutates; each of its
    handlers is proved to take exactly one `Next` step. */
module TokenRefresh {
  import opened Wrappers

  datatype Answer = Ok | Unauthorized | OtherError

  datatype Outcome = Resolved | Rejected(answer: Answer)

  datatype Phase = Ready | InFlight | Waiting | Done(outcome: Outcome)

  /** `awaited` is the refresh call whose promise this request awaits or has awaited. */
  datatype Request = Request(url: string, retried: bool, awaited: Option<nat>,
                             header: Option<string>, sends: nat, phase: Phase)

  /** One call of `refreshAccessToken`. `Settled` is resolved but its `finally` callback has not
      run yet; `Finished` is what the awaiting requests see. */
  datatype RefreshCall =
    | Queued(bearer: string)
    | Posted
    | Settled(token: Option<string>)
    | Finished(token: Option<string>)

  datatype RefreshAnswer = Failed | Body(accessToken: Option<string>)

  datatype Session = Session(accessToken: Option<string>, refreshToken: Option<string>,
                             inFlight: Option<nat>, requests: seq<Request>, calls: seq<RefreshCall>,
                             posts: nat, logouts: nat)

  datatype Event =
    | Send(i: nat)
    | Answered(i: nat, answer: Answer)
    | PostRefresh(c: nat)
    | RefreshAnswered(c: nat, body: RefreshAnswer)
    | RunFinally(c: nat)
    | Resume(i: nat)

  predicate Truthy(token: Option<string>) {
    token.Some? && token.value != ""
  }

  predicate EndsWith(s: string, suffix: string) {
    |suffix| <= |s| && s[|s| - |suffix|..] == suffix
  }

  predicate Retriable(url: string) {
    !EndsWith(url, "/auth/login") && !EndsWith(url, "/auth/refresh")
  }

  function NewRequest(url: string): Request {
    Request(url, false, None, None, 0, Ready)
  }

  function Start(urls: seq<string>, accessToken: Option<string>, refreshToken: Option<string>): Session {
    Session(accessToken, refreshToken, None, seq(|urls|, i requires 0 <= i < |urls| => NewRequest(urls[i])), [], 0, 0)
  }

  predicate Enabled(s: Session, e: Event) {
    match e
    case Send(i) => i < |s.requests| && s.requests[i].phase.Ready?
    case Answered(i, _) => i < |s.requests| && s.requests[i].phase.InFlight?
    case PostRefresh(c) => c < |s.calls| && s.calls[c].Queued?
    case RefreshAnswered(c, _) => c < |s.calls| && s.calls[c].Posted?
    case RunFinally(c) => c < |s.calls| && s.calls[c].Settled?
    case Resume(i) =>
      && i < |s.requests| && s.requests[i].phase.Waiting?
      && s.requests[i].awaited.Some? && s.requests[i].awaited.value < |s.calls|
      && s.calls[s.requests[i].awaited.value].Finished?
  }

  /** The state a `refreshAccessToken()` call is in when it first yields. */
  function NewCall(s: Session): RefreshCall {
    if Truthy(s.refreshToken) then Queued(s.refreshToken.value) else Settled(None)
  }

  function OnAnswer(s: Session, i: nat, answer: Answer): Session
    requires i < |s.requests|
  {
    var r := s.requests[i];
    if answer.Unauthorized? && !r.retried && Retriable(r.url) then
      var c := if s.inFlight.Some? then s.inFlight.value else |s.calls|;
      var calls := if s.inFlight.Some? then s.calls else s.calls + [NewCall(s)];
      s.(requests := s.requests[i := r.(retried := true, awaited := Some(c), phase := Waiting)],
         calls := calls, inFlight := Some(c))
    else
      s.(requests := s.requests[i := r.(phase := Done(if answer.Ok? then Resolved else Rejected(answer)))])
  }

  function OnResume(s: Session, i: nat): Session
    requires Enabled(s, Resume(i))
  {
    var r := s.requests[i];
    var token := s.calls[r.awaited.value].token;
    if Truthy(token) then
      s.(requests := s.requests[i := r.(header := token, phase := Ready)])
    else
      s.(requests := s.requests[i := r.(phase := Done(Rejected(Unauthorized)))],
         accessToken := None, refreshToken := None, logouts := s.logouts + 1)
  }

  function Next(s: Session, e: Event): Session
    requires Enabled(s, e)
  {
    match e
    case Send(i) =>
      var r := s.requests[i];
      var header := if Truthy(s.accessToken) then s.accessToken else r.header;
      s.(requests := s.requests[i := r.(header := header, sends := r.sends + 1, phase := InFlight)])
    case Answered(i, answer) => OnAnswer(s, i, answer)
    case PostRefresh(c) => s.(calls := s.calls[c := Posted], posts := s.posts + 1)
    case RefreshAnswered(c, body) =>
      var token := if body.Failed? then None else body.accessToken;
      s.(calls := s.calls[c := Settled(token)],
         accessToken := if Truthy(token) then token else s.accessToken)
    case RunFinally(c) => s.(calls := s.calls[c := Finished(s.calls[c].token)], inFlight := None)
    case Resume(i) => OnResume(s, i)
  }

  predicate Legal(s: Session, events: seq<Event>)
    decreases |events|
  {
    events == [] || (Enabled(s, events[0]) && Legal(Next(s, events[0]), events[1..]))
  }

  function Exec(s: Session, events: seq<Event>): Session
    requires Legal(s, events)
    decreases |events|
  {
    if events == [] then s else Exec(Next(s, events[0]), events[1..])
  }

  // ---- sums over the requests ----

  function Sum(f: Request -> nat, rs: seq<Request>): nat {
    if rs == [] then 0 else f(rs[0]) + Sum(f, rs[1..])
  }

  lemma {:induction false} SumUpdate(f: Request -> nat, rs: seq<Request>, i: nat, r: Request)
    requires i < |rs|
    ensures Sum(f, rs[i := r]) + f(rs[i]) == Sum(f, rs) + f(r)
    decreases |rs|
  {
    if i == 0 {
      assert rs[i := r][1..] == rs[1..];
    } else {
      assert rs[i := r][1..] == rs[1..][i - 1 := r];
      SumUpdate(f, rs[1..], i - 1, r);
    }
  }

  lemma {:induction false} SumAtMost(f: Request -> nat, bound: nat, rs: seq<Request>)
    requires forall i :: 0 <= i < |rs| ==> f(rs[i]) <= bound
    ensures Sum(f, rs) <= bound * |rs|
  {
    if rs != [] {
      forall i | 0 <= i < |rs[1..]| ensures f(rs[1..][i]) <= bound { assert rs[1..][i] == rs[i + 1]; }
      SumAtMost(f, bound, rs[1..]);
      assert bound * |rs| == bound + bound * |rs[1..]|;
    }
  }

  const sendsOf: Request -> nat := (r: Request) => r.sends
  const retriesOf: Request -> nat := (r: Request) => if r.retried then 1 else 0

  // ---- the invariant ----

  predicate RequestOk(s: Session, r: Request) {
    && (r.retried <==> r.awaited.Some?)
    && (r.retried ==> Retriable(r.url) && r.awaited.value < |s.calls|)
    && (r.phase.Ready? ==> r.sends == if r.retried then 1 else 0)
    && (r.phase.InFlight? ==> r.sends == if r.retried then 2 else 1)
    && (r.phase.Waiting? ==> r.retried && r.sends == 1)
    && (r.phase.Done? ==> 1 <= r.sends <= if r.retried then 2 else 1)
    && (r.phase == Done(Rejected(Unauthorized)) && Retriable(r.url) ==> r.retried)
    && (r.retried && !r.phase.Waiting? ==>
          var call := s.calls[r.awaited.value];
          && call.Finished?
          && (Truthy(call.token) <==> !(r.phase == Done(Rejected(Unauthorized)) && r.sends == 1))
          && (r.phase.Done? && r.sends == 1 ==> r.phase == Done(Rejected(Unauthorized))))
  }

  predicate Inv(s: Session) {
    && (forall i :: 0 <= i < |s.requests| ==> RequestOk(s, s.requests[i]))
    && (s.inFlight.Some? ==> s.inFlight.value < |s.calls|)
    && (forall c :: 0 <= c < |s.calls| ==> (!s.calls[c].Finished? <==> s.inFlight == Some(c)))
    && |s.calls| <= Sum(retriesOf, s.requests)
    && s.posts + (if s.inFlight.Some? && s.calls[s.inFlight.value].Queued? then 1 else 0) <= |s.calls|
  }

  lemma StartInv(urls: seq<string>, accessToken: Option<string>, refreshToken: Option<string>)
    ensures Inv(Start(urls, accessToken, refreshToken))
  {
  }

  /** A finished call never changes again and calls are never dropped. */
  predicate CallsGrow(s: Session, t: Session) {
    && |s.calls| <= |t.calls|
    && (forall c :: 0 <= c < |s.calls| && s.calls[c].Finished? ==> t.calls[c] == s.calls[c])
  }

  lemma OthersStayOk(s: Session, t: Session, changed: int)
    requires Inv(s) && CallsGrow(s, t)
    requires |t.requests| == |s.requests|
    requires forall j :: 0 <= j < |s.requests| && j != changed ==> t.requests[j] == s.requests[j]
    ensures forall j :: 0 <= j < |s.requests| && j != changed ==> RequestOk(t, t.requests[j])
  {
    forall j | 0 <= j < |s.requests| && j != changed ensures RequestOk(t, t.requests[j]) {
      assert RequestOk(s, s.requests[j]);
    }
  }

  lemma RefreshStepInv(s: Session, e: Event)
    requires Inv(s) && Enabled(s, e)
    requires e.PostRefresh? || e.RefreshAnswered? || e.RunFinally?
    ensures Inv(Next(s, e)) && CallsGrow(s, Next(s, e))
  {
    assert s.inFlight == Some(e.c);
    OthersStayOk(s, Next(s, e), -1);
  }

  lemma RequestStepInv(s: Session, e: Event)
    requires Inv(s) && Enabled(s, e)
    requires e.Send? || e.Resume?
    ensures Inv(Next(s, e)) && CallsGrow(s, Next(s, e))
  {
    var t := Next(s, e);
    SumUpdate(retriesOf, s.requests, e.i, t.requests[e.i]);
    OthersStayOk(s, t, e.i);
    assert RequestOk(s, s.requests[e.i]);
    assert RequestOk(t, t.requests[e.i]);
  }

  lemma AnswerInv(s: Session, i: nat, answer: Answer)
    requires Inv(s) && Enabled(s, Answered(i, answer))
    ensures Inv(OnAnswer(s, i, answer)) && CallsGrow(s, OnAnswer(s, i, answer))
  {
    var t := OnAnswer(s, i, answer);
    SumUpdate(retriesOf, s.requests, i, t.requests[i]);
    OthersStayOk(s, t, i);
    assert RequestOk(s, s.requests[i]);
    assert RequestOk(t, t.requests[i]);
  }

  /** Every step, in every interleaving, keeps the invariant and every finished result. */
  lemma NextInv(s: Session, e: Event)
    requires Inv(s) && Enabled(s, e)
    ensures Inv(Next(s, e)) && CallsGrow(s, Next(s, e))
    ensures |Next(s, e).requests| == |s.requests|
  {
    match e
    case Send(_) => RequestStepInv(s, e);
    case Resume(_) => RequestStepInv(s, e);
    case Answered(i, answer) => AnswerInv(s, i, answer);
    case PostRefresh(_) => RefreshStepInv(s, e);
    case RefreshAnswered(_, _) => RefreshStepInv(s, e);
    case RunFinally(_) => RefreshStepInv(s, e);
  }

  lemma {:induction false} ExecInv(s: Session, events: seq<Event>)
    requires Inv(s) && Legal(s, events)
    ensures Inv(Exec(s, events)) && CallsGrow(s, Exec(s, events))
    ensures |Exec(s, events).requests| == |s.requests|
    decreases |events|
  {
    if events != [] {
      NextInv(s, events[0]);
      ExecInv(Next(s, events[0]), events[1..]);
    }
  }

  // ---- what holds in every reachable state ----

  predicate Unfinished(s: Session, c: nat) {
    c < |s.calls| && !s.calls[c].Finished?
  }

  /** At most one refresh is outstanding, no request is sent more than twice, the refresh call is
      posted at most once per retried request, and the whole session sends at most three times
      as often as it has requests. */
  lemma Coalesced(urls: seq<string>, access: Option<string>, refresh: Option<string>, events: seq<Event>)
    requires Legal(Start(urls, access, refresh), events)
    ensures var s := Exec(Start(urls, access, refresh), events);
            && (forall c, d :: Unfinished(s, c) && Unfinished(s, d) ==> c == d)
            && (forall i :: 0 <= i < |s.requests| ==> s.requests[i].sends <= 2)
            && (forall i :: 0 <= i < |s.requests| && !Retriable(s.requests[i].url) ==> s.requests[i].sends <= 1)
            && s.posts <= |s.calls| <= Sum(retriesOf, s.requests)
            && Sum(sendsOf, s.requests) + s.posts <= 3 * |urls|
  {
    var s0 := Start(urls, access, refresh);
    StartInv(urls, access, refresh);
    ExecInv(s0, events);
    var s := Exec(s0, events);
    forall i | 0 <= i < |s.requests| ensures s.requests[i].sends <= if Retriable(s.requests[i].url) then 2 else 1 {
      assert RequestOk(s, s.requests[i]);
    }
    SumAtMost(sendsOf, 2, s.requests);
    SumAtMost(retriesOf, 1, s.requests);
  }

  /** All requests that awaited one refresh share its verdict, for good: a token re-sends every
      one of them, no token rejects every one of them unsent; and a retriable request is never
      rejected with 401 without having been re-sent or having seen its refresh fail. */
  lemma SharedVerdict(urls: seq<string>, access: Option<string>, refresh: Option<string>,
                      before: seq<Event>, later: seq<Event>, i: nat)
    requires Legal(Start(urls, access, refresh), before)
    requires Legal(Exec(Start(urls, access, refresh), before), later)
    requires i < |urls|
    ensures var s := Exec(Start(urls, access, refresh), before);
            var t := Exec(s, later);
            && |s.requests| == |t.requests| == |urls|
            && (forall c :: 0 <= c < |s.calls| && s.calls[c].Finished? ==> c < |t.calls| && t.calls[c] == s.calls[c])
            && var r := t.requests[i];
               && (r.retried && !r.phase.Waiting? ==>
                     && r.awaited.Some? && r.awaited.value < |t.calls| && t.calls[r.awaited.value].Finished?
                     && (if Truthy(t.calls[r.awaited.value].token)
                         then r.phase.Ready? || r.sends == 2
                         else r.phase == Done(Rejected(Unauthorized)) && r.sends == 1))
               && (r.phase == Done(Rejected(Unauthorized)) && Retriable(r.url) ==>
                     r.sends == 2 || (r.awaited.Some? && r.awaited.value < |t.calls|
                                      && t.calls[r.awaited.value].Finished?
                                      && !Truthy(t.calls[r.awaited.value].token)))
  {
    var s0 := Start(urls, access, refresh);
    StartInv(urls, access, refresh);
    ExecInv(s0, before);
    ExecInv(Exec(s0, before), later);
    var t := Exec(Exec(s0, before), later);
    assert RequestOk(t, t.requests[i]);
  }

  // ---- every run ends with every request settled ----

  const workOf: Request -> nat := (r: Request) =>
    match r.phase
    case Ready => if r.retried then 2 else 8
    case InFlight => if r.retried then 1 else 7
    case Waiting => 3
    case Done(_) => 0

  function CallWork(call: RefreshCall): nat {
    match call
    case Queued(_) => 3
    case Posted => 2
    case Settled(_) => 1
    case Finished(_) => 0
  }

  function Work(s: Session): nat
    requires Inv(s)
  {
    Sum(workOf, s.requests) + if s.inFlight.Some? then CallWork(s.calls[s.inFlight.value]) else 0
  }

  lemma NextWork(s: Session, e: Event)
    requires Inv(s) && Enabled(s, e)
    ensures Inv(Next(s, e)) && Work(Next(s, e)) < Work(s)
  {
    NextInv(s, e);
    var t := Next(s, e);
    if e.Send? || e.Answered? || e.Resume? {
      assert RequestOk(s, s.requests[e.i]);
      SumUpdate(workOf, s.requests, e.i, t.requests[e.i]);
      assert t.requests == s.requests[e.i := t.requests[e.i]];
    }
  }

  predicate AllSettled(s: Session) {
    && (forall i :: 0 <= i < |s.requests| ==> s.requests[i].phase.Done?)
    && (forall c :: 0 <= c < |s.calls| ==> s.calls[c].Finished?)
  }

  /** Whatever is not settled yet has a step it can take as soon as the network answers. */
  lemma NoDeadlock(s: Session) returns (e: Event)
    requires Inv(s) && !AllSettled(s)
    ensures Enabled(s, e)
  {
    if s.inFlight.Some? {
      var c := s.inFlight.value;
      e := match s.calls[c]
           case Queued(_) => PostRefresh(c)
           case Posted => RefreshAnswered(c, Failed)
           case Settled(_) => RunFinally(c);
      assert !s.calls[c].Finished?;
    } else {
      assert forall c :: 0 <= c < |s.calls| ==> s.calls[c].Finished?;
      var i :| 0 <= i < |s.requests| && !s.requests[i].phase.Done?;
      assert RequestOk(s, s.requests[i]);
      e := match s.requests[i].phase
           case Ready => Send(i)
           case InFlight => Answered(i, Ok)
           case Waiting => Resume(i);
    }
  }

  lemma {:induction false} ExecWork(s: Session, events: seq<Event>)
    requires Inv(s) && Legal(s, events)
    ensures Inv(Exec(s, events)) && Work(Exec(s, events)) + |events| <= Work(s)
    decreases |events|
  {
    if events != [] {
      NextWork(s, events[0]);
      ExecWork(Next(s, events[0]), events[1..]);
    }
  }

  /** No run is longer than eight steps per request, and a run that cannot be continued has
      settled every request and every refresh. */
  lemma EveryRequestSettles(urls: seq<string>, access: Option<string>, refresh: Option<string>, events: seq<Event>)
    requires Legal(Start(urls, access, refresh), events)
    ensures |events| <= 8 * |urls|
    ensures var s := Exec(Start(urls, access, refresh), events);
            (forall e :: !Enabled(s, e)) ==> AllSettled(s)
  {
    var s0 := Start(urls, access, refresh);
    StartInv(urls, access, refresh);
    ExecWork(s0, events);
    SumAtMost(workOf, 8, s0.requests);
    var s := Exec(s0, events);
    if !AllSettled(s) {
      var e := NoDeadlock(s);
    }
  }

  // ---- a valid refresh token never logs the user out ----

  /** This request was refused because the refresh it awaited gave no token. */
  predicate Refused(r: Request) {
    r.retried && r.sends == 1 && r.phase == Done(Rejected(Unauthorized))
  }

  const refusalsOf: Request -> nat := (r: Request) => if Refused(r) then 1 else 0

  lemma NextLogouts(s: Session, e: Event)
    requires Inv(s) && Enabled(s, e) && s.logouts == Sum(refusalsOf, s.requests)
    ensures var t := Next(s, e);
            && t.logouts == Sum(refusalsOf, t.requests)
            && t.refreshToken == (if t.logouts > s.logouts then None else s.refreshToken)
  {
    var t := Next(s, e);
    if e.Send? || e.Answered? || e.Resume? {
      assert RequestOk(s, s.requests[e.i]);
      SumUpdate(refusalsOf, s.requests, e.i, t.requests[e.i]);
      assert t.requests == s.requests[e.i := t.requests[e.i]];
    }
  }

  lemma {:induction false} ExecLogouts(s: Session, events: seq<Event>)
    requires Inv(s) && Legal(s, events) && s.logouts == Sum(refusalsOf, s.requests)
    ensures var t := Exec(s, events);
            && s.logouts <= t.logouts == Sum(refusalsOf, t.requests)
            && t.refreshToken == (if t.logouts > s.logouts then None else s.refreshToken)
    decreases |events|
  {
    if events != [] {
      NextInv(s, events[0]);
      NextLogouts(s, events[0]);
      ExecLogouts(Next(s, events[0]), events[1..]);
    }
  }

  lemma {:induction false} NoRefusalsYet(rs: seq<Request>)
    requires forall i :: 0 <= i < |rs| ==> !rs[i].retried
    ensures Sum(refusalsOf, rs) == 0
  {
    if rs != [] { NoRefusalsYet(rs[1..]); }
  }

  /** There are exactly as many logouts as requests refused for want of a new token, and the
      refresh token is given up exactly when there is one. */
  lemma LogoutsCounted(urls: seq<string>, access: Option<string>, refresh: Option<string>, events: seq<Event>)
    requires Legal(Start(urls, access, refresh), events)
    ensures var s := Exec(Start(urls, access, refresh), events);
            && s.logouts == Sum(refusalsOf, s.requests)
            && s.refreshToken == (if s.logouts > 0 then None else refresh)
  {
    StartInv(urls, access, refresh);
    NoRefusalsYet(Start(urls, access, refresh).requests);
    ExecLogouts(Start(urls, access, refresh), events);
  }

  predicate Good(token: Option<string>, good: set<string>) {
    token.Some? && token.value in good
  }

  /** A server whose refreshes each answer with some good token, a new one every time if it likes,
      and that never answers 401 to a request bearing a good token. Other answers are arbitrary. */
  predicate Honest(s: Session, e: Event, good: set<string>) {
    match e
    case Answered(i, answer) => i < |s.requests| && Good(s.requests[i].header, good) ==> !answer.Unauthorized?
    case RefreshAnswered(_, body) => body.Body? && Good(body.accessToken, good)
    case _ => true
  }

  predicate HonestRun(s: Session, events: seq<Event>, good: set<string>)
    requires Legal(s, events)
    decreases |events|
  {
    events == [] || (Honest(s, events[0], good) && HonestRun(Next(s, events[0]), events[1..], good))
  }

  predicate Refreshed(call: RefreshCall, good: set<string>) {
    (call.Settled? || call.Finished?) && Good(call.token, good)
  }

  predicate StillLoggedIn(s: Session, refresh: string, good: set<string>) {
    && s.refreshToken == Some(refresh) && s.logouts == 0
    && (forall c :: 0 <= c < |s.calls| ==> s.calls[c].Queued? || s.calls[c].Posted? || Refreshed(s.calls[c], good))
    && ((exists c :: 0 <= c < |s.calls| && Refreshed(s.calls[c], good)) ==> Good(s.accessToken, good))
    && (forall i :: 0 <= i < |s.requests| ==>
          var r := s.requests[i];
          && (r.retried && r.phase.InFlight? ==> Good(r.header, good))
          && (Retriable(r.url) ==> r.phase != Done(Rejected(Unauthorized))))
  }

  lemma NextStillLoggedIn(s: Session, e: Event, refresh: string, good: set<string>)
    requires refresh != "" && "" !in good
    requires Inv(s) && Enabled(s, e) && Honest(s, e, good) && StillLoggedIn(s, refresh, good)
    ensures StillLoggedIn(Next(s, e), refresh, good)
  {
    var t := Next(s, e);
    if e.Send? || e.Answered? || e.Resume? {
      assert RequestOk(s, s.requests[e.i]);
    }
    forall c | 0 <= c < |t.calls| && Refreshed(t.calls[c], good) ensures Good(t.accessToken, good) {
      if c < |s.calls| && t.calls[c] == s.calls[c] { assert Refreshed(s.calls[c], good); }
      if e.RunFinally? { assert Refreshed(s.calls[e.c], good); }
    }
  }

  lemma {:induction false} ExecStillLoggedIn(s: Session, events: seq<Event>, refresh: string, good: set<string>)
    requires refresh != "" && "" !in good
    requires Inv(s) && Legal(s, events) && HonestRun(s, events, good) && StillLoggedIn(s, refresh, good)
    ensures StillLoggedIn(Exec(s, events), refresh, good)
    decreases |events|
  {
    if events != [] {
      NextInv(s, events[0]);
      NextStillLoggedIn(s, events[0], refresh, good);
      ExecStillLoggedIn(Next(s, events[0]), events[1..], refresh, good);
    }
  }

  /** With a valid refresh token no interleaving logs the user out, however many refreshes it takes
      and whatever new token each of them gives. */
  lemma NoSpuriousLogout(urls: seq<string>, access: Option<string>, refresh: string, good: set<string>,
      events: seq<Event>)
    requires refresh != "" && "" !in good
    requires Legal(Start(urls, access, Some(refresh)), events)
    requires HonestRun(Start(urls, access, Some(refresh)), events, good)
    ensures var s := Exec(Start(urls, access, Some(refresh)), events);
            && s.logouts == 0 && s.refreshToken == Some(refresh)
            && (forall i :: 0 <= i < |s.requests| && Retriable(s.requests[i].url) ==>
                  s.requests[i].phase != Done(Rejected(Unauthorized)))
  {
    var s0 := Start(urls, access, Some(refresh));
    StartInv(urls, access, Some(refresh));
    ExecStillLoggedIn(s0, events, refresh, good);
  }

  lemma LastCharacters(s: string, suffix: string)
    requires suffix != ""
    ensures EndsWith(s, suffix) ==> s != "" && s[|s| - 1] == suffix[|suffix| - 1]
  {
    if EndsWith(s, suffix) {
      assert s[|s| - |suffix|..][|suffix| - 1] == s[|s| - 1];
    }
  }

  /** A url is left out of the retry exactly when it is some base followed by one of the two endpoints. */
  lemma RetriableExact(url: string)
    ensures !Retriable(url) <==> exists base: string :: url == base + "/auth/login" || url == base + "/auth/refresh"
  {
    if EndsWith(url, "/auth/login") { assert url == url[..|url| - |"/auth/login"|] + "/auth/login"; }
    if EndsWith(url, "/auth/refresh") { assert url == url[..|url| - |"/auth/refresh"|] + "/auth/refresh"; }
    forall base: string | url == base + "/auth/login" || url == base + "/auth/refresh" ensures !Retriable(url) {
      OnlyLoginAndRefreshExcluded(base);
    }
  }

  /** Only the login and refresh endpoints are left out of the retry: `/auth/me` is not. */
  lemma OnlyLoginAndRefreshExcluded(base: string)
    ensures Retriable(base + "/auth/me") && Retriable(base + "/auth/logout")
    ensures !Retriable(base + "/auth/login") && !Retriable(base + "/auth/refresh")
  {
    LastCharacters(base + "/auth/me", "/auth/login");
    LastCharacters(base + "/auth/me", "/auth/refresh");
    LastCharacters(base + "/auth/logout", "/auth/login");
    LastCharacters(base + "/auth/logout", "/auth/refresh");
    assert EndsWith(base + "/auth/login", "/auth/login");
    assert EndsWith(base + "/auth/refresh", "/auth/refresh");
  }

  // ---- what a run comes to, told by its events alone ----

  function SendsOf(events: seq<Event>, i: nat): nat {
    if events == [] then 0
    else SendsOf(events[..|events| - 1], i) + if events[|events| - 1] == Send(i) then 1 else 0
  }

  function PostsOf(events: seq<Event>): nat {
    if events == [] then 0
    else PostsOf(events[..|events| - 1]) + if events[|events| - 1].PostRefresh? then 1 else 0
  }

  /** The answers that request i got, in order. */
  function AnswersOf(events: seq<Event>, i: nat): seq<Answer> {
    if events == [] then []
    else
      var e := events[|events| - 1];
      AnswersOf(events[..|events| - 1], i) + if e.Answered? && e.i == i then [e.answer] else []
  }

  /** How many refreshes are over. They come one after the other, so this is also the number of the next. */
  function RefreshesOver(events: seq<Event>): nat {
    if events == [] then 0
    else RefreshesOver(events[..|events| - 1]) + if events[|events| - 1].RunFinally? then 1 else 0
  }

  /** The refresh that was next, or running, when request i got its first answer. */
  function RefreshFor(events: seq<Event>, i: nat): nat {
    if events == [] then 0
    else if AnswersOf(events[..|events| - 1], i) != [] then RefreshFor(events[..|events| - 1], i)
    else RefreshesOver(events[..|events| - 1])
  }

  /** The token that refresh c was answered with. */
  function TokenOf(events: seq<Event>, c: nat): Option<string> {
    if events == [] then None
    else
      var e := events[|events| - 1];
      if e.RefreshAnswered? && e.c == c then if e.body.Body? then e.body.accessToken else None
      else TokenOf(events[..|events| - 1], c)
  }

  /** Request i was resumed, and its refresh had brought no token. */
  predicate Turned(events: seq<Event>, i: nat) {
    Resume(i) in events && !Truthy(TokenOf(events, RefreshFor(events, i)))
  }

  /** The stored access token: the last one a refresh brought, unless a request was turned away since. */
  function StoredToken(access: Option<string>, events: seq<Event>): Option<string> {
    if events == [] then access
    else
      var before, e := events[..|events| - 1], events[|events| - 1];
      if e.RefreshAnswered? && e.body.Body? && Truthy(e.body.accessToken) then e.body.accessToken
      else if e.Resume? && !Truthy(TokenOf(before, RefreshFor(before, e.i))) then None
      else StoredToken(access, before)
  }

  /** The header of request i: the token stored at its last send, if there was one then. */
  function HeaderOf(access: Option<string>, events: seq<Event>, i: nat): Option<string> {
    if events == [] then None
    else
      var before, e := events[..|events| - 1], events[|events| - 1];
      if e == Send(i) && Truthy(StoredToken(access, before)) then StoredToken(access, before)
      else if e == Resume(i) && Truthy(TokenOf(before, RefreshFor(before, i))) then
        TokenOf(before, RefreshFor(before, i))
      else HeaderOf(access, before, i)
  }

  /** A first answer 401 to a request that takes part in the retry. */
  predicate AsksForRefresh(url: string, answers: seq<Answer>) {
    answers != [] && answers[0] == Unauthorized && Retriable(url)
  }

  function PhaseOf(url: string, events: seq<Event>, i: nat): Phase {
    var answers := AnswersOf(events, i);
    if answers == [] then if SendsOf(events, i) == 0 then Ready else InFlight
    else if |answers| > 1 || !AsksForRefresh(url, answers) then
      var last := answers[|answers| - 1];
      Done(if last == Ok then Resolved else Rejected(last))
    else if Resume(i) !in events then Waiting
    else if Turned(events, i) then Done(Rejected(Unauthorized))
    else if SendsOf(events, i) == 1 then Ready
    else InFlight
  }

  predicate RequestTold(url: string, access: Option<string>, events: seq<Event>, i: nat, r: Request) {
    && r == Request(url, AsksForRefresh(url, AnswersOf(events, i)),
                    if AsksForRefresh(url, AnswersOf(events, i)) then Some(RefreshFor(events, i)) else None,
                    HeaderOf(access, events, i), SendsOf(events, i), PhaseOf(url, events, i))
    && SendsOf(events, i) == |AnswersOf(events, i)| + (if r.phase.InFlight? then 1 else 0)
    && (Resume(i) in events ==> AnswersOf(events, i) != [] && RefreshFor(events, i) < RefreshesOver(events))
  }

  predicate CallTold(refresh: Option<string>, events: seq<Event>, c: nat, call: RefreshCall) {
    && (call.Finished? <==> c < RefreshesOver(events))
    && (call.Settled? || call.Finished? ==> call.token == TokenOf(events, c))
    && (call.Queued? ==> refresh == Some(call.bearer) && call.bearer != "")
    && (call.Queued? || call.Posted? ==> TokenOf(events, c).None?)
  }

  ghost predicate Told(urls: seq<string>, access: Option<string>, refresh: Option<string>, events: seq<Event>,
      s: Session) {
    && |s.requests| == |urls|
    && (forall i :: 0 <= i < |urls| ==> RequestTold(urls[i], access, events, i, s.requests[i]))
    && RefreshesOver(events) <= |s.calls| <= RefreshesOver(events) + 1
    && (forall c :: 0 <= c < |s.calls| ==> CallTold(refresh, events, c, s.calls[c]))
    && (forall c: nat :: c >= |s.calls| ==> TokenOf(events, c).None?)
    && s.inFlight == (if |s.calls| > RefreshesOver(events) then Some(RefreshesOver(events)) else None)
    && s.accessToken == StoredToken(access, events) && s.posts == PostsOf(events)
    && (s.refreshToken == refresh || s.refreshToken.None?)
  }

  lemma OneMoreEvent(events: seq<Event>, e: Event)
    ensures (events + [e])[..|events|] == events && (events + [e])[|events|] == e
    ensures RefreshesOver(events + [e]) == RefreshesOver(events) + if e.RunFinally? then 1 else 0
    ensures PostsOf(events + [e]) == PostsOf(events) + if e.PostRefresh? then 1 else 0
    ensures forall i: nat :: SendsOf(events + [e], i) == SendsOf(events, i) + if e == Send(i) then 1 else 0
    ensures forall i: nat :: AnswersOf(events + [e], i)
                             == AnswersOf(events, i) + if e.Answered? && e.i == i then [e.answer] else []
    ensures forall i: nat :: RefreshFor(events + [e], i)
                             == if AnswersOf(events, i) != [] then RefreshFor(events, i) else RefreshesOver(events)
    ensures forall c: nat :: !(e.RefreshAnswered? && e.c == c) ==> TokenOf(events + [e], c) == TokenOf(events, c)
    ensures forall i: nat :: Resume(i) in events + [e] <==> Resume(i) in events || e == Resume(i)
  {
    assert (events + [e])[..|events|] == events && (events + [e])[|events|] == e;
  }

  lemma StartTold(urls: seq<string>, access: Option<string>, refresh: Option<string>)
    ensures Told(urls, access, refresh, [], Start(urls, access, refresh))
  {
  }

  /** A request that the event is not about is told as before. */
  lemma OthersTold(url: string, access: Option<string>, events: seq<Event>, e: Event, i: nat, r: Request)
    requires RequestTold(url, access, events, i, r)
    requires !(e.Send? || e.Answered? || e.Resume?) || e.i != i
    requires e.RefreshAnswered? ==> e.c >= RefreshesOver(events)
    ensures RequestTold(url, access, events + [e], i, r)
  {
    OneMoreEvent(events, e);
  }

  lemma SendTold(url: string, access: Option<string>, events: seq<Event>, i: nat, r: Request)
    requires RequestTold(url, access, events, i, r) && r.phase.Ready?
    ensures var header := if Truthy(StoredToken(access, events)) then StoredToken(access, events) else r.header;
            RequestTold(url, access, events + [Send(i)], i,
                r.(header := header, sends := r.sends + 1, phase := InFlight))
  {
    OneMoreEvent(events, Send(i));
  }

  lemma AnswerTold(url: string, access: Option<string>, events: seq<Event>, i: nat, r: Request, answer: Answer)
    requires RequestTold(url, access, events, i, r) && r.phase.InFlight?
    ensures RequestTold(url, access, events + [Answered(i, answer)], i,
              if answer.Unauthorized? && !r.retried && Retriable(url) then
                r.(retried := true, awaited := Some(RefreshesOver(events)), phase := Waiting)
              else r.(phase := Done(if answer.Ok? then Resolved else Rejected(answer))))
  {
    OneMoreEvent(events, Answered(i, answer));
  }

  lemma ResumeTold(url: string, access: Option<string>, events: seq<Event>, i: nat, r: Request)
    requires RequestTold(url, access, events, i, r) && r.phase.Waiting? && RefreshFor(events, i) < RefreshesOver(events)
    ensures var token := TokenOf(events, RefreshFor(events, i));
            RequestTold(url, access, events + [Resume(i)], i,
              if Truthy(token) then r.(header := token, phase := Ready) else r.(phase := Done(Rejected(Unauthorized))))
  {
    OneMoreEvent(events, Resume(i));
  }

  lemma SendStepTold(urls: seq<string>, access: Option<string>, refresh: Option<string>, events: seq<Event>,
      s: Session, i: nat)
    requires Told(urls, access, refresh, events, s) && Enabled(s, Send(i))
    ensures Told(urls, access, refresh, events + [Send(i)], Next(s, Send(i)))
  {
    hide RequestTold;
    var e, t := Send(i), Next(s, Send(i));
    OneMoreEvent(events, e);
    forall j | 0 <= j < |urls| ensures RequestTold(urls[j], access, events + [e], j, t.requests[j]) {
      if j == i {
        SendTold(urls[i], access, events, i, s.requests[i]);
      } else {
        OthersTold(urls[j], access, events, e, j, s.requests[j]);
      }
    }
  }

  lemma AnswerStepTold(urls: seq<string>, access: Option<string>, refresh: Option<string>, events: seq<Event>,
      s: Session,
                       i: nat, answer: Answer)
    requires Told(urls, access, refresh, events, s) && Enabled(s, Answered(i, answer))
    ensures Told(urls, access, refresh, events + [Answered(i, answer)], Next(s, Answered(i, answer)))
  {
    hide RequestTold;
    var e, t := Answered(i, answer), Next(s, Answered(i, answer));
    OneMoreEvent(events, e);
    OwnUrl(urls[i], access, events, i, s.requests[i]);
    forall j | 0 <= j < |urls| ensures RequestTold(urls[j], access, events + [e], j, t.requests[j]) {
      if j == i {
        AnswerTold(urls[i], access, events, i, s.requests[i], answer);
      } else {
        OthersTold(urls[j], access, events, e, j, s.requests[j]);
      }
    }
  }

  lemma OwnUrl(url: string, access: Option<string>, events: seq<Event>, i: nat, r: Request)
    requires RequestTold(url, access, events, i, r)
    ensures r.url == url && (r.phase.Waiting? ==> r.awaited == Some(RefreshFor(events, i)))
  {
  }

  lemma ResumeStepTold(urls: seq<string>, access: Option<string>, refresh: Option<string>, events: seq<Event>,
      s: Session, i: nat)
    requires Told(urls, access, refresh, events, s) && Enabled(s, Resume(i))
    ensures Told(urls, access, refresh, events + [Resume(i)], Next(s, Resume(i)))
  {
    hide RequestTold;
    var e, t := Resume(i), Next(s, Resume(i));
    OneMoreEvent(events, e);
    OwnUrl(urls[i], access, events, i, s.requests[i]);
    assert CallTold(refresh, events, RefreshFor(events, i), s.calls[RefreshFor(events, i)]);
    forall j | 0 <= j < |urls| ensures RequestTold(urls[j], access, events + [e], j, t.requests[j]) {
      if j == i {
        ResumeTold(urls[i], access, events, i, s.requests[i]);
      } else {
        OthersTold(urls[j], access, events, e, j, s.requests[j]);
      }
    }
  }

  lemma RefreshStepTold(urls: seq<string>, access: Option<string>, refresh: Option<string>, events: seq<Event>,
      s: Session, e: Event)
    requires Told(urls, access, refresh, events, s) && Enabled(s, e)
    requires e.PostRefresh? || e.RefreshAnswered? || e.RunFinally?
    ensures Told(urls, access, refresh, events + [e], Next(s, e))
  {
    hide RequestTold;
    var t := Next(s, e);
    OneMoreEvent(events, e);
    assert CallTold(refresh, events, e.c, s.calls[e.c]);
    assert e.c == RefreshesOver(events);
    forall j | 0 <= j < |urls| ensures RequestTold(urls[j], access, events + [e], j, t.requests[j]) {
      OthersTold(urls[j], access, events, e, j, s.requests[j]);
    }
  }

  lemma NextTold(urls: seq<string>, access: Option<string>, refresh: Option<string>, events: seq<Event>, s: Session,
      e: Event)
    requires Told(urls, access, refresh, events, s) && Enabled(s, e)
    ensures Told(urls, access, refresh, events + [e], Next(s, e))
  {
    hide Told, Next, Enabled;
    match e
    case Send(i) => SendStepTold(urls, access, refresh, events, s, i);
    case Answered(i, answer) => AnswerStepTold(urls, access, refresh, events, s, i, answer);
    case Resume(i) => ResumeStepTold(urls, access, refresh, events, s, i);
    case _ => RefreshStepTold(urls, access, refresh, events, s, e);
  }

  lemma {:induction false} ExecTold(urls: seq<string>, access: Option<string>, refresh: Option<string>,
      past: seq<Event>,
                                    s: Session, events: seq<Event>)
    requires Told(urls, access, refresh, past, s) && Legal(s, events)
    ensures Told(urls, access, refresh, past + events, Exec(s, events))
    decreases |events|
  {
    hide Told, Next;
    if events == [] {
      assert past + events == past;
    } else {
      NextTold(urls, access, refresh, past, s, events[0]);
      ExecTold(urls, access, refresh, past + [events[0]], Next(s, events[0]), events[1..]);
      assert past + [events[0]] + events[1..] == past + events;
    }
  }

  /** Every run, told without its steps: which requests wait, are re-sent or done, with what header and
      how many sends; which refreshes are over, with what token, bearing what; and what is stored. */
  lemma RunTold(urls: seq<string>, access: Option<string>, refresh: Option<string>, events: seq<Event>)
    requires Legal(Start(urls, access, refresh), events)
    ensures Told(urls, access, refresh, events, Exec(Start(urls, access, refresh), events))
  {
    hide Told, Start;
    StartTold(urls, access, refresh);
    ExecTold(urls, access, refresh, [], Start(urls, access, refresh), events);
    assert [] + events == events;
  }

  /** How a request ends: resolved exactly when its last answer is a success; rejected with an answer
      exactly when that is its last one, it is no success, and it is not a first 401 that still waits
      for a refresh or is re-sent after one. */
  lemma RequestEnds(urls: seq<string>, access: Option<string>, refresh: Option<string>, events: seq<Event>, i: nat)
    requires Legal(Start(urls, access, refresh), events) && i < |urls|
    ensures var s := Exec(Start(urls, access, refresh), events);
            var answers := AnswersOf(events, i);
            && |s.requests| == |urls|
            && (s.requests[i].phase == Done(Resolved) <==> answers != [] && answers[|answers| - 1] == Ok)
            && (forall a :: s.requests[i].phase == Done(Rejected(a)) <==>
                  && answers != [] && answers[|answers| - 1] == a && a != Ok
                  && (|answers| == 1 && a == Unauthorized && Retriable(urls[i]) ==> Turned(events, i)))
  {
    hide Start, Exec, Legal, Turned;
    RunTold(urls, access, refresh, events);
    var s := Exec(Start(urls, access, refresh), events);
    assert RequestTold(urls[i], access, events, i, s.requests[i]);
    TurnedIsResumed(events, i);
  }

  lemma TurnedIsResumed(events: seq<Event>, i: nat)
    ensures Turned(events, i) ==> Resume(i) in events
  {
  }

  /** Every send, first or repeated, carries the access token stored at that moment, if there is one. */
  lemma SendCarriesToken(urls: seq<string>, access: Option<string>, refresh: Option<string>, events: seq<Event>, i: nat)
    requires Legal(Start(urls, access, refresh), events + [Send(i)]) && i < |urls|
    ensures var s := Exec(Start(urls, access, refresh), events + [Send(i)]);
            && |s.requests| == |urls|
            && (Truthy(StoredToken(access, events)) ==> s.requests[i].header == StoredToken(access, events))
  {
    hide Start, Exec, Legal;
    RunTold(urls, access, refresh, events + [Send(i)]);
    OneMoreEvent(events, Send(i));
    var s := Exec(Start(urls, access, refresh), events + [Send(i)]);
    assert RequestTold(urls[i], access, events + [Send(i)], i, s.requests[i]);
  }

  // ---- the client object ----

  /** The module variable, the stored tokens and the per-request flags of the client, updated in
      place by its two interceptors and by the refresh call they share. */
  class ApiClient {
    var accessToken: Option<string>
    var refreshToken: Option<string>
    var refreshInFlight: Option<nat>
    var requests: seq<Request>
    var calls: seq<RefreshCall>
    var posts: nat
    var logouts: nat

    function State(): Session
      reads this
    {
      Session(accessToken, refreshToken, refreshInFlight, requests, calls, posts, logouts)
    }

    constructor (urls: seq<string>, accessToken: Option<string>, refreshToken: Option<string>)
      ensures State() == Start(urls, accessToken, refreshToken)
    {
      this.accessToken, this.refreshToken, this.refreshInFlight := accessToken, refreshToken, None;
      this.requests := seq(|urls|, i requires 0 <= i < |urls| => NewRequest(urls[i]));
      this.calls, this.posts, this.logouts := [], 0, 0;
    }

    method SetStoredAccessToken(token: Option<string>)
      modifies this`accessToken
      ensures accessToken == if Truthy(token) then token else None
    {
      if Truthy(token) { accessToken := token; } else { accessToken := None; }
    }

    method ClearStoredTokens()
      modifies this`accessToken, this`refreshToken
      ensures accessToken == refreshToken == None
    {
      SetStoredAccessToken(None);
      refreshToken := None;
    }

    /** The request interceptor, run at every send, first or repeated. */
    method OnRequest(i: nat)
      requires Enabled(State(), Send(i))
      modifies this
      ensures State() == Next(old(State()), Send(i))
    {
      var r := requests[i];
      if Truthy(accessToken) { r := r.(header := accessToken); }
      requests := requests[i := r.(sends := r.sends + 1, phase := InFlight)];
    }

    /** The response interceptor up to `await refreshInFlight`. */
    method OnResponse(i: nat, answer: Answer)
      requires Enabled(State(), Answered(i, answer))
      modifies this
      ensures State() == Next(old(State()), Answered(i, answer))
    {
      var r := requests[i];
      if answer.Unauthorized? && !r.retried && Retriable(r.url) {
        if refreshInFlight.None? {
          calls := calls + [NewCall(State())];
          refreshInFlight := Some(|calls| - 1);
        }
        requests := requests[i := r.(retried := true, awaited := refreshInFlight, phase := Waiting)];
      } else {
        requests := requests[i := r.(phase := Done(if answer.Ok? then Resolved else Rejected(answer)))];
      }
    }

    method PostRefreshCall(c: nat)
      requires Enabled(State(), PostRefresh(c))
      modifies this
      ensures State() == Next(old(State()), PostRefresh(c))
    {
      calls, posts := calls[c := Posted], posts + 1;
    }

    method OnRefreshResponse(c: nat, body: RefreshAnswer)
      requires Enabled(State(), RefreshAnswered(c, body))
      modifies this
      ensures State() == Next(old(State()), RefreshAnswered(c, body))
    {
      var token := None;
      if body.Body? {
        token := body.accessToken;
        if Truthy(token) { SetStoredAccessToken(token); }
      }
      calls := calls[c := Settled(token)];
    }

    method OnRefreshFinally(c: nat)
      requires Enabled(State(), RunFinally(c))
      modifies this
      ensures State() == Next(old(State()), RunFinally(c))
    {
      calls, refreshInFlight := calls[c := Finished(calls[c].token)], None;
    }

    /** The response interceptor after `await refreshInFlight`. */
    method OnRefreshed(i: nat)
      requires Enabled(State(), Resume(i))
      modifies this
      ensures State() == Next(old(State()), Resume(i))
    {
      var r := requests[i];
      var newAccessToken := calls[r.awaited.value].token;
      if Truthy(newAccessToken) {
        requests := requests[i := r.(header := newAccessToken, phase := Ready)];
      } else {
        ClearStoredTokens();
        logouts := logouts + 1;
        requests := requests[i := r.(phase := Done(Rejected(Unauthorized)))];
      }
    }
  }
}
