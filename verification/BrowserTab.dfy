/**
 One browser tab talking to the auth server: the fetch helper that retries once after a 401, the
 shared in-flight refresh, the cookie jar, and everybody else who may act on the same server.

 Requests, server work and deliveries are separate steps and interleave freely. Every response is
 delivered; `LostReplyIsReplayIff` says what happens when one is not.
 */
module BrowserTab {
  import opened Common
  import opened RefreshSessions
  import opened SessionRuns

  /** A refresh request on the wire: the cookie it carried, then the cookie in its answer. */
  datatype Flight = Sent(cookie: Option<Token>) | Replied(minted: Option<Token>)

  /** Where one `apiFetch` call is: its first request, waiting for the shared refresh, or its retry. */
  datatype Phase = FirstTry | AwaitingRefresh | Retry | Done

  datatype Tab = Tab(
    server: State,
    jar: Option<Token>,           // the refresh cookie
    refreshInFlight: bool,        // the module variable that shares one refresh promise
    flights: seq<Flight>,
    logins: seq<Token>,           // refresh cookies in login answers still on their way
    calls: map<nat, Phase>,
    mine: set<Token>)             // every refresh token the server ever minted for this tab

  datatype Step =
    | Call(id: nat)
    | Respond(id: nat, unauthorized: bool)
    | ServeRefresh(k: nat, mint: Mint)
    | DeliverRefresh(k: nat)
    | ServeLogin(user: nat, ok: bool, mint: Mint)
    | DeliverLogin(k: nat)
    | ClearCookie
    | Elsewhere(e: Event)

  /** Join the refresh already in flight, or start one with the cookie now in the jar. */
  function BeginRefresh(t: Tab): Tab {
    if t.refreshInFlight then t
    else t.(refreshInFlight := true, flights := t.flights + [Sent(t.jar)])
  }

  /** The replacement cookie the server would answer with. */
  function Answer(s: State, cookie: Option<Token>, mint: Mint): Option<Token> {
    if cookie.Some? && Exchanged(s, cookie.value, mint) && cookie.value.user in s.users
    then Some(NewRefresh(s, cookie.value.user, mint)) else None
  }

  function Serve(s: State, cookie: Option<Token>, mint: Mint): State {
    if cookie.None? then s else Apply(s, Exchange(cookie.value, mint))
  }

  function Wake(calls: map<nat, Phase>, ok: bool): map<nat, Phase> {
    map id | id in calls :: if calls[id].AwaitingRefresh? then (if ok then Retry else Done) else calls[id]
  }

  function Without<T>(s: seq<T>, k: nat): seq<T>
    requires k < |s|
  {
    s[..k] + s[k + 1..]
  }

  function AsSet(o: Option<Token>): set<Token> {
    if o.Some? then {o.value} else {}
  }

  /** Other tabs and devices may do anything except present this tab's own refresh tokens. */
  predicate Foreign(t: Tab, e: Event) {
    e.Exchange? ==> e.token !in t.mine
  }

  function Next(t: Tab, step: Step): Tab {
    match step
    case Call(id) => if id in t.calls then t else t.(calls := t.calls[id := FirstTry])
    case Respond(id, unauthorized) =>
      if id !in t.calls then t
      else if t.calls[id].FirstTry? && unauthorized
      then BeginRefresh(t.(calls := t.calls[id := AwaitingRefresh]))
      else if t.calls[id].FirstTry? || t.calls[id].Retry? then t.(calls := t.calls[id := Done])
      else t
    case ServeRefresh(k, mint) =>
      if k < |t.flights| && t.flights[k].Sent?
      then
        var cookie := t.flights[k].cookie;
        var minted := Answer(t.server, cookie, mint);
        t.(server := Serve(t.server, cookie, mint),
           flights := t.flights[k := Replied(minted)],
           mine := t.mine + AsSet(minted))
      else t
    case DeliverRefresh(k) =>
      if k < |t.flights| && t.flights[k].Replied?
      then
        var minted := t.flights[k].minted;
        t.(jar := if minted.Some? then minted else t.jar,
           refreshInFlight := false,
           flights := Without(t.flights, k),
           calls := Wake(t.calls, minted.Some?))
      else t
    case ServeLogin(user, ok, mint) =>
      var after := Apply(t.server, Login(user, ok, mint));
      if after == t.server || user !in t.server.users then t
      else
        var minted := NewRefresh(t.server, user, mint);
        t.(server := after, logins := t.logins + [minted], mine := t.mine + {minted})
    case DeliverLogin(k) =>
      if k < |t.logins| then t.(jar := Some(t.logins[k]), logins := Without(t.logins, k)) else t
    case ClearCookie => t.(jar := None)
    case Elsewhere(e) => if Foreign(t, e) then t.(server := Apply(t.server, e)) else t
  }

  function Play(t: Tab, steps: seq<Step>): Tab
    decreases |steps|
  {
    if steps == [] then t else Play(Next(t, steps[0]), steps[1..])
  }

  /** A tab just opened on a server in any reachable state. */
  ghost predicate Opened(t: Tab) {
    && Inv(t.server) && t.jar.None? && !t.refreshInFlight
    && t.flights == [] && t.logins == [] && t.calls == map[] && t.mine == {}
  }

  // ----- Invariant -----

  /** The row behind the token is live, or the version has moved on: presenting it is no reuse. */
  ghost predicate Safe(s: State, t: Token) {
    && t in s.issued && t.RefreshToken? && t.user in s.users
    && (t.version < s.users[t.user].version || exists row :: TokenRow(s, t, row) && !s.sessions[row].revoked)
  }

  ghost predicate SafeCookie(s: State, c: Option<Token>) {
    c.Some? ==> Safe(s, c.value)
  }

  ghost predicate Answered(t: Tab) {
    |t.flights| == 1 && t.flights[0].Replied? && t.flights[0].minted.Some?
  }

  /** The cookie on the wire, or in the answer, or else in the jar, is safe; answers to logins are
      safe and distinct from whatever a refresh might consume meanwhile. */
  ghost predicate CookiesOk(t: Tab) {
    && (!Answered(t) ==> SafeCookie(t.server, t.jar))
    && (|t.flights| == 1 ==>
          SafeCookie(t.server, if t.flights[0].Sent? then t.flights[0].cookie else t.flights[0].minted))
    && (forall k :: 0 <= k < |t.logins| ==>
          && Safe(t.server, t.logins[k])
          && Some(t.logins[k]) != t.jar
          && (|t.flights| == 1 && t.flights[0].Sent? ==> Some(t.logins[k]) != t.flights[0].cookie)
          && (Answered(t) ==> Some(t.logins[k]) != t.flights[0].minted))
    && (forall i, j :: 0 <= i < j < |t.logins| ==> t.logins[i] != t.logins[j])
  }

  ghost predicate Owned(t: Tab) {
    && t.mine <= t.server.issued
    && (t.jar.Some? ==> t.jar.value in t.mine)
    && (forall k :: 0 <= k < |t.logins| ==> t.logins[k] in t.mine)
    && (|t.flights| == 1 && t.flights[0].Sent? && t.flights[0].cookie.Some? ==> t.flights[0].cookie.value in t.mine)
    && (|t.flights| == 1 && t.flights[0].Replied? && t.flights[0].minted.Some? ==> t.flights[0].minted.value in t.mine)
  }

  ghost predicate TabInv(t: Tab) {
    && Inv(t.server)
    && |t.flights| == (if t.refreshInFlight then 1 else 0)
    && (forall id :: id in t.calls && t.calls[id].AwaitingRefresh? ==> t.refreshInFlight)
    && Owned(t)
    && CookiesOk(t)
  }

  lemma SafeIsNotReused(s: State, t: Token, now: int)
    requires Inv(s) && Safe(s, t)
    ensures !Judge(s, t, now).Reused?
  {
    var row := RowOfToken(s, t);
    forall i | TokenRow(s, t, i) ensures i == row { }
  }

  /** No step of the server endangers a token it does not present. */
  lemma SafeSurvives(s: State, e: Event, t: Token)
    requires Inv(s) && Safe(s, t)
    requires e.Exchange? ==> e.token != t
    ensures Safe(Apply(s, e), t)
  {
    StepKeepsInv(s, e);
    StepExtends(s, e);
    var row := RowOfToken(s, t);
    var row' := RowOfToken(Apply(s, e), t);
    assert row == row';
    if t.version == s.users[t.user].version {
      forall i | TokenRow(s, t, i) ensures i == row { }
      if e.Exchange? && e.token !in s.issued {
        assert Apply(s, e) == s;
      } else {
        RevocationBumps(s, e, row);
      }
    }
  }

  lemma FreshIsSafe(s: State, s': State, user: nat, mint: Mint)
    requires Inv(s) && Inv(s') && user in s.users && user in s'.users
    requires !JtiTaken(s.sessions, mint.jti)
    requires |s'.sessions| == |s.sessions| + 1 && s'.sessions[|s.sessions|] == NewRow(s, user, mint)
    requires NewRefresh(s, user, mint) in s'.issued
    ensures Safe(s', NewRefresh(s, user, mint))
    ensures NewRefresh(s, user, mint) !in s.issued
  {
    var minted := NewRefresh(s, user, mint);
    var row := RowOfToken(s', minted);
    assert s'.sessions[|s.sessions|].jti == s'.sessions[row].jti;
    assert row == |s.sessions|;
    if minted in s.issued { FreshTokenId(s, minted, mint.jti); }
  }

  // ----- Every step keeps the invariant -----

  /** A server step that presents no cookie of the tab, or none at all, leaves all of them safe. */
  lemma OwnCookiesSurvive(t: Tab, e: Event)
    requires TabInv(t) && Foreign(t, e)
    ensures forall u :: u in t.mine && Safe(t.server, u) ==> Safe(Apply(t.server, e), u)
  {
    forall u | u in t.mine && Safe(t.server, u) ensures Safe(Apply(t.server, e), u) {
      SafeSurvives(t.server, e, u);
    }
  }

  lemma ElsewhereKeepsInv(t: Tab, e: Event)
    requires TabInv(t)
    ensures TabInv(Next(t, Elsewhere(e)))
  {
    if Foreign(t, e) {
      StepKeepsInv(t.server, e);
      StepExtends(t.server, e);
      OwnCookiesSurvive(t, e);
    }
  }

  /** A login answer for this tab joins the others: it is new, so it differs from every cookie around. */
  lemma NewLoginKeepsInv(t: Tab, minted: Token)
    requires TabInv(t) && Safe(t.server, minted) && minted !in t.mine
    ensures TabInv(t.(logins := t.logins + [minted], mine := t.mine + {minted}))
  {
  }

  lemma LoginMints(s: State, user: nat, ok: bool, mint: Mint)
    requires Inv(s) && user in s.users && Apply(s, Login(user, ok, mint)) != s
    ensures var after := Apply(s, Login(user, ok, mint));
      Safe(after, NewRefresh(s, user, mint)) && NewRefresh(s, user, mint) !in s.issued
  {
    var after := Apply(s, Login(user, ok, mint));
    assert after == Issue(s, user, mint) && !JtiTaken(s.sessions, mint.jti);
    IssueKeepsInv(s, user, mint);
    FreshIsSafe(s, after, user, mint);
  }

  lemma ServeLoginKeepsInv(t: Tab, user: nat, ok: bool, mint: Mint)
    requires TabInv(t)
    ensures TabInv(Next(t, ServeLogin(user, ok, mint)))
  {
    var e := Login(user, ok, mint);
    if Apply(t.server, e) != t.server && user in t.server.users {
      LoginMints(t.server, user, ok, mint);
      ElsewhereKeepsInv(t, e);
      var t1 := Next(t, Elsewhere(e));
      NewLoginKeepsInv(t1, NewRefresh(t.server, user, mint));
    }
  }

  /** The answer to the refresh in flight replaces the cookie it carried. */
  lemma AnswerKeepsInv(t: Tab, after: State, minted: Option<Token>)
    requires TabInv(t) && |t.flights| == 1 && t.flights[0].Sent? && Inv(after) && t.server.issued <= after.issued
    requires forall u :: u in t.mine && Safe(t.server, u) && (minted.Some? ==> Some(u) != t.flights[0].cookie) ==>
      Safe(after, u)
    requires minted.Some? ==> minted.value !in t.mine && Safe(after, minted.value)
    ensures TabInv(t.(server := after, flights := [Replied(minted)], mine := t.mine + AsSet(minted)))
  {
  }

  lemma ServeRefreshKeepsInv(t: Tab, mint: Mint)
    requires TabInv(t) && |t.flights| == 1 && t.flights[0].Sent?
    ensures TabInv(Next(t, ServeRefresh(0, mint)))
  {
    var cookie := t.flights[0].cookie;
    assert t.flights[0 := Replied(Answer(t.server, cookie, mint))] == [Replied(Answer(t.server, cookie, mint))];
    if cookie.Some? {
      RefreshServed(t, cookie.value, mint);
    }
    AnswerKeepsInv(t, Serve(t.server, cookie, mint), Answer(t.server, cookie, mint));
  }

  lemma RefreshServed(t: Tab, c: Token, mint: Mint)
    requires TabInv(t) && |t.flights| == 1 && t.flights[0] == Sent(Some(c))
    ensures var after, minted := Apply(t.server, Exchange(c, mint)), Answer(t.server, Some(c), mint);
      && Inv(after) && t.server.issued <= after.issued
      && (forall u :: u in t.mine && Safe(t.server, u) && (minted.Some? ==> u != c) ==> Safe(after, u))
      && (minted.Some? ==> minted.value !in t.mine && Safe(after, minted.value))
  {
    var e := Exchange(c, mint);
    var after := Apply(t.server, e);
    SafeIsNotReused(t.server, c, mint.now);
    RowExpiredUnreachable(t.server, c, mint.now);
    StepKeepsInv(t.server, e);
    StepExtends(t.server, e);
    if Exchanged(t.server, c, mint) {
      var row := RowOfToken(t.server, c);
      assert after == Rotate(t.server, row, mint);
      FreshIsSafe(t.server, after, c.user, mint);
      forall u | u in t.mine && Safe(t.server, u) && u != c ensures Safe(after, u) {
        SafeSurvives(t.server, e, u);
      }
    } else {
      assert after == t.server;
    }
  }

  lemma DeliverRefreshKeepsInv(t: Tab)
    requires TabInv(t) && |t.flights| == 1 && t.flights[0].Replied?
    ensures TabInv(Next(t, DeliverRefresh(0)))
  {
  }

  lemma WithoutAt<T>(s: seq<T>, k: nat, i: nat)
    requires k < |s| && i < |s| - 1
    ensures Without(s, k)[i] == s[if i < k then i else i + 1]
  {
  }

  lemma DeliverLoginKeepsInv(t: Tab, k: nat)
    requires TabInv(t) && k < |t.logins|
    ensures TabInv(Next(t, DeliverLogin(k)))
  {
    var t' := Next(t, DeliverLogin(k));
    forall i | 0 <= i < |t'.logins|
      ensures t'.logins[i] == t.logins[if i < k then i else i + 1] && t'.logins[i] != t.logins[k]
    {
      WithoutAt(t.logins, k, i);
    }
    assert Owned(t');
    assert CookiesOk(t');
  }

  lemma NextKeepsInv(t: Tab, step: Step)
    requires TabInv(t)
    ensures TabInv(Next(t, step))
  {
    match step
    case ServeRefresh(k, mint) => if k < |t.flights| && t.flights[k].Sent? { ServeRefreshKeepsInv(t, mint); }
    case DeliverRefresh(k) => if k < |t.flights| && t.flights[k].Replied? { DeliverRefreshKeepsInv(t); }
    case ServeLogin(user, ok, mint) => ServeLoginKeepsInv(t, user, ok, mint);
    case DeliverLogin(k) => if k < |t.logins| { DeliverLoginKeepsInv(t, k); }
    case Elsewhere(e) => ElsewhereKeepsInv(t, e);
    case _ =>
  }

  lemma {:induction false} PlayKeepsInv(t: Tab, steps: seq<Step>)
    requires TabInv(t)
    ensures TabInv(Play(t, steps))
    decreases |steps|
  {
    if steps != [] {
      NextKeepsInv(t, steps[0]);
      PlayKeepsInv(Next(t, steps[0]), steps[1..]);
    }
  }

  /** Single flight and rotation fit together: in every interleaving at most one refresh is in
      flight, and whatever it carries, whenever it is served, the server does not see a reuse. */
  lemma HonestTabIsNeverLoggedOut(t: Tab, steps: seq<Step>)
    requires Opened(t)
    ensures |Play(t, steps).flights| <= 1
    ensures var t' := Play(t, steps);
      forall k, now :: 0 <= k < |t'.flights| && t'.flights[k].Sent? && t'.flights[k].cookie.Some? ==>
        Judge(t'.server, t'.flights[k].cookie.value, now) != Reused
  {
    PlayKeepsInv(t, steps);
    var t' := Play(t, steps);
    forall k, now | 0 <= k < |t'.flights| && t'.flights[k].Sent? && t'.flights[k].cookie.Some?
      ensures Judge(t'.server, t'.flights[k].cookie.value, now) != Reused
    {
      SafeIsNotReused(t'.server, t'.flights[k].cookie.value, now);
    }
  }

  lemma {:induction false} PlayOneMore(t: Tab, steps: seq<Step>, step: Step)
    ensures Play(t, steps + [step]) == Next(Play(t, steps), step)
    decreases |steps|
  {
    if steps == [] {
      assert [step][1..] == [] && [] + [step] == [step];
    } else {
      assert (steps + [step])[1..] == steps[1..] + [step];
      PlayOneMore(Next(t, steps[0]), steps[1..], step);
    }
  }

  // ----- What a call sees -----

  /** A call begins with its first try, once; signing out empties the jar. */
  lemma CallBegins(t: Tab, id: nat)
    ensures Next(t, Call(id)) == if id in t.calls then t else t.(calls := t.calls[id := FirstTry])
    ensures Next(t, ClearCookie).jar.None?
  {
  }

  /** A first 401 makes the call wait for the shared refresh and starts one with the cookie in the jar if
      none is in flight; any other answer, and any answer to the retry, ends the call. */
  lemma CallAnswered(t: Tab, id: nat, unauthorized: bool)
    requires id in t.calls
    ensures var t' := Next(t, Respond(id, unauthorized));
      if t.calls[id].FirstTry? && unauthorized
      then
        && t'.calls[id].AwaitingRefresh? && t'.refreshInFlight
        && t'.flights == if t.refreshInFlight then t.flights else t.flights + [Sent(t.jar)]
      else t'.calls[id] == (if t.calls[id].AwaitingRefresh? then AwaitingRefresh else Done) && t'.flights == t.flights
  {
  }

  /** When the refresh comes back with a cookie, it is stored and every waiting call is sent again; without
      one the jar stays and every waiting call ends. The next 401 starts a new refresh. */
  lemma RefreshDelivered(t: Tab, k: nat)
    requires k < |t.flights| && t.flights[k].Replied?
    ensures var t', minted := Next(t, DeliverRefresh(k)), t.flights[k].minted;
      && !t'.refreshInFlight && |t'.flights| == |t.flights| - 1
      && t'.jar == (if minted.Some? then minted else t.jar)
      && t'.calls.Keys == t.calls.Keys
      && forall id :: id in t.calls ==>
           t'.calls[id] == if t.calls[id].AwaitingRefresh? then (if minted.Some? then Retry else Done) else t.calls[id]
  {
  }

  /** The server answers a refresh with the cookie it has just issued, exactly if it exchanged one. */
  lemma RefreshAnswered(t: Tab, mint: Mint)
    requires TabInv(t) && |t.flights| == 1 && t.flights[0].Sent?
    ensures var t', cookie := Next(t, ServeRefresh(0, mint)), t.flights[0].cookie;
      && |t'.flights| == 1 && t'.flights[0].Replied?
      && (t'.flights[0].minted.Some? <==> cookie.Some? && Exchanged(t.server, cookie.value, mint))
      && (t'.flights[0].minted.Some? ==>
            && t'.flights[0].minted.value in t'.server.issued && t'.flights[0].minted.value !in t.server.issued
            && t'.flights[0].minted.value.jti == mint.jti)
      && t'.server == (if cookie.None? then t.server else Apply(t.server, Exchange(cookie.value, mint)))
  {
    if t.flights[0].cookie.Some? { RefreshServed(t, t.flights[0].cookie.value, mint); }
    var minted := Answer(t.server, t.flights[0].cookie, mint);
    if minted.Some? && minted.value in t.server.issued { FreshTokenId(t.server, minted.value, mint.jti); }
  }

  // ----- When a cookie is presented twice -----

  predicate NeverPresents(es: seq<Event>, c: Token) {
    forall i :: 0 <= i < |es| && es[i].Exchange? ==> es[i].token != c
  }

  lemma {:induction false} SafeSurvivesRun(s: State, es: seq<Event>, t: Token)
    requires Inv(s) && Safe(s, t) && NeverPresents(es, t)
    ensures Inv(Run(s, es)) && Safe(Run(s, es), t)
    decreases |es|
  {
    if es != [] {
      StepKeepsInv(s, es[0]);
      SafeSurvives(s, es[0], t);
      SafeSurvivesRun(Apply(s, es[0]), es[1..], t);
    }
  }

  /** Present a safe cookie, let others act, present it again: the second presentation is taken for a
      replay exactly when the first was exchanged and the cookie would otherwise still pass. */
  lemma PresentedAgainIff(s: State, c: Token, mint: Mint, es: seq<Event>, now: int)
    requires Inv(s) && Safe(s, c) && NeverPresents(es, c)
    ensures var s' := Run(Apply(s, Exchange(c, mint)), es);
      Judge(s', c, now).Reused? <==>
        && Exchanged(s, c, mint) && now < c.exp
        && c.user in s'.users && s'.users[c.user].active && c.version == s'.users[c.user].version
  {
    if Exchanged(s, c, mint) {
      SecondPresentationIsReuse(s, c, mint, es, now);
    } else {
      SafeIsNotReused(s, c, mint.now);
      RowExpiredUnreachable(s, c, mint.now);
      assert Apply(s, Exchange(c, mint)) == s;
      SafeSurvivesRun(s, es, c);
      SafeIsNotReused(Run(s, es), c, now);
    }
  }

  /** If the answer to a refresh is lost, the jar still holds the cookie that was sent, and the next
      refresh is taken for a replay, which revokes every session of the user, exactly when the lost
      answer was a success and the cookie would otherwise still pass. */
  lemma LostReplyIsReplayIff(t: Tab, mint: Mint, es: seq<Event>, now: int)
    requires TabInv(t) && |t.flights| == 1 && t.flights[0] == Sent(t.jar) && t.jar.Some?
    requires NeverPresents(es, t.jar.value)
    ensures var lost := Next(t, ServeRefresh(0, mint)).(refreshInFlight := false, flights := []);
      var c, s' := t.jar.value, Run(lost.server, es);
      && BeginRefresh(lost).flights == [Sent(t.jar)]
      && (Judge(s', c, now).Reused? <==>
            && Exchanged(t.server, c, mint) && now < c.exp
            && c.user in s'.users && s'.users[c.user].active && c.version == s'.users[c.user].version)
  {
    PresentedAgainIff(t.server, t.jar.value, mint, es, now);
  }

  /** Two tabs of one browser share the jar but not the in-flight refresh. If the other tab has sent the
      same cookie and is served first, this tab's refresh is taken for a replay exactly when the other
      one succeeded and the cookie has not expired. */
  lemma SecondTabIsReplayIff(t: Tab, other: Mint, mint: Mint)
    requires TabInv(t) && |t.flights| == 1 && t.flights[0] == Sent(t.jar) && t.jar.Some?
    ensures var c := t.jar.value;
      var served := t.(server := Apply(t.server, Exchange(c, other)));
      && (Judge(served.server, c, mint.now).Reused? <==> Exchanged(t.server, c, other) && mint.now < c.exp)
      && (Judge(served.server, c, mint.now).Reused? ==>
            Next(served, ServeRefresh(0, mint)).server == RevokeAndBump(served.server, c.user))
  {
    PresentedAgainIff(t.server, t.jar.value, other, [], mint.now);
  }

  function LoggedInTab(t: Tab, user: nat, mint: Mint): Tab {
    Next(Next(t, ServeLogin(user, true, mint)), DeliverLogin(0))
  }

  lemma LoggedInTabIs(t: Tab, user: nat, mint: Mint)
    requires Opened(t) && user in t.server.users && t.server.users[user].active
    requires !JtiTaken(t.server.sessions, mint.jti)
    ensures var c := NewRefresh(t.server, user, mint);
      LoggedInTab(t, user, mint) == t.(server := Issue(t.server, user, mint), jar := Some(c), mine := {c})
  {
    var c := NewRefresh(t.server, user, mint);
    var after := Issue(t.server, user, mint);
    assert |after.sessions| == |t.server.sessions| + 1;
    assert Apply(t.server, Login(user, true, mint)) == after;
    assert Next(t, ServeLogin(user, true, mint)) == t.(server := after, logins := [c], mine := {c});
    assert Without([c], 0) == [];
  }

  /** A tab that logs in, makes a call and is told 401, so that a refresh with its cookie is on the wire. */
  function WaitingTab(t: Tab, user: nat, mint: Mint, call: nat): Tab {
    Next(Next(LoggedInTab(t, user, mint), Call(call)), Respond(call, true))
  }

  lemma WaitingTabIs(t: Tab, user: nat, mint: Mint, call: nat)
    requires Opened(t) && user in t.server.users && t.server.users[user].active
    requires !JtiTaken(t.server.sessions, mint.jti)
    ensures var c := NewRefresh(t.server, user, mint);
      var w := WaitingTab(t, user, mint, call);
      w.server == Issue(t.server, user, mint) && w.jar == Some(c) && w.flights == [Sent(Some(c))]
  {
    LoggedInTabIs(t, user, mint);
  }

  lemma WaitingTabInv(t: Tab, user: nat, mint: Mint, call: nat)
    requires Opened(t)
    ensures TabInv(WaitingTab(t, user, mint, call))
  {
    var t1 := Next(t, ServeLogin(user, true, mint));
    NextKeepsInv(t, ServeLogin(user, true, mint));
    NextKeepsInv(t1, DeliverLogin(0));
    NextKeepsInv(Next(t1, DeliverLogin(0)), Call(call));
    NextKeepsInv(Next(Next(t1, DeliverLogin(0)), Call(call)), Respond(call, true));
  }

  lemma IssuedIsGood(s: State, user: nat, mint: Mint, now: int)
    requires Inv(s) && user in s.users && s.users[user].active && !JtiTaken(s.sessions, mint.jti)
    requires now < mint.now + s.refreshTtl
    ensures Judge(Issue(s, user, mint), NewRefresh(s, user, mint), now).Good?
  {
    var s', c := Issue(s, user, mint), NewRefresh(s, user, mint);
    IssueKeepsInv(s, user, mint);
    var row := RowOfToken(s', c);
    assert s'.sessions[|s.sessions|].jti == c.jti;
  }

  /** Both failures happen from a tab just opened: log in, call, get a 401, and let one refresh succeed
      whose answer is lost, or which another tab has sent. The next refresh with the cookie signs out. */
  lemma HonestCookieIsReplayed(t: Tab, user: nat, mint: Mint, call: nat, first: Mint, now: int)
    requires Opened(t) && user in t.server.users && t.server.users[user].active
    requires !JtiTaken(t.server.sessions, mint.jti)
    requires first.jti != mint.jti && !JtiTaken(t.server.sessions, first.jti)
    requires first.now < mint.now + t.server.refreshTtl && now < mint.now + t.server.refreshTtl
    ensures var w := WaitingTab(t, user, mint, call);
      && w.jar.Some? && w.flights == [Sent(w.jar)]
      && Judge(Next(w, ServeRefresh(0, first)).server, w.jar.value, now).Reused?
      && Judge(Apply(w.server, Exchange(w.jar.value, first)), w.jar.value, now).Reused?
  {
    WaitingTabIs(t, user, mint, call);
    WaitingTabInv(t, user, mint, call);
    IssuedIsGood(t.server, user, mint, first.now);
    var w := WaitingTab(t, user, mint, call);
    assert Exchanged(w.server, w.jar.value, first);
    SecondTabIsReplayIff(w, first, first.(now := now));
  }
}
