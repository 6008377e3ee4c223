/**
 What the refresh-session protocol guarantees over whole runs: revoked stays revoked, a version
 bump kills every earlier token for good, replaying an exchanged token is always noticed, and the
 rotation links form chains with at most one live end.
 */
module SessionRuns {
  import opened Common
  import opened RefreshSessions

  // ----- What no step ever undoes -----

  ghost predicate UsersGrow(s: State, s': State) {
    forall u :: u in s.users ==>
      && u in s'.users
      && s.users[u].version <= s'.users[u].version
      && (!s.users[u].active ==> !s'.users[u].active)
  }

  ghost predicate RowKept(row: Session, row': Session) {
    && row.user == row'.user && row.jti == row'.jti && row.expiresAt == row'.expiresAt
    && (row.revoked ==> row'.revoked && row'.replacedBy == row.replacedBy)
  }

  ghost predicate RowsGrow(s: State, s': State) {
    && |s.sessions| <= |s'.sessions|
    && forall i :: 0 <= i < |s.sessions| ==> RowKept(s.sessions[i], s'.sessions[i])
  }

  ghost predicate Extends(s: State, s': State) {
    UsersGrow(s, s') && RowsGrow(s, s') && s.issued <= s'.issued
  }

  lemma ExtendsTransitive(a: State, b: State, c: State)
    requires Extends(a, b) && Extends(b, c)
    ensures Extends(a, c)
  {
    forall i | 0 <= i < |a.sessions|
      ensures RowKept(a.sessions[i], c.sessions[i])
    {
      assert RowKept(a.sessions[i], b.sessions[i]) && RowKept(b.sessions[i], c.sessions[i]);
    }
  }

  lemma StepGrowsUsers(s: State, e: Event)
    ensures UsersGrow(s, Apply(s, e)) && s.issued <= Apply(s, e).issued
  {
  }

  lemma StepGrowsRows(s: State, e: Event)
    ensures RowsGrow(s, Apply(s, e))
  {
  }

  lemma StepExtends(s: State, e: Event)
    ensures Extends(s, Apply(s, e))
  {
    StepGrowsUsers(s, e);
    StepGrowsRows(s, e);
  }

  lemma {:induction false} RunExtends(s: State, es: seq<Event>)
    ensures Extends(s, Run(s, es))
    decreases |es|
  {
    if es != [] {
      StepExtends(s, es[0]);
      RunExtends(Apply(s, es[0]), es[1..]);
      ExtendsTransitive(s, Apply(s, es[0]), Run(s, es));
    }
  }

  // ----- Versions -----

  /** A token whose version is behind its user's is never accepted again, whatever happens next. */
  lemma OutdatedTokenIsDead(s: State, t: Token, es: seq<Event>, now: int)
    requires t.user in s.users && t.version < s.users[t.user].version
    ensures !Accepted(Run(s, es), t, now)
  {
    RunExtends(s, es);
  }

  /** A step that raises a user's version: every token the user held before it is dead from then on. */
  lemma BumpKillsEarlierTokens(s: State, e: Event, user: nat, t: Token, es: seq<Event>, now: int)
    requires Inv(s) && user in s.users
    requires Apply(s, e).users[user].version > s.users[user].version
    requires t in s.issued && t.user == user
    ensures !Accepted(Run(Apply(s, e), es), t, now)
  {
    assert TokenOk(s, t);
    StepExtends(s, e);
    OutdatedTokenIsDead(Apply(s, e), t, es, now);
  }

  /** The reuse branch: whatever follows, no token the user held before it is accepted again. */
  lemma ReplayKillsEverything(s: State, t: Token, mint: Mint, u: Token, es: seq<Event>, now: int)
    requires Inv(s) && Judge(s, t, mint.now).Reused?
    requires u in s.issued && u.user == t.user
    ensures !Accepted(Run(Apply(s, Exchange(t, mint)), es), u, now)
  {
    BumpKillsEarlierTokens(s, Exchange(t, mint), t.user, u, es, now);
  }

  /** The steps that sign a user out everywhere: replay, logout, reset, MFA disable, deletion. */
  predicate SignsOut(s: State, e: Event, user: nat) {
    match e
    case Exchange(t, mint) => t.user == user && Judge(s, t, mint.now).Reused?
    case Logout(t, at) => t.user == user && Authenticated(s, t, at)
    case ResetPassword(u, linkOk) => u == user && linkOk && u in s.users && s.users[u].active
    case DisableMfa(t, factorsOk, at) => t.user == user && factorsOk && Authenticated(s, t, at)
    case DeleteAccount(t, at) => t.user == user && Authenticated(s, t, at)
    case _ => false
  }

  /** No other step touches the user's version or activity. */
  lemma SignOutIff(s: State, e: Event, user: nat)
    requires user in s.users
    ensures user in Apply(s, e).users
    ensures if SignsOut(s, e, user) then Apply(s, e).users[user].version == s.users[user].version + 1
            else Apply(s, e).users[user] == s.users[user]
  {
  }

  /** Signing out ends every token the user holds. */
  lemma SignOutKillsEverything(s: State, e: Event, u: Token, es: seq<Event>, now: int)
    requires Inv(s) && u in s.issued && SignsOut(s, e, u.user)
    ensures !Accepted(Run(Apply(s, e), es), u, now)
  {
    assert TokenOk(s, u);
    SignOutIff(s, e, u.user);
    BumpKillsEarlierTokens(s, e, u.user, u, es, now);
  }

  // ----- Exchanges -----

  predicate Exchanged(s: State, t: Token, mint: Mint) {
    Judge(s, t, mint.now).Good? && !JtiTaken(s.sessions, mint.jti)
  }

  /** The row behind a token is the same row for the rest of the run, and once revoked stays so. */
  lemma RowOfTokenIsStable(s: State, t: Token, row: nat, es: seq<Event>)
    requires Inv(s) && t in s.issued && t.RefreshToken? && t.user in s.users && TokenRow(s, t, row)
    ensures var s' := Run(s, es);
      && Inv(s') && t in s'.issued && t.user in s'.users
      && FindRow(s'.sessions, t.user, t.jti) == Some(row) && TokenRow(s', t, row)
      && RowKept(s.sessions[row], s'.sessions[row])
  {
    RunKeepsInv(s, es);
    RunExtends(s, es);
    var row' := RowOfToken(Run(s, es), t);
  }

  /** An exchange revokes the token's row and hands out a replacement that is itself exchangeable. */
  lemma ExchangeRotates(s: State, t: Token, mint: Mint) returns (row: nat)
    requires Inv(s) && Exchanged(s, t, mint)
    ensures var s' := Apply(s, Exchange(t, mint));
      && Inv(s') && t in s'.issued && t.user in s'.users
      && TokenRow(s', t, row) && s'.sessions[row].revoked
      && (s.refreshTtl > 0 ==> Judge(s', NewRefresh(s, t.user, mint), mint.now).Good?)
  {
    row := RowOfToken(s, t);
    var s' := Apply(s, Exchange(t, mint));
    assert s' == Rotate(s, row, mint);
    RotateKeepsInv(s, row, mint);
    var newRow := RowOfToken(s', NewRefresh(s, t.user, mint));
    assert newRow == |s.sessions|;
  }

  /** After an exchange, presenting the same token again is either refused before the row is looked
      at (the JWT expired, the account is gone, the version moved on) or detected as reuse. */
  lemma SecondPresentationIsReuse(s: State, t: Token, mint: Mint, es: seq<Event>, now: int)
    requires Inv(s) && Exchanged(s, t, mint)
    ensures var s' := Run(Apply(s, Exchange(t, mint)), es);
      var verdict := Judge(s', t, now);
      if now < t.exp && t.user in s'.users && s'.users[t.user].active && t.version == s'.users[t.user].version
      then verdict.Reused?
      else verdict.BadToken? || verdict.UserInactive? || verdict.VersionStale?
  {
    var row := ExchangeRotates(s, t, mint);
    RowOfTokenIsStable(Apply(s, Exchange(t, mint)), t, row, es);
  }

  /** The whole story: exchange a token, let anything happen, present it again while its version is
      still current, let anything happen: nothing the user held at the second presentation survives. */
  lemma ExchangedTokenReplayed(
      s: State, t: Token, mint: Mint, mid: seq<Event>, again: Mint, post: seq<Event>, u: Token, now: int)
    requires Inv(s) && Exchanged(s, t, mint)
    requires var s1 := Run(Apply(s, Exchange(t, mint)), mid);
      && again.now < t.exp && t.user in s1.users && s1.users[t.user].active
      && t.version == s1.users[t.user].version
      && u in s1.issued && u.user == t.user
    ensures !Accepted(Run(Apply(Run(Apply(s, Exchange(t, mint)), mid), Exchange(t, again)), post), u, now)
  {
    SecondPresentationIsReuse(s, t, mint, mid, again.now);
    StepKeepsInv(s, Exchange(t, mint));
    RunKeepsInv(Apply(s, Exchange(t, mint)), mid);
    ReplayKillsEverything(Run(Apply(s, Exchange(t, mint)), mid), t, again, u, post, now);
  }

  predicate ExchangesNow(s: State, e: Event, t: Token) {
    e.Exchange? && e.token == t && Exchanged(s, t, e.mint)
  }

  /** How many events of the run exchange the token successfully. */
  function Exchanges(s: State, es: seq<Event>, t: Token): nat
    decreases |es|
  {
    if es == [] then 0
    else
      (if ExchangesNow(s, es[0], t) then 1 else 0) + Exchanges(Apply(s, es[0]), es[1..], t)
  }

  lemma {:induction false} RevokedIsNeverExchanged(s: State, es: seq<Event>, t: Token, row: nat)
    requires Inv(s) && t in s.issued && t.RefreshToken? && t.user in s.users
    requires TokenRow(s, t, row) && s.sessions[row].revoked
    ensures Exchanges(s, es, t) == 0
    decreases |es|
  {
    if es != [] {
      var found := RowOfToken(s, t);
      assert found == row;
      var s1 := Apply(s, es[0]);
      StepKeepsInv(s, es[0]);
      StepExtends(s, es[0]);
      assert RowKept(s.sessions[row], s1.sessions[row]);
      var row1 := RowOfToken(s1, t);
      assert row1 == row;
      RevokedIsNeverExchanged(s1, es[1..], t, row);
    }
  }

  lemma {:induction false} ExchangedAtMostOnce(s: State, es: seq<Event>, t: Token)
    requires Inv(s)
    ensures Exchanges(s, es, t) <= 1
    decreases |es|
  {
    if es != [] {
      var s1 := Apply(s, es[0]);
      StepKeepsInv(s, es[0]);
      if ExchangesNow(s, es[0], t) {
        var row := ExchangeRotates(s, t, es[0].mint);
        RevokedIsNeverExchanged(s1, es[1..], t, row);
      } else {
        ExchangedAtMostOnce(s1, es[1..], t);
      }
    }
  }

  /** In a reachable state the reuse branch fires exactly on tokens that were rotated and that would
      otherwise still pass: revocation by a bump never reaches it. */
  lemma ReuseMeansRotated(s: State, t: Token, now: int)
    requires Inv(s)
    ensures Judge(s, t, now).Reused? <==>
      && t in s.issued && t.RefreshToken? && now < t.exp
      && s.users[t.user].active && t.version == s.users[t.user].version
      && exists row :: TokenRow(s, t, row) && s.sessions[row].replacedBy.Some?
  {
    if t in s.issued {
      assert TokenOk(s, t);
      if t.RefreshToken? {
        var row := RowOfToken(s, t);
        forall i | TokenRow(s, t, i) ensures i == row { }
      }
    }
  }

  /** A row is revoked only by exchanging its own token or together with a version bump. */
  lemma RevocationBumps(s: State, e: Event, row: nat)
    requires Inv(s) && row < |s.sessions| && !s.sessions[row].revoked
    requires e.Exchange? && e.token.RefreshToken? ==> e.token.jti != s.sessions[row].jti
    ensures var s' := Apply(s, e); var user := s.sessions[row].user;
      && row < |s'.sessions| && user in s'.users
      && (s'.sessions[row].revoked ==> s.users[user].version < s'.users[user].version)
  {
    if e.Exchange? {
      RowExpiredUnreachable(s, e.token, e.mint.now);
    }
  }

  // ----- The exact lifetime of a token -----

  predicate NoSignOut(s: State, es: seq<Event>, user: nat)
    decreases |es|
  {
    es == [] || (!SignsOut(s, es[0], user) && NoSignOut(Apply(s, es[0]), es[1..], user))
  }

  lemma AcceptedUntilExpiry(s: State, t: Token, at: int, now: int)
    requires Inv(s) && Accepted(s, t, at)
    ensures Accepted(s, t, now) <==> now < t.exp
  {
    RowExpiredUnreachable(s, t, now);
  }

  /** Presenting a token that is good, or any other token, does not end it unless it signs out or
      exchanges. */
  lemma UnrelatedExchange(s: State, e: Event, t: Token, at: int, row: nat)
    requires Inv(s) && t.RefreshToken? && Judge(s, t, at) == Good(row) && e.Exchange?
    requires !ExchangesNow(s, e, t) && e.token.RefreshToken? && e.token.jti == t.jti
    ensures Apply(s, e) == s
  {
    RowExpiredUnreachable(s, e.token, e.mint.now);
    if e.token in s.issued { assert e.token == t; }
  }

  lemma StillAccepted(s: State, e: Event, t: Token, at: int)
    requires Inv(s) && Accepted(s, t, at) && !SignsOut(s, e, t.user)
    requires t.RefreshToken? ==> !ExchangesNow(s, e, t)
    ensures Accepted(Apply(s, e), t, at)
  {
    var s' := Apply(s, e);
    SignOutIff(s, e, t.user);
    StepExtends(s, e);
    StepKeepsInv(s, e);
    if t.RefreshToken? {
      var row := RowOfToken(s, t);
      if e.Exchange? && e.token.RefreshToken? && e.token.jti == t.jti {
        UnrelatedExchange(s, e, t, at, row);
      } else {
        RevocationBumps(s, e, row);
        var row' := RowOfToken(s', t);
        assert row' == row;
      }
    }
  }

  /** From the moment it is accepted, a token is accepted at a later time exactly if it has not expired,
      its user has not signed out since and, for a refresh token, it has not been exchanged. */
  lemma {:induction false} TokenLivesIff(s: State, t: Token, at: int, es: seq<Event>, now: int)
    requires Inv(s) && Accepted(s, t, at)
    ensures Accepted(Run(s, es), t, now) <==>
      now < t.exp && NoSignOut(s, es, t.user) && (t.RefreshToken? ==> Exchanges(s, es, t) == 0)
    decreases |es|
  {
    if es == [] {
      AcceptedUntilExpiry(s, t, at, now);
    } else if SignsOut(s, es[0], t.user) {
      SignOutKillsEverything(s, es[0], t, es[1..], now);
    } else if t.RefreshToken? && ExchangesNow(s, es[0], t) {
      SecondPresentationIsReuse(s, t, es[0].mint, es[1..], now);
    } else {
      StillAccepted(s, es[0], t, at);
      StepKeepsInv(s, es[0]);
      TokenLivesIff(Apply(s, es[0]), t, at, es[1..], now);
    }
  }

  // ----- What each handler grants and refuses -----

  /** A login succeeds exactly for a known, active user with the right credentials and a new token id. It
      issues one access token for the access lifetime and one refresh token for the refresh lifetime, both
      good from the start, and changes no user. */
  lemma LoginGrants(s: State, user: nat, credentialsOk: bool, mint: Mint)
    requires Inv(s)
    ensures var s' := Apply(s, Login(user, credentialsOk, mint));
      if user in s.users && s.users[user].active && credentialsOk && !JtiTaken(s.sessions, mint.jti)
      then
        var access := AccessToken(user, s.users[user].version, mint.now + s.accessTtl);
        var refresh := RefreshToken(user, s.users[user].version, mint.now + s.refreshTtl, mint.jti);
        && s'.issued == s.issued + {access, refresh} && s'.users == s.users
        && (forall now :: Accepted(s', access, now) <==> now < mint.now + s.accessTtl)
        && (forall now :: Accepted(s', refresh, now) <==> now < mint.now + s.refreshTtl)
      else s' == s
  {
    if user in s.users && s.users[user].active && credentialsOk && !JtiTaken(s.sessions, mint.jti) {
      IssuedIsAccepted(s, user, mint);
    }
  }

  lemma IssuedIsAccepted(s: State, user: nat, mint: Mint)
    requires Inv(s) && user in s.users && s.users[user].active && !JtiTaken(s.sessions, mint.jti)
    ensures var s' := Issue(s, user, mint);
      var refresh := RefreshToken(user, s.users[user].version, mint.now + s.refreshTtl, mint.jti);
      && refresh in s'.issued
      && forall now :: Accepted(s', refresh, now) <==> now < mint.now + s.refreshTtl
  {
    var s' := Issue(s, user, mint);
    var refresh := RefreshToken(user, s.users[user].version, mint.now + s.refreshTtl, mint.jti);
    IssueKeepsInv(s, user, mint);
    var row := RowOfToken(s', refresh);
    assert s'.sessions[|s.sessions|].jti == mint.jti;
    assert row == |s.sessions|;
    forall now { RowExpiredUnreachable(s', refresh, now); }
  }

  /** A registration of a new name under a new token id makes an active user and signs the user in. */
  lemma RegisterGrants(s: State, user: nat, mint: Mint)
    requires Inv(s)
    ensures var s' := Apply(s, Register(user, mint));
      if user !in s.users && !JtiTaken(s.sessions, mint.jti)
      then
        var access := AccessToken(user, 1, mint.now + s.accessTtl);
        var refresh := RefreshToken(user, 1, mint.now + s.refreshTtl, mint.jti);
        && s'.users == s.users[user := User(true, 1)] && s'.issued == s.issued + {access, refresh}
        && (forall now :: Accepted(s', access, now) <==> now < mint.now + s.accessTtl)
        && (forall now :: Accepted(s', refresh, now) <==> now < mint.now + s.refreshTtl)
      else s' == s
  {
    if user !in s.users && !JtiTaken(s.sessions, mint.jti) {
      var created := s.(users := s.users[user := User(true, 1)]);
      CreatedKeepsInv(s, user);
      IssuedIsAccepted(created, user, mint);
    }
  }

  /** A refresh succeeds exactly for an issued, unexpired refresh token of an active user at the current
      version whose row is not revoked, under a new token id; it hands out a new pair. */
  lemma ExchangeGrants(s: State, t: Token, mint: Mint)
    requires Inv(s)
    ensures var good := && t in s.issued && t.RefreshToken? && mint.now < t.exp
                        && t.user in s.users && s.users[t.user].active && t.version == s.users[t.user].version
                        && exists row :: TokenRow(s, t, row) && !s.sessions[row].revoked;
      && (Judge(s, t, mint.now).Good? <==> good)
      && (good && !JtiTaken(s.sessions, mint.jti) ==>
            Apply(s, Exchange(t, mint)).issued
            == s.issued + {AccessToken(t.user, t.version, mint.now + s.accessTtl),
                           RefreshToken(t.user, t.version, mint.now + s.refreshTtl, mint.jti)})
  {
    RowExpiredUnreachable(s, t, mint.now);
    if t in s.issued && t.RefreshToken? {
      var row := RowOfToken(s, t);
      forall i | TokenRow(s, t, i) ensures i == row { }
    }
  }

  /** A refresh token opens no route, and neither kind is good for an unknown or inactive user. */
  lemma WrongTokenIsRefused(s: State, t: Token, now: int)
    ensures t.RefreshToken? || t !in s.issued || t.user !in s.users || !s.users[t.user].active ==>
      !Authenticated(s, t, now)
    ensures t.AccessToken? || t !in s.issued || t.user !in s.users || !s.users[t.user].active ==>
      forall mint: Mint :: Apply(s, Exchange(t, mint)) == s
  {
  }

  /** Every way of signing out except disabling MFA revokes all rows of the user and no others. */
  lemma SignOutRevokesRows(s: State, e: Event, user: nat, i: nat)
    requires Inv(s) && SignsOut(s, e, user) && i < |s.sessions|
    ensures Apply(s, e).sessions[i]
         == if s.sessions[i].user == user && !e.DisableMfa? then s.sessions[i].(revoked := true) else s.sessions[i]
  {
  }

  /** In any state, a token that passes every check up to an expired row is refused and its row revoked. */
  lemma ExpiredRowIsRevoked(s: State, t: Token, mint: Mint, row: nat)
    requires t in s.issued && t.RefreshToken? && mint.now < t.exp
    requires t.user in s.users && s.users[t.user].active && t.version == s.users[t.user].version
    requires FindRow(s.sessions, t.user, t.jti) == Some(row) && !s.sessions[row].revoked
    requires s.sessions[row].expiresAt <= mint.now
    ensures Apply(s, Exchange(t, mint)) == s.(sessions := s.sessions[row := s.sessions[row].(revoked := true)])
  {
  }

  // ----- Deleted accounts -----

  /** A deleted account stays deleted: no token of it is ever accepted again, not even one issued later,
      and no login, reset, refresh or registration of it changes anything. */
  lemma DeletedStaysDeleted(s: State, t: Token, at: int, es: seq<Event>, u: Token, now: int, mint: Mint, ok: bool)
    requires Authenticated(s, t, at) && u.user == t.user
    ensures var s' := Run(Apply(s, DeleteAccount(t, at)), es);
      && !Accepted(s', u, now)
      && Apply(s', Login(t.user, ok, mint)) == s'
      && Apply(s', Register(t.user, mint)) == s'
      && Apply(s', ResetPassword(t.user, ok)) == s'
      && Apply(s', Exchange(u, mint)) == s'
  {
    RunExtends(Apply(s, DeleteAccount(t, at)), es);
  }

  // ----- Rotation chains -----

  /** Row `j` is reached from row `i` by following replacement links. */
  ghost predicate Descends(rows: seq<Session>, i: nat, j: nat)
    requires LinksOk(rows)
    ensures Descends(rows, i, j) ==> j < |rows|
    decreases |rows| - i
  {
    i < |rows| && (i == j || (rows[i].replacedBy.Some? && Descends(rows, rows[i].replacedBy.value, j)))
  }

  /** The end of the chain through row `i`. */
  ghost function ChainEnd(rows: seq<Session>, i: nat): nat
    requires LinksOk(rows) && i < |rows|
    decreases |rows| - i
  {
    if rows[i].replacedBy.None? then i else ChainEnd(rows, rows[i].replacedBy.value)
  }

  lemma {:induction false} DescendsForward(rows: seq<Session>, i: nat, j: nat)
    requires LinksOk(rows) && Descends(rows, i, j)
    ensures i <= j < |rows| && rows[i].user == rows[j].user
    ensures i != j ==> rows[i].revoked
    decreases |rows| - i
  {
    if i != j { DescendsForward(rows, rows[i].replacedBy.value, j); }
  }

  lemma {:induction false} LiveIsChainEnd(rows: seq<Session>, i: nat, j: nat)
    requires LinksOk(rows) && Descends(rows, i, j) && !rows[j].revoked
    ensures j == ChainEnd(rows, i)
    decreases |rows| - i
  {
    if i != j { LiveIsChainEnd(rows, rows[i].replacedBy.value, j); }
  }

  /** Each login has at most one live descendant, links never loop back, and chains never merge. */
  lemma OneLiveDescendant(s: State, login: nat, a: nat, b: nat)
    requires Inv(s) && Descends(s.sessions, login, a) && Descends(s.sessions, login, b)
    requires !s.sessions[a].revoked && !s.sessions[b].revoked
    ensures a == b
  {
    LiveIsChainEnd(s.sessions, login, a);
    LiveIsChainEnd(s.sessions, login, b);
  }

  /** Two rows with a common descendant lie on one chain. */
  lemma {:induction false} ChainsNeverMerge(rows: seq<Session>, i: nat, k: nat, j: nat)
    requires LinksOk(rows) && Descends(rows, i, j) && Descends(rows, k, j)
    ensures Descends(rows, i, k) || Descends(rows, k, i)
    decreases |rows| - i + |rows| - k
  {
    DescendsForward(rows, i, j);
    DescendsForward(rows, k, j);
    if i != j && k != j {
      ChainsNeverMerge(rows, rows[i].replacedBy.value, rows[k].replacedBy.value, j);
      var ni, nk := rows[i].replacedBy.value, rows[k].replacedBy.value;
      if ni == nk {
        assert i == k;
      } else if Descends(rows, ni, nk) {
        LinkIntoChain(rows, ni, nk, k);
      } else {
        LinkIntoChain(rows, nk, ni, i);
      }
    }
  }

  /** A chain that enters `j` from above enters it through its only predecessor `k`. */
  lemma {:induction false} LinkIntoChain(rows: seq<Session>, i: nat, j: nat, k: nat)
    requires LinksOk(rows) && Descends(rows, i, j) && i != j
    requires k < |rows| && rows[k].replacedBy == Some(j)
    ensures Descends(rows, i, k)
    decreases |rows| - i
  {
    var next := rows[i].replacedBy.value;
    if next == j {
      assert i == k;
    } else {
      LinkIntoChain(rows, next, j, k);
    }
  }

  /** From an empty database, every reachable state has these chains. */
  lemma ReachableChains(s: State, es: seq<Event>)
    requires Initial(s)
    ensures Inv(Run(s, es))
    ensures var rows := Run(s, es).sessions;
      forall login: nat, a: nat, b: nat ::
        Descends(rows, login, a) && Descends(rows, login, b) && !rows[a].revoked && !rows[b].revoked ==> a == b
  {
    RunKeepsInv(s, es);
    var rows := Run(s, es).sessions;
    forall login: nat, a: nat, b: nat |
      Descends(rows, login, a) && Descends(rows, login, b) && !rows[a].revoked && !rows[b].revoked
      ensures a == b
    {
      OneLiveDescendant(Run(s, es), login, a, b);
    }
  }
}
