/**
 The refresh-session protocol of the auth router: the tables it updates, one atomic step per
 request handler, and the invariant every step keeps.

 The `refresh_sessions` table is a sequence, so a row's id is its position and ids grow with
 insertion order. The hash of a token id is idealised as injective, so a row holds the id itself.
 A signature is idealised as membership in `issued`, the set of tokens the server has minted.
 */
module RefreshSessions {
  import opened Common

  datatype User = User(active: bool, version: nat)

  datatype Session = Session(user: nat, jti: nat, expiresAt: int, revoked: bool, replacedBy: Option<nat>)

  datatype Token =
    | AccessToken(user: nat, version: nat, exp: int)
    | RefreshToken(user: nat, version: nat, exp: int, jti: nat)

  datatype State = State(
    accessTtl: nat,
    refreshTtl: nat,
    users: map<nat, User>,
    sessions: seq<Session>,
    issued: set<Token>)

  /** What minting draws from outside: a random token id, the clock when the claims are built, and
      how much later the row's own expiry reads the clock. */
  datatype Mint = Mint(jti: nat, now: int, lag: nat)

  datatype Event =
    | Register(user: nat, mint: Mint)
    | Login(user: nat, credentialsOk: bool, mint: Mint)
    | Exchange(token: Token, mint: Mint)
    | Logout(token: Token, now: int)
    | ResetPassword(user: nat, linkOk: bool)
    | DisableMfa(token: Token, factorsOk: bool, now: int)
    | DeleteAccount(token: Token, now: int)

  // ----- Reading the tables -----

  predicate JtiTaken(rows: seq<Session>, jti: nat) {
    exists i :: 0 <= i < |rows| && rows[i].jti == jti
  }

  /** The row lookup by user and token id. */
  function FindRow(rows: seq<Session>, user: nat, jti: nat): (r: Option<nat>)
    ensures r.Some? ==> r.value < |rows| && rows[r.value].user == user && rows[r.value].jti == jti
    ensures r.None? ==> forall i :: 0 <= i < |rows| ==> !(rows[i].user == user && rows[i].jti == jti)
  {
    if rows == [] then None
    else
      var last := rows[|rows| - 1];
      if last.user == user && last.jti == jti then Some(|rows| - 1) else FindRow(rows[..|rows| - 1], user, jti)
  }

  /** Whether the dependency that guards every authenticated route lets the token through. */
  predicate Authenticated(s: State, token: Token, now: int) {
    && token in s.issued
    && token.AccessToken?
    && now < token.exp
    && token.user in s.users
    && s.users[token.user].active
    && token.version == s.users[token.user].version
  }

  datatype Verdict = BadToken | UserInactive | VersionStale | NoSession | Reused | RowExpired(row: nat) | Good(row: nat)

  /** The checks made on a presented refresh token, in the order they are made. */
  function Judge(s: State, token: Token, now: int): Verdict {
    if token !in s.issued || !token.RefreshToken? || token.exp <= now then BadToken
    else if token.user !in s.users || !s.users[token.user].active then UserInactive
    else if token.version != s.users[token.user].version then VersionStale
    else match FindRow(s.sessions, token.user, token.jti)
      case None => NoSession
      case Some(row) =>
        if s.sessions[row].revoked then Reused
        else if s.sessions[row].expiresAt <= now then RowExpired(row)
        else Good(row)
  }

  /** A token is accepted when an access token authenticates or a refresh token is exchangeable. */
  predicate Accepted(s: State, token: Token, now: int) {
    if token.AccessToken? then Authenticated(s, token, now) else Judge(s, token, now).Good?
  }

  // ----- Updating the tables -----

  function NewAccess(s: State, user: nat, mint: Mint): Token
    requires user in s.users
  {
    AccessToken(user, s.users[user].version, mint.now + s.accessTtl)
  }

  function NewRefresh(s: State, user: nat, mint: Mint): Token
    requires user in s.users
  {
    RefreshToken(user, s.users[user].version, mint.now + s.refreshTtl, mint.jti)
  }

  function NewRow(s: State, user: nat, mint: Mint): Session {
    Session(user, mint.jti, mint.now + mint.lag + s.refreshTtl, false, None)
  }

  /** Mint a token pair and insert its row; a token id that is already stored violates the unique
      constraint, so the transaction rolls back. */
  function Issue(s: State, user: nat, mint: Mint): State
    requires user in s.users
  {
    if JtiTaken(s.sessions, mint.jti) then s
    else s.(sessions := s.sessions + [NewRow(s, user, mint)],
            issued := s.issued + {NewAccess(s, user, mint), NewRefresh(s, user, mint)})
  }

  function RevokeAll(rows: seq<Session>, user: nat): (r: seq<Session>)
    ensures |r| == |rows|
    ensures forall i :: 0 <= i < |rows| ==>
      r[i] == if rows[i].user == user then rows[i].(revoked := true) else rows[i]
  {
    seq(|rows|, i requires 0 <= i < |rows| => if rows[i].user == user then rows[i].(revoked := true) else rows[i])
  }

  function Bump(s: State, user: nat): State
    requires user in s.users
  {
    s.(users := s.users[user := s.users[user].(version := s.users[user].version + 1)])
  }

  function RevokeAndBump(s: State, user: nat): State
    requires user in s.users
  {
    Bump(s.(sessions := RevokeAll(s.sessions, user)), user)
  }

  /** Mark the consumed row as rotated, link it to the replacement and insert the replacement. */
  function Rotate(s: State, row: nat, mint: Mint): State
    requires row < |s.sessions| && s.sessions[row].user in s.users
  {
    var user := s.sessions[row].user;
    s.(sessions := s.sessions[row := s.sessions[row].(revoked := true, replacedBy := Some(|s.sessions|))]
                   + [NewRow(s, user, mint)],
       issued := s.issued + {NewAccess(s, user, mint), NewRefresh(s, user, mint)})
  }

  /** A refresh request. The rejecting paths commit too: a reused row revokes everything, an
      expired row is marked; only a failed insert rolls the whole exchange back. */
  function ApplyExchange(s: State, token: Token, mint: Mint): State {
    match Judge(s, token, mint.now)
    case Reused => RevokeAndBump(s, token.user)
    case RowExpired(row) => s.(sessions := s.sessions[row := s.sessions[row].(revoked := true)])
    case Good(row) => if JtiTaken(s.sessions, mint.jti) then s else Rotate(s, row, mint)
    case _ => s
  }

  function Apply(s: State, e: Event): State {
    match e
    case Register(user, mint) =>
      if user in s.users then s
      else
        var created := s.(users := s.users[user := User(true, 1)]);
        if JtiTaken(s.sessions, mint.jti) then s else Issue(created, user, mint)
    case Login(user, credentialsOk, mint) =>
      if user !in s.users || !s.users[user].active || !credentialsOk then s else Issue(s, user, mint)
    case Exchange(token, mint) => ApplyExchange(s, token, mint)
    case Logout(token, now) =>
      if Authenticated(s, token, now) then RevokeAndBump(s, token.user) else s
    case ResetPassword(user, linkOk) =>
      if linkOk && user in s.users && s.users[user].active then RevokeAndBump(s, user) else s
    case DisableMfa(token, factorsOk, now) =>
      if factorsOk && Authenticated(s, token, now) then Bump(s, token.user) else s
    case DeleteAccount(token, now) =>
      if Authenticated(s, token, now)
      then
        var gone := RevokeAndBump(s, token.user);
        gone.(users := gone.users[token.user := gone.users[token.user].(active := false)])
      else s
  }

  function Run(s: State, es: seq<Event>): State
    decreases |es|
  {
    if es == [] then s else Run(Apply(s, es[0]), es[1..])
  }

  predicate Initial(s: State) {
    s.users == map[] && s.sessions == [] && s.issued == {}
  }

  // ----- The invariant -----

  ghost predicate RowsOk(s: State) {
    && (forall i :: 0 <= i < |s.sessions| ==> s.sessions[i].user in s.users)
    && (forall i, j :: 0 <= i < j < |s.sessions| ==> s.sessions[i].jti != s.sessions[j].jti)
  }

  /** Links run forward inside one user's rows, only from revoked rows, and never meet. */
  ghost predicate LinksOk(rows: seq<Session>) {
    && (forall i :: 0 <= i < |rows| && rows[i].replacedBy.Some? ==>
          && i < rows[i].replacedBy.value < |rows|
          && rows[i].revoked
          && rows[rows[i].replacedBy.value].user == rows[i].user)
    && (forall i, j :: 0 <= i < j < |rows| && rows[i].replacedBy.Some? ==> rows[i].replacedBy != rows[j].replacedBy)
  }

  ghost predicate TokenOk(s: State, t: Token) {
    && t.user in s.users
    && t.version <= s.users[t.user].version
    && (t.RefreshToken? ==> exists i :: TokenRow(s, t, i))
  }

  /** Row `i` backs the refresh token; a revoked row whose token still carries the current version
      can only have been rotated, so the two revocation mechanisms never disagree. */
  ghost predicate TokenRow(s: State, t: Token, i: int)
    requires t.RefreshToken? && t.user in s.users
  {
    && 0 <= i < |s.sessions|
    && s.sessions[i].user == t.user
    && s.sessions[i].jti == t.jti
    && t.exp <= s.sessions[i].expiresAt
    && (s.sessions[i].revoked && t.version == s.users[t.user].version ==> s.sessions[i].replacedBy.Some?)
  }

  ghost predicate TokensOk(s: State) {
    && (forall t :: t in s.issued ==> TokenOk(s, t))
    && (forall t, u :: t in s.issued && u in s.issued && t.RefreshToken? && u.RefreshToken? && t.jti == u.jti ==>
          t == u)
  }

  ghost predicate Inv(s: State) {
    RowsOk(s) && LinksOk(s.sessions) && TokensOk(s)
  }

  // ----- Every step keeps the invariant -----

  lemma RowOfToken(s: State, t: Token) returns (row: nat)
    requires Inv(s) && t in s.issued && t.RefreshToken?
    ensures TokenRow(s, t, row) && FindRow(s.sessions, t.user, t.jti) == Some(row)
  {
    assert TokenOk(s, t);
    var i :| TokenRow(s, t, i);
    row := i;
    var found := FindRow(s.sessions, t.user, t.jti);
    assert found.Some? && s.sessions[found.value].jti == s.sessions[row].jti;
  }

  /** The JWT never outlives its row, so the branch that marks a row expired is dead code. */
  lemma RowExpiredUnreachable(s: State, t: Token, now: int)
    requires Inv(s)
    ensures !Judge(s, t, now).RowExpired?
    ensures !Judge(s, t, now).NoSession?
  {
    if t in s.issued && t.RefreshToken? {
      var row := RowOfToken(s, t);
    }
  }

  lemma FreshTokenId(s: State, t: Token, jti: nat)
    requires Inv(s) && t in s.issued && t.RefreshToken? && !JtiTaken(s.sessions, jti)
    ensures t.jti != jti
  {
    var row := RowOfToken(s, t);
  }

  lemma IssueKeepsInv(s: State, user: nat, mint: Mint)
    requires Inv(s) && user in s.users
    ensures Inv(Issue(s, user, mint))
  {
    if !JtiTaken(s.sessions, mint.jti) {
      var s' := Issue(s, user, mint);
      forall t | t in s'.issued
        ensures TokenOk(s', t)
        ensures t.RefreshToken? && t.jti == mint.jti ==> t == NewRefresh(s, user, mint)
      {
        if t in s.issued {
          assert TokenOk(s, t);
          if t.RefreshToken? {
            var row := RowOfToken(s, t);
            assert TokenRow(s', t, row);
          }
        } else if t.RefreshToken? {
          assert TokenRow(s', t, |s.sessions|);
        }
      }
      assert TokensOk(s');
    }
  }

  lemma BumpKeepsInv(s: State, user: nat)
    requires Inv(s) && user in s.users
    ensures Inv(Bump(s, user))
  {
    var s' := Bump(s, user);
    forall t | t in s'.issued
      ensures TokenOk(s', t)
    {
      assert TokenOk(s, t);
      if t.RefreshToken? {
        var row := RowOfToken(s, t);
        assert TokenRow(s', t, row);
      }
    }
  }

  lemma RevokeAndBumpKeepsInv(s: State, user: nat)
    requires Inv(s) && user in s.users
    ensures Inv(RevokeAndBump(s, user))
  {
    var s' := RevokeAndBump(s, user);
    forall t | t in s'.issued
      ensures TokenOk(s', t)
    {
      assert TokenOk(s, t);
      if t.RefreshToken? {
        var row := RowOfToken(s, t);
        assert TokenRow(s', t, row);
      }
    }
  }

  lemma RotateKeepsRows(s: State, row: nat, mint: Mint)
    requires RowsOk(s) && LinksOk(s.sessions)
    requires row < |s.sessions| && !s.sessions[row].revoked && !JtiTaken(s.sessions, mint.jti)
    ensures RowsOk(Rotate(s, row, mint)) && LinksOk(Rotate(s, row, mint).sessions)
  {
    var rows' := Rotate(s, row, mint).sessions;
    var n := |s.sessions|;
    assert rows'[n] == NewRow(s, s.sessions[row].user, mint);
    forall i | 0 <= i < n
      ensures rows'[i].user == s.sessions[i].user && rows'[i].jti == s.sessions[i].jti != mint.jti
      ensures rows'[i].replacedBy == if i == row then Some(n) else s.sessions[i].replacedBy
    {
    }
    LinkedInside(s.sessions);
  }

  lemma LinkedInside(rows: seq<Session>)
    requires LinksOk(rows)
    ensures forall i :: 0 <= i < |rows| ==> rows[i].replacedBy != Some(|rows|)
  {
  }

  lemma RotateKeepsInv(s: State, row: nat, mint: Mint)
    requires Inv(s) && row < |s.sessions| && !s.sessions[row].revoked && !JtiTaken(s.sessions, mint.jti)
    ensures Inv(Rotate(s, row, mint))
  {
    RotateKeepsRows(s, row, mint);
    var s' := Rotate(s, row, mint);
    forall t | t in s'.issued
      ensures TokenOk(s', t)
      ensures t.RefreshToken? && t.jti == mint.jti ==> t == NewRefresh(s, s.sessions[row].user, mint)
    {
      if t in s.issued {
        assert TokenOk(s, t);
        if t.RefreshToken? {
          var r := RowOfToken(s, t);
          assert TokenRow(s', t, r);
        }
      } else if t.RefreshToken? {
        assert TokenRow(s', t, |s.sessions|);
      }
    }
  }

  lemma CreatedKeepsInv(s: State, user: nat)
    requires Inv(s) && user !in s.users
    ensures Inv(s.(users := s.users[user := User(true, 1)]))
  {
    var created := s.(users := s.users[user := User(true, 1)]);
    forall t | t in created.issued
      ensures TokenOk(created, t)
    {
      assert TokenOk(s, t);
      if t.RefreshToken? {
        var row := RowOfToken(s, t);
        assert TokenRow(created, t, row);
      }
    }
  }

  lemma RegisterKeepsInv(s: State, user: nat, mint: Mint)
    requires Inv(s)
    ensures Inv(Apply(s, Register(user, mint)))
  {
    if user !in s.users && !JtiTaken(s.sessions, mint.jti) {
      CreatedKeepsInv(s, user);
      IssueKeepsInv(s.(users := s.users[user := User(true, 1)]), user, mint);
    }
  }

  lemma DeactivateKeepsInv(s: State, user: nat)
    requires Inv(s) && user in s.users
    ensures Inv(s.(users := s.users[user := s.users[user].(active := false)]))
  {
    var s' := s.(users := s.users[user := s.users[user].(active := false)]);
    forall t | t in s'.issued
      ensures TokenOk(s', t)
    {
      assert TokenOk(s, t);
      if t.RefreshToken? {
        var row := RowOfToken(s, t);
        assert TokenRow(s', t, row);
      }
    }
  }

  lemma StepKeepsInv(s: State, e: Event)
    requires Inv(s)
    ensures Inv(Apply(s, e))
  {
    match e
    case Register(user, mint) => RegisterKeepsInv(s, user, mint);
    case Login(user, ok, mint) => if user in s.users { IssueKeepsInv(s, user, mint); }
    case Exchange(token, mint) =>
      RowExpiredUnreachable(s, token, mint.now);
      match Judge(s, token, mint.now) {
        case Reused => RevokeAndBumpKeepsInv(s, token.user);
        case Good(row) => if !JtiTaken(s.sessions, mint.jti) { RotateKeepsInv(s, row, mint); }
        case _ =>
      }
    case Logout(token, now) => if Authenticated(s, token, now) { RevokeAndBumpKeepsInv(s, token.user); }
    case ResetPassword(user, ok) => if user in s.users { RevokeAndBumpKeepsInv(s, user); }
    case DisableMfa(token, ok, now) => if Authenticated(s, token, now) { BumpKeepsInv(s, token.user); }
    case DeleteAccount(token, now) =>
      if Authenticated(s, token, now) {
        RevokeAndBumpKeepsInv(s, token.user);
        DeactivateKeepsInv(RevokeAndBump(s, token.user), token.user);
      }
  }

  lemma {:induction false} RunKeepsInv(s: State, es: seq<Event>)
    requires Inv(s)
    ensures Inv(Run(s, es))
    decreases |es|
  {
    if es != [] {
      StepKeepsInv(s, es[0]);
      RunKeepsInv(Apply(s, es[0]), es[1..]);
    }
  }
}
