/** The request handlers as updates of the stored tables. Each equals one protocol step, so every
    sequence of calls keeps the protocol's invariant. */
module AuthStore {
  import opened Common
  import opened RefreshSessions

  class Store {
    const accessTtl: nat
    const refreshTtl: nat
    var users: map<nat, User>
    var sessions: seq<Session>
    var issued: set<Token>

    ghost function Snapshot(): State
      reads this
    {
      State(accessTtl, refreshTtl, users, sessions, issued)
    }

    constructor (accessTtl: nat, refreshTtl: nat)
      ensures Initial(Snapshot())
      ensures this.accessTtl == accessTtl && this.refreshTtl == refreshTtl
    {
      this.accessTtl := accessTtl;
      this.refreshTtl := refreshTtl;
      users, sessions, issued := map[], [], {};
    }

    /** Mint both tokens for the user and insert the session row. */
    method CreateSession(user: nat, mint: Mint) returns (ok: bool)
      requires user in users
      modifies this
      ensures ok == !JtiTaken(old(sessions), mint.jti)
      ensures Snapshot() == Issue(old(Snapshot()), user, mint)
    {
      ok := !JtiTaken(sessions, mint.jti);
      if ok {
        var version := users[user].version;
        var access := AccessToken(user, version, mint.now + accessTtl);
        var refresh := RefreshToken(user, version, mint.now + refreshTtl, mint.jti);
        sessions := sessions + [Session(user, mint.jti, mint.now + mint.lag + refreshTtl, false, None)];
        issued := issued + {access, refresh};
      }
    }

    method RegisterUser(user: nat, mint: Mint) returns (ok: bool)
      modifies this
      ensures Snapshot() == Apply(old(Snapshot()), Register(user, mint))
      ensures ok <==> user !in old(users) && user in users
    {
      ok := false;
      if user !in users {
        var before := users;
        users := users[user := User(true, 1)];
        ok := CreateSession(user, mint);
        if !ok { users := before; }
      }
    }

    method LogIn(user: nat, credentialsOk: bool, mint: Mint) returns (ok: bool)
      modifies this
      ensures Snapshot() == Apply(old(Snapshot()), Login(user, credentialsOk, mint))
      ensures ok == (&& user in old(users) && old(users)[user].active
                     && credentialsOk && !JtiTaken(old(sessions), mint.jti))
    {
      ok := false;
      if user in users && users[user].active && credentialsOk {
        ok := CreateSession(user, mint);
      }
    }

    /** Rotate a live row: revoke it, insert its replacement and link the two; undo on a failed insert. */
    method RotateRow(row: nat, mint: Mint) returns (ok: bool)
      requires row < |sessions| && !sessions[row].revoked && sessions[row].user in users
      modifies this
      ensures ok == !JtiTaken(old(sessions), mint.jti)
      ensures Snapshot() == if ok then Rotate(old(Snapshot()), row, mint) else old(Snapshot())
    {
      var consumed := sessions[row];
      sessions := sessions[row := consumed.(revoked := true)];
      assert JtiTaken(sessions, mint.jti) == JtiTaken(old(sessions), mint.jti) by {
        forall i | 0 <= i < |sessions| ensures sessions[i].jti == old(sessions)[i].jti { }
      }
      ok := CreateSession(consumed.user, mint);
      if ok {
        sessions := sessions[row := sessions[row].(replacedBy := Some(|sessions| - 1))];
      } else {
        sessions := sessions[row := consumed];
      }
    }

    method RefreshTokens(token: Token, mint: Mint) returns (replacement: Option<Token>)
      modifies this
      ensures Snapshot() == Apply(old(Snapshot()), Exchange(token, mint))
      ensures replacement.Some? <==> Judge(old(Snapshot()), token, mint.now).Good? && !JtiTaken(old(sessions), mint.jti)
      ensures replacement.Some? ==> replacement.value == NewRefresh(old(Snapshot()), token.user, mint)
    {
      replacement := None;
      if token !in issued || !token.RefreshToken? || token.exp <= mint.now { return; }
      if token.user !in users || !users[token.user].active { return; }
      if token.version != users[token.user].version { return; }
      var row := FindRow(sessions, token.user, token.jti);
      if row.None? { return; }
      if sessions[row.value].revoked {
        sessions := RevokeAll(sessions, token.user);
        users := users[token.user := users[token.user].(version := users[token.user].version + 1)];
        return;
      }
      if sessions[row.value].expiresAt <= mint.now {
        sessions := sessions[row.value := sessions[row.value].(revoked := true)];
        return;
      }
      var ok := RotateRow(row.value, mint);
      if ok {
        replacement := Some(RefreshToken(token.user, token.version, mint.now + refreshTtl, mint.jti));
      }
    }

    method LogOut(token: Token, now: int) returns (ok: bool)
      modifies this
      ensures Snapshot() == Apply(old(Snapshot()), Logout(token, now))
      ensures ok == Authenticated(old(Snapshot()), token, now)
    {
      ok := IsAuthenticated(token, now);
      if ok {
        sessions := RevokeAll(sessions, token.user);
        users := users[token.user := users[token.user].(version := users[token.user].version + 1)];
      }
    }

    method ResetUserPassword(user: nat, linkOk: bool)
      modifies this
      ensures Snapshot() == Apply(old(Snapshot()), ResetPassword(user, linkOk))
    {
      if linkOk && user in users && users[user].active {
        users := users[user := users[user].(version := users[user].version + 1)];
        sessions := RevokeAll(sessions, user);
      }
    }

    method DisableUserMfa(token: Token, factorsOk: bool, now: int)
      modifies this
      ensures Snapshot() == Apply(old(Snapshot()), DisableMfa(token, factorsOk, now))
    {
      var ok := IsAuthenticated(token, now);
      if ok && factorsOk {
        users := users[token.user := users[token.user].(version := users[token.user].version + 1)];
      }
    }

    method DeleteUserAccount(token: Token, now: int)
      modifies this
      ensures Snapshot() == Apply(old(Snapshot()), DeleteAccount(token, now))
    {
      var ok := IsAuthenticated(token, now);
      if ok {
        users := users[token.user := users[token.user].(active := false)];
        sessions := RevokeAll(sessions, token.user);
        users := users[token.user := users[token.user].(version := users[token.user].version + 1)];
        assert users == Apply(old(Snapshot()), DeleteAccount(token, now)).users;
      }
    }

    /** The dependency in front of every authenticated route. */
    method IsAuthenticated(token: Token, now: int) returns (ok: bool)
      ensures ok == Authenticated(Snapshot(), token, now)
    {
      ok := token in issued && token.AccessToken? && now < token.exp
            && token.user in users && users[token.user].active
            && token.version == users[token.user].version;
    }
  }
}
