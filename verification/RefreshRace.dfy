/**
 One user's refresh, login and sign-out handlers with their reads and their commits apart. A refresh
 checks the version of its token before it locks the session row, and the version is written as what was
 read plus one, so a handler that commits meanwhile can mislead both. Accounts stay active and tokens do
 not expire here.
 */
module RefreshRace {
  import opened Common

  /** A session row with the version in its refresh token. */
  datatype Row = Row(version: nat, revoked: bool, replacedBy: Option<nat>)

  /** An open handler and the version it read; a refresh has passed the version check of its token. */
  datatype Handler = Refreshing(row: nat, seen: nat) | LoggingIn(seen: nat) | SigningOut(seen: nat)

  datatype State = State(version: nat, rows: seq<Row>, handlers: map<nat, Handler>)

  datatype Step =
    | BeginRefresh(tx: nat, row: nat)
    | BeginLogin(tx: nat)
    | BeginSignOut(tx: nat)
    | Commit(tx: nat, revokes: bool)       // a sign-out revokes the rows, except when MFA is disabled
    | Abort(tx: nat)

  function RevokeAll(rows: seq<Row>): (r: seq<Row>)
    ensures |r| == |rows| && forall i :: 0 <= i < |rows| ==> r[i] == rows[i].(revoked := true)
  {
    seq(|rows|, i requires 0 <= i < |rows| => rows[i].(revoked := true))
  }

  function Rotate(rows: seq<Row>, row: nat, version: nat): seq<Row>
    requires row < |rows|
  {
    rows[row := rows[row].(revoked := true, replacedBy := Some(|rows|))] + [Row(version, false, None)]
  }

  function Close(s: State, tx: nat): State { s.(handlers := s.handlers - {tx}) }

  /** The refresh finds its row revoked once it holds the lock. */
  predicate TakesReuseBranch(s: State, h: Handler) {
    h.Refreshing? && h.row < |s.rows| && s.rows[h.row].revoked
  }

  function ApplyCommit(s: State, h: Handler, revokes: bool): State {
    match h
    case Refreshing(row, seen) =>
      if row >= |s.rows| then s
      else if s.rows[row].revoked then s.(rows := RevokeAll(s.rows), version := seen + 1)
      else s.(rows := Rotate(s.rows, row, seen))
    case LoggingIn(seen) => s.(rows := s.rows + [Row(seen, false, None)])
    case SigningOut(seen) => s.(rows := if revokes then RevokeAll(s.rows) else s.rows, version := seen + 1)
  }

  function Next(s: State, step: Step): State {
    match step
    case BeginRefresh(tx, row) =>
      if tx in s.handlers || row >= |s.rows| || s.rows[row].version != s.version then s
      else s.(handlers := s.handlers[tx := Refreshing(row, s.version)])
    case BeginLogin(tx) => if tx in s.handlers then s else s.(handlers := s.handlers[tx := LoggingIn(s.version)])
    case BeginSignOut(tx) => if tx in s.handlers then s else s.(handlers := s.handlers[tx := SigningOut(s.version)])
    case Commit(tx, revokes) => if tx in s.handlers then Close(ApplyCommit(s, s.handlers[tx], revokes), tx) else s
    case Abort(tx) => Close(s, tx)
  }

  function Run(s: State, steps: seq<Step>): State
    decreases |steps|
  {
    if steps == [] then s else Run(Next(s, steps[0]), steps[1..])
  }

  predicate Initial(s: State) { s.rows == [] && s.handlers == map[] }

  /** A handler reads once and ends when it commits or is aborted; disabling MFA outdates the tokens and
      leaves the rows alone. */
  lemma HandlersReadOnce(s: State, step: Step)
    ensures !step.Commit? && !step.Abort? && step.tx in s.handlers ==> Next(s, step) == s
    ensures (step.Commit? || step.Abort?) ==> step.tx !in Next(s, step).handlers
    ensures step.Abort? ==> Next(s, step).rows == s.rows && Next(s, step).version == s.version
    ensures step.Commit? && step.tx in s.handlers && s.handlers[step.tx].SigningOut? && !step.revokes ==>
      Next(s, step).rows == s.rows && Next(s, step).version == s.handlers[step.tx].seen + 1
  {
  }

  // ----- What every run keeps -----

  /** A handler's token carries the version it read, and links run forward from revoked rows. */
  ghost predicate HandlersOk(s: State) {
    forall tx :: tx in s.handlers && s.handlers[tx].Refreshing? ==>
      s.handlers[tx].row < |s.rows| && s.rows[s.handlers[tx].row].version == s.handlers[tx].seen
  }

  ghost predicate LinksOk(s: State) {
    forall i :: 0 <= i < |s.rows| && s.rows[i].replacedBy.Some? ==>
      s.rows[i].revoked && i < s.rows[i].replacedBy.value < |s.rows|
  }

  lemma StepKeepsLinks(s: State, step: Step)
    requires HandlersOk(s) && LinksOk(s)
    ensures HandlersOk(Next(s, step)) && LinksOk(Next(s, step))
  {
  }

  // ----- What a link says -----

  /** The step exchanges the token of row `i`. */
  predicate ExchangesNow(s: State, step: Step, i: nat) {
    && step.Commit? && step.tx in s.handlers && s.handlers[step.tx].Refreshing? && s.handlers[step.tx].row == i
    && i < |s.rows| && !s.rows[i].revoked
  }

  function Exchanges(s: State, steps: seq<Step>, i: nat): nat
    decreases |steps|
  {
    if steps == [] then 0
    else (if ExchangesNow(s, steps[0], i) then 1 else 0) + Exchanges(Next(s, steps[0]), steps[1..], i)
  }

  predicate Linked(s: State, i: nat) { i < |s.rows| && s.rows[i].replacedBy.Some? }

  lemma StepLinksIff(s: State, step: Step, i: nat)
    requires HandlersOk(s) && LinksOk(s)
    ensures Linked(Next(s, step), i) <==> Linked(s, i) || ExchangesNow(s, step, i)
    ensures Linked(s, i) ==> !ExchangesNow(s, step, i)
  {
  }

  /** In every interleaving, whatever the versions do, a row is exchanged at most once, and it carries a
      link exactly when it was. So the reuse branch means rotation exactly when the row it has locked
      carries a link, which the handler does not look at. */
  lemma {:induction false} LinkedIffExchanged(s: State, steps: seq<Step>, i: nat)
    requires HandlersOk(s) && LinksOk(s)
    ensures (if Linked(s, i) then 1 else 0) + Exchanges(s, steps, i) == if Linked(Run(s, steps), i) then 1 else 0
    decreases |steps|
  {
    if steps != [] {
      StepKeepsLinks(s, steps[0]);
      StepLinksIff(s, steps[0], i);
      LinkedIffExchanged(Next(s, steps[0]), steps[1..], i);
    }
  }

  // ----- Exactly when the reuse branch means rotation and bumps do their job -----

  /** Nothing carries or has read a version above the stored one, and a revoked row whose token is still
      current was rotated. */
  ghost predicate Clean(s: State) {
    && (forall i :: 0 <= i < |s.rows| ==> s.rows[i].version <= s.version)
    && (forall tx :: tx in s.handlers ==> s.handlers[tx].seen <= s.version)
    && (forall i :: 0 <= i < |s.rows| && s.rows[i].revoked && s.rows[i].version == s.version ==>
          s.rows[i].replacedBy.Some?)
  }

  ghost predicate Inv(s: State) { HandlersOk(s) && LinksOk(s) && Clean(s) }

  /** The commit writes the version: a sign-out, or a refresh in the reuse branch. */
  predicate Bumps(s: State, step: Step) {
    step.Commit? && step.tx in s.handlers
    && (s.handlers[step.tx].SigningOut? || TakesReuseBranch(s, s.handlers[step.tx]))
  }

  /** A commit that bumps does so on the version that is still stored. */
  predicate Current(s: State, step: Step) {
    Bumps(s, step) ==> s.handlers[step.tx].seen == s.version
  }

  /** The reuse branch is taken only for an exchanged token, and a bump outdates every token there is. */
  ghost predicate Justified(s: State, step: Step) {
    Bumps(s, step) ==>
      && (s.handlers[step.tx].Refreshing? ==> s.rows[s.handlers[step.tx].row].replacedBy.Some?)
      && s.version < Next(s, step).version
      && forall i :: 0 <= i < |s.rows| ==> s.rows[i].version < Next(s, step).version
  }

  lemma CurrentKeepsInv(s: State, step: Step)
    requires Inv(s) && Current(s, step)
    ensures Inv(Next(s, step)) && Justified(s, step)
  {
    StepKeepsLinks(s, step);
  }

  lemma OutdatedIsNotJustified(s: State, step: Step)
    requires Inv(s) && !Current(s, step)
    ensures !Justified(s, step)
  {
    assert s.handlers[step.tx].seen < s.version;
    assert Next(s, step).version == s.handlers[step.tx].seen + 1;
  }

  predicate AllCurrent(s: State, steps: seq<Step>)
    decreases |steps|
  {
    steps == [] || (Current(s, steps[0]) && AllCurrent(Next(s, steps[0]), steps[1..]))
  }

  ghost predicate AllJustified(s: State, steps: seq<Step>)
    decreases |steps|
  {
    steps == [] || (Justified(s, steps[0]) && AllJustified(Next(s, steps[0]), steps[1..]))
  }

  /** Through a whole run the reuse branch always means rotation and every bump outdates every token
      exactly when every commit that bumps finds the version it read still stored. */
  lemma {:induction false} ReuseMeansRotationIff(s: State, steps: seq<Step>)
    requires Inv(s)
    ensures AllJustified(s, steps) <==> AllCurrent(s, steps)
    decreases |steps|
  {
    if steps != [] {
      if Current(s, steps[0]) {
        CurrentKeepsInv(s, steps[0]);
        ReuseMeansRotationIff(Next(s, steps[0]), steps[1..]);
      } else {
        OutdatedIsNotJustified(s, steps[0]);
      }
    }
  }

  /** For a single refresh in such a run: the reuse branch is wrong only if the version moved on between
      its check and its commit. */
  lemma WrongReuseIsOvertaken(s: State, tx: nat)
    requires Inv(s) && tx in s.handlers && TakesReuseBranch(s, s.handlers[tx])
    requires s.rows[s.handlers[tx].row].replacedBy.None?
    ensures s.handlers[tx].seen < s.version
  {
  }

  /** A login or a sign-out that nobody disturbs. */
  function LogIn(s: State, tx: nat): State { Next(Next(s, BeginLogin(tx)), Commit(tx, false)) }

  function SignOut(s: State, tx: nat): State { Next(Next(s, BeginSignOut(tx)), Commit(tx, true)) }

  lemma LogInIs(s: State, tx: nat)
    requires tx !in s.handlers
    ensures LogIn(s, tx) == s.(rows := s.rows + [Row(s.version, false, None)])
  {
    assert s.handlers[tx := LoggingIn(s.version)] - {tx} == s.handlers;
  }

  lemma SignOutIs(s: State, tx: nat)
    requires tx !in s.handlers
    ensures SignOut(s, tx) == s.(rows := RevokeAll(s.rows), version := s.version + 1)
  {
    assert s.handlers[tx := SigningOut(s.version)] - {tx} == s.handlers;
  }

  /** What is left when a sign-out and then a login overtake the refresh of an earlier login. */
  lemma Overtaken(s: State, v: nat, refresh: nat, out: nat, again: nat)
    requires s == State(v, [Row(v, false, None)], map[refresh := Refreshing(0, v)])
    requires refresh != out && refresh != again
    ensures LogIn(SignOut(s, out), again) == State(v + 1, [Row(v, true, None), Row(v + 1, false, None)], s.handlers)
  {
    SignOutIs(s, out);
    assert RevokeAll(s.rows) == [Row(v, true, None)];
    LogInIs(SignOut(s, out), again);
  }

  /** Log in, check a refresh, let a sign-out overtake it, log in again, commit the refresh. It takes the
      reuse branch for a token that was never exchanged; it revokes the row of the new login and leaves the
      version where the sign-out had put it, so that the new login's own refresh is taken for a replay. */
  lemma SignOutOvertakesRefresh(s: State, login: nat, refresh: nat, out: nat, again: nat)
    requires Initial(s) && refresh != out && refresh != again
    ensures var checked := Next(LogIn(s, login), BeginRefresh(refresh, 0));
      var later := LogIn(SignOut(checked, out), again);
      var s' := Next(later, Commit(refresh, false));
      && refresh in later.handlers && TakesReuseBranch(later, later.handlers[refresh]) && !Linked(later, 0)
      && s'.version == later.version == s.version + 1
      && s'.rows == [Row(s.version, true, None), Row(s.version + 1, true, None)]
      && TakesReuseBranch(s', Refreshing(1, s'.version))
  {
    var v := s.version;
    LogInIs(s, login);
    var checked := Next(LogIn(s, login), BeginRefresh(refresh, 0));
    assert checked == State(v, [Row(v, false, None)], map[refresh := Refreshing(0, v)]);
    Overtaken(checked, v, refresh, out, again);
    var later := LogIn(SignOut(checked, out), again);
    assert RevokeAll(later.rows) == [Row(v, true, None), Row(v + 1, true, None)];
  }
}
