/**
 Joining a team: by the team's standing code, or by an invite with a role, an expiry and a usage cap.
 A join looks everything up and checks it, holding the invite's row lock, and later flushes and
 commits; other joins run in between. The database enforces one membership per (team, user) and one
 per (team, jersey).
 */
module TeamInvites {
  import opened Common

  datatype TeamRole = Player | Captain | HeadCoach | AssistantCoach | Manager

  datatype UserRole = PlayerUser | CoachUser | AdminUser

  datatype Invite = Invite(team: nat, role: TeamRole, maxUses: nat, uses: nat, expiresAt: int, active: bool)

  /** `via` is the invite a membership was created through. */
  datatype Member = Member(team: nat, user: nat, role: TeamRole, jersey: Option<nat>, via: Option<nat>)

  datatype Code = TeamCode(team: nat) | InviteCode(invite: nat)

  datatype Request = Request(user: nat, userRole: UserRole, jersey: Option<nat>, code: Code)

  /** A join that passed its checks: the row it will insert and the use count it read under the lock. */
  datatype Join = Join(member: Member, usesRead: nat)

  datatype State = State(
    closedTeams: set<nat>,
    invites: seq<Invite>,
    members: seq<Member>,
    joins: map<nat, Join>,        // open transactions past their checks
    locks: map<nat, nat>)         // invite row locks: invite to transaction

  datatype Reason =
    | NotFound | Inactive | Expired | Exhausted | RoleMismatch | AlreadyMember | JerseyRequired | JerseyTaken

  datatype Step =
    | CreateInvite(team: nat, role: TeamRole, maxUses: nat, expiresAt: int)
    | SetActive(invite: nat, active: bool)
    | CloseTeam(team: nat)
    | StartJoin(tx: nat, request: Request, now: int)
    | FinishJoin(tx: nat)
    | AbortJoin(tx: nat)

  predicate PlayerSeat(r: TeamRole) { r == Player || r == Captain }

  predicate RoleAllowed(user: UserRole, role: TeamRole) {
    user == AdminUser || (if PlayerSeat(role) then user == PlayerUser else user == CoachUser)
  }

  predicate IsMember(members: seq<Member>, team: nat, user: nat) {
    exists i :: 0 <= i < |members| && members[i].team == team && members[i].user == user
  }

  predicate JerseyUsed(members: seq<Member>, team: nat, jersey: Option<nat>) {
    jersey.Some? && exists i :: 0 <= i < |members| && members[i].team == team && members[i].jersey == jersey
  }

  /** All checks of a join request, in the order they are made. */
  function CheckJoin(s: State, r: Request, now: int): Result<Join, Reason> {
    if r.code.InviteCode? && r.code.invite >= |s.invites| then Err(NotFound)
    else
      var via := if r.code.InviteCode? then Some(r.code.invite) else None;
      var team := if via.Some? then s.invites[via.value].team else r.code.team;
      var role := if via.Some? then s.invites[via.value].role else Player;
      if team in s.closedTeams then Err(NotFound)
      else if via.Some? && !s.invites[via.value].active then Err(Inactive)
      else if via.Some? && s.invites[via.value].expiresAt <= now then Err(Expired)
      else if via.Some? && s.invites[via.value].uses >= s.invites[via.value].maxUses then Err(Exhausted)
      else if !RoleAllowed(r.userRole, role) then Err(RoleMismatch)
      else if IsMember(s.members, team, r.user) then Err(AlreadyMember)
      else if PlayerSeat(role) && r.userRole == PlayerUser && r.jersey.None? then Err(JerseyRequired)
      else if PlayerSeat(role) && JerseyUsed(s.members, team, r.jersey) then Err(JerseyTaken)
      else Ok(Join(Member(team, r.user, role, if PlayerSeat(role) then r.jersey else None, via),
                   if via.Some? then s.invites[via.value].uses else 0))
  }

  /** The row lock makes a second join through the same invite wait. */
  predicate MustWait(s: State, r: Request) {
    r.code.InviteCode? && r.code.invite in s.locks
  }

  function CloseTx(s: State, tx: nat): State {
    s.(joins := s.joins - {tx}, locks := map i | i in s.locks && s.locks[i] != tx :: s.locks[i])
  }

  /** The unique constraints, checked when the insert is flushed. */
  predicate Clashes(members: seq<Member>, m: Member) {
    IsMember(members, m.team, m.user) || JerseyUsed(members, m.team, m.jersey)
  }

  function Commit(s: State, j: Join): State
    requires j.member.via.Some? ==> j.member.via.value < |s.invites|
  {
    s.(members := s.members + [j.member],
       invites := if j.member.via.None? then s.invites
                  else s.invites[j.member.via.value := s.invites[j.member.via.value].(uses := j.usesRead + 1)])
  }

  function Next(s: State, step: Step): State {
    match step
    case CreateInvite(team, role, maxUses, expiresAt) =>
      s.(invites := s.invites + [Invite(team, role, maxUses, 0, expiresAt, true)])
    case SetActive(i, active) =>
      if i < |s.invites| then s.(invites := s.invites[i := s.invites[i].(active := active)]) else s
    case CloseTeam(team) => s.(closedTeams := s.closedTeams + {team})
    case StartJoin(tx, r, now) =>
      if tx in s.joins || MustWait(s, r) || CheckJoin(s, r, now).Err? then s
      else
        var j := CheckJoin(s, r, now).value;
        s.(joins := s.joins[tx := j],
           locks := if j.member.via.Some? then s.locks[j.member.via.value := tx] else s.locks)
    case FinishJoin(tx) =>
      if tx !in s.joins then s
      else
        var j := s.joins[tx];
        if Clashes(s.members, j.member) || (j.member.via.Some? && j.member.via.value >= |s.invites|)
        then CloseTx(s, tx)
        else CloseTx(Commit(s, j), tx)
    case AbortJoin(tx) => CloseTx(s, tx)
  }

  function Run(s: State, steps: seq<Step>): State
    decreases |steps|
  {
    if steps == [] then s else Run(Next(s, steps[0]), steps[1..])
  }

  predicate Initial(s: State) {
    s.invites == [] && s.members == [] && s.joins == map[] && s.locks == map[]
  }

  /** How many memberships were created through the invite. */
  function JoinedVia(members: seq<Member>, i: nat): nat {
    if members == [] then 0
    else JoinedVia(members[..|members| - 1], i) + (if members[|members| - 1].via == Some(i) then 1 else 0)
  }

  // ----- Invariant -----

  ghost predicate Unique(members: seq<Member>) {
    forall i, j :: 0 <= i < j < |members| && members[i].team == members[j].team ==>
      members[i].user != members[j].user && (members[i].jersey.None? || members[i].jersey != members[j].jersey)
  }

  ghost predicate InviteOk(s: State, i: nat)
    requires i < |s.invites|
  {
    s.invites[i].uses == JoinedVia(s.members, i) && s.invites[i].uses <= s.invites[i].maxUses
  }

  /** A join past its checks holds its invite's lock, and what it read is still true. */
  ghost predicate JoinOk(s: State, tx: nat)
    requires tx in s.joins
  {
    var via := s.joins[tx].member.via;
    via.Some? ==>
      && via.value < |s.invites|
      && via.value in s.locks && s.locks[via.value] == tx
      && s.joins[tx].usesRead == s.invites[via.value].uses < s.invites[via.value].maxUses
  }

  ghost predicate Inv(s: State) {
    && Unique(s.members)
    && (forall m :: m in s.members && m.via.Some? ==> m.via.value < |s.invites|)
    && (forall i :: 0 <= i < |s.invites| ==> InviteOk(s, i))
    && (forall tx :: tx in s.joins ==> JoinOk(s, tx))
  }

  lemma JoinedViaAppend(members: seq<Member>, m: Member, i: nat)
    ensures JoinedVia(members + [m], i) == JoinedVia(members, i) + (if m.via == Some(i) then 1 else 0)
  {
    assert (members + [m])[..|members|] == members;
  }

  lemma {:induction false} NotYetJoinedVia(members: seq<Member>, i: nat)
    requires forall m :: m in members ==> m.via != Some(i)
    ensures JoinedVia(members, i) == 0
  {
    if members != [] {
      assert members[|members| - 1] in members;
      NotYetJoinedVia(members[..|members| - 1], i);
    }
  }

  lemma CreateKeepsInv(s: State, team: nat, role: TeamRole, maxUses: nat, expiresAt: int)
    requires Inv(s)
    ensures Inv(Next(s, CreateInvite(team, role, maxUses, expiresAt)))
  {
    var s' := Next(s, CreateInvite(team, role, maxUses, expiresAt));
    NotYetJoinedVia(s.members, |s.invites|);
    forall i | 0 <= i < |s'.invites| ensures InviteOk(s', i) {
      if i < |s.invites| { assert InviteOk(s, i); }
    }
    forall tx | tx in s'.joins ensures JoinOk(s', tx) { assert JoinOk(s, tx); }
  }

  lemma StartKeepsInv(s: State, tx: nat, r: Request, now: int)
    requires Inv(s)
    ensures Inv(Next(s, StartJoin(tx, r, now)))
  {
    var s' := Next(s, StartJoin(tx, r, now));
    forall i | 0 <= i < |s'.invites| ensures InviteOk(s', i) { assert InviteOk(s, i); }
    forall other | other in s'.joins ensures JoinOk(s', other) {
      if other in s.joins { assert JoinOk(s, other); }
    }
  }

  lemma CloseKeepsInv(s: State, tx: nat)
    requires Inv(s)
    ensures Inv(CloseTx(s, tx))
  {
    var s' := CloseTx(s, tx);
    forall i | 0 <= i < |s'.invites| ensures InviteOk(s', i) { assert InviteOk(s, i); }
    forall other | other in s'.joins ensures JoinOk(s', other) { assert JoinOk(s, other); }
  }

  lemma FinishKeepsInv(s: State, tx: nat)
    requires Inv(s) && tx in s.joins && !Clashes(s.members, s.joins[tx].member)
    ensures Inv(CloseTx(Commit(s, s.joins[tx]), tx))
  {
    var j := s.joins[tx];
    assert JoinOk(s, tx);
    var s' := CloseTx(Commit(s, j), tx);
    forall i | 0 <= i < |s'.invites| ensures InviteOk(s', i) {
      assert InviteOk(s, i);
      JoinedViaAppend(s.members, j.member, i);
    }
    forall other | other in s'.joins ensures JoinOk(s', other) { assert JoinOk(s, other); }
  }

  lemma StepKeepsInv(s: State, step: Step)
    requires Inv(s)
    ensures Inv(Next(s, step))
  {
    match step
    case CreateInvite(team, role, maxUses, expiresAt) => CreateKeepsInv(s, team, role, maxUses, expiresAt);
    case SetActive(i, active) =>
      var s' := Next(s, step);
      forall k | 0 <= k < |s'.invites| ensures InviteOk(s', k) { assert InviteOk(s, k); }
      forall tx | tx in s'.joins ensures JoinOk(s', tx) { assert JoinOk(s, tx); }
    case CloseTeam(team) =>
      forall k | 0 <= k < |s.invites| ensures InviteOk(Next(s, step), k) { assert InviteOk(s, k); }
      forall tx | tx in s.joins ensures JoinOk(Next(s, step), tx) { assert JoinOk(s, tx); }
    case StartJoin(tx, r, now) => StartKeepsInv(s, tx, r, now);
    case FinishJoin(tx) =>
      CloseKeepsInv(s, tx);
      if tx in s.joins && !Clashes(s.members, s.joins[tx].member) { assert JoinOk(s, tx); FinishKeepsInv(s, tx); }
    case AbortJoin(tx) => CloseKeepsInv(s, tx);
  }

  lemma {:induction false} RunKeepsInv(s: State, steps: seq<Step>)
    requires Inv(s)
    ensures Inv(Run(s, steps))
    decreases |steps|
  {
    if steps != [] {
      StepKeepsInv(s, steps[0]);
      RunKeepsInv(Next(s, steps[0]), steps[1..]);
    }
  }

  /** In every interleaving of joins an invite's count equals the memberships created through it and
      stays within its cap, and users and jerseys stay unique per team. */
  lemma InvitesCountExactly(s: State, steps: seq<Step>)
    requires Initial(s)
    ensures var s' := Run(s, steps);
      && Unique(s'.members)
      && forall i :: 0 <= i < |s'.invites| ==>
           s'.invites[i].uses == JoinedVia(s'.members, i) <= s'.invites[i].maxUses
  {
    RunKeepsInv(s, steps);
    var s' := Run(s, steps);
    forall i | 0 <= i < |s'.invites| ensures s'.invites[i].uses == JoinedVia(s'.members, i) <= s'.invites[i].maxUses {
      assert InviteOk(s', i);
    }
  }

  /** A join that fails at the flush leaves no trace: every request is answered as before it began, and
      the invite it had locked is free for the next join. */
  lemma FailedFlushLeavesNoTrace(s: State, tx: nat, r: Request, now: int)
    requires Inv(s) && tx in s.joins && Clashes(s.members, s.joins[tx].member)
    ensures var s' := Next(s, FinishJoin(tx));
      && Inv(s') && tx !in s'.joins
      && CheckJoin(s', r, now) == CheckJoin(s, r, now)
      && (s.joins[tx].member.via.Some? && r.code == InviteCode(s.joins[tx].member.via.value) ==> !MustWait(s', r))
      && (MustWait(s', r) ==> MustWait(s, r))
  {
    assert JoinOk(s, tx);
    StepKeepsInv(s, FinishJoin(tx));
  }

  /** What the lock is for: committing an increment keeps count and memberships equal exactly when the
      count it read is still the stored one. */
  lemma IncrementExactIff(s: State, j: Join)
    requires j.member.via.Some? && j.member.via.value < |s.invites| && InviteOk(s, j.member.via.value)
    ensures var i := j.member.via.value;
      Commit(s, j).invites[i].uses == JoinedVia(Commit(s, j).members, i) <==> j.usesRead == s.invites[i].uses
  {
    JoinedViaAppend(s.members, j.member, j.member.via.value);
  }

  // ----- Who may join -----

  /** Players and captains are player users, the other roles coaches; an administrator may take any. */
  predicate MayTake(user: UserRole, role: TeamRole) {
    match role
    case Player => user == PlayerUser || user == AdminUser
    case Captain => user == PlayerUser || user == AdminUser
    case HeadCoach => user == CoachUser || user == AdminUser
    case AssistantCoach => user == CoachUser || user == AdminUser
    case Manager => user == CoachUser || user == AdminUser
  }

  /** The seat is free: the user is not on the team and nobody wears the jersey; players need one. */
  ghost predicate SeatFree(s: State, r: Request, team: nat, role: TeamRole) {
    && (forall m :: m in s.members && m.team == team ==> m.user != r.user)
    && (role == Player || role == Captain ==>
          && (r.userRole == PlayerUser ==> r.jersey.Some?)
          && forall m :: m in s.members && m.team == team && r.jersey.Some? ==> m.jersey != r.jersey)
  }

  lemma SeatFreeIff(s: State, r: Request, team: nat, role: TeamRole)
    ensures SeatFree(s, r, team, role) <==>
      && !IsMember(s.members, team, r.user)
      && !(PlayerSeat(role) && r.userRole == PlayerUser && r.jersey.None?)
      && !(PlayerSeat(role) && JerseyUsed(s.members, team, r.jersey))
  {
    if IsMember(s.members, team, r.user) {
      var i :| 0 <= i < |s.members| && s.members[i].team == team && s.members[i].user == r.user;
      assert s.members[i] in s.members;
    }
    if JerseyUsed(s.members, team, r.jersey) {
      var i :| 0 <= i < |s.members| && s.members[i].team == team && s.members[i].jersey == r.jersey;
      assert s.members[i] in s.members;
    }
  }

  /** A team's own code lets in players and administrators, as players, while the team is open. */
  lemma TeamCodeAdmitsIff(s: State, r: Request, now: int)
    requires r.code.TeamCode?
    ensures CheckJoin(s, r, now).Ok? <==>
      r.code.team !in s.closedTeams && MayTake(r.userRole, Player) && SeatFree(s, r, r.code.team, Player)
    ensures CheckJoin(s, r, now).Ok? ==>
      CheckJoin(s, r, now).value.member == Member(r.code.team, r.user, Player, r.jersey, None)
  {
    SeatFreeIff(s, r, r.code.team, Player);
  }

  /** An invite lets in whoever may take its role, while the team is open and the invite is active, not
      expired and not used up; who joins gets the invite's team and role, and a jersey only as a player. */
  lemma InviteAdmitsIff(s: State, r: Request, now: int)
    requires r.code.InviteCode? && r.code.invite < |s.invites|
    ensures var invite := s.invites[r.code.invite];
      && (CheckJoin(s, r, now).Ok? <==>
            && invite.team !in s.closedTeams
            && invite.active && now < invite.expiresAt && invite.uses < invite.maxUses
            && MayTake(r.userRole, invite.role) && SeatFree(s, r, invite.team, invite.role))
      && (CheckJoin(s, r, now).Ok? ==>
            CheckJoin(s, r, now).value
            == Join(Member(invite.team, r.user, invite.role,
                           if invite.role == Player || invite.role == Captain then r.jersey else None,
                           Some(r.code.invite)), invite.uses))
  {
    SeatFreeIff(s, r, s.invites[r.code.invite].team, s.invites[r.code.invite].role);
  }

  /** The reason given for a refusal is true. */
  lemma ReasonsAreTrue(s: State, r: Request, now: int)
    requires CheckJoin(s, r, now).Err?
    ensures var known := r.code.InviteCode? && r.code.invite < |s.invites|;
      var team := if known then s.invites[r.code.invite].team else if r.code.TeamCode? then r.code.team else 0;
      var role := if known then s.invites[r.code.invite].role else Player;
      match CheckJoin(s, r, now).error
      case NotFound => (r.code.InviteCode? && !known) || team in s.closedTeams
      case Inactive => known && !s.invites[r.code.invite].active
      case Expired => known && s.invites[r.code.invite].expiresAt <= now
      case Exhausted => known && s.invites[r.code.invite].uses >= s.invites[r.code.invite].maxUses
      case RoleMismatch => !MayTake(r.userRole, role)
      case AlreadyMember => exists m :: m in s.members && m.team == team && m.user == r.user
      case JerseyRequired => (role == Player || role == Captain) && r.userRole == PlayerUser && r.jersey.None?
      case JerseyTaken => (role == Player || role == Captain) && r.jersey.Some?
                          && exists m :: m in s.members && m.team == team && m.jersey == r.jersey
  {
    var team := if r.code.TeamCode? then r.code.team
                else if r.code.invite < |s.invites| then s.invites[r.code.invite].team else 0;
    if IsMember(s.members, team, r.user) {
      var i :| 0 <= i < |s.members| && s.members[i].team == team && s.members[i].user == r.user;
      assert s.members[i] in s.members;
    }
    if JerseyUsed(s.members, team, r.jersey) {
      var i :| 0 <= i < |s.members| && s.members[i].team == team && s.members[i].jersey == r.jersey;
      assert s.members[i] in s.members;
    }
  }

  /** A join that passed its checks and clashes with nobody at the flush adds its member and one use. */
  lemma FinishJoinAdds(s: State, tx: nat)
    requires Inv(s) && tx in s.joins
    ensures var s', j := Next(s, FinishJoin(tx)), s.joins[tx];
      if (exists m :: m in s.members && m.team == j.member.team
                      && (m.user == j.member.user || (m.jersey.Some? && m.jersey == j.member.jersey)))
      then s'.members == s.members && s'.invites == s.invites
      else
        && s'.members == s.members + [j.member]
        && forall i :: 0 <= i < |s.invites| ==>
             |s'.invites| == |s.invites|
             && s'.invites[i] == s.invites[i].(uses := s.invites[i].uses + if j.member.via == Some(i) then 1 else 0)
  {
    var m := s.joins[tx].member;
    assert JoinOk(s, tx);
    if Clashes(s.members, m) {
      var i :| 0 <= i < |s.members| && s.members[i].team == m.team
               && (s.members[i].user == m.user || (m.jersey.Some? && s.members[i].jersey == m.jersey));
      assert s.members[i] in s.members;
    }
  }

  // ----- Runs -----

  lemma {:induction false} RunOneMore(s: State, steps: seq<Step>, step: Step)
    ensures Run(s, steps + [step]) == Next(Run(s, steps), step)
    decreases |steps|
  {
    if steps == [] {
      assert [step][1..] == [] && [] + [step] == [step];
    } else {
      assert (steps + [step])[1..] == steps[1..] + [step];
      RunOneMore(Next(s, steps[0]), steps[1..], step);
    }
  }

  lemma {:induction false} ClosedStaysClosed(s: State, steps: seq<Step>, team: nat)
    requires team in s.closedTeams
    ensures team in Run(s, steps).closedTeams
    decreases |steps|
  {
    if steps != [] { ClosedStaysClosed(Next(s, steps[0]), steps[1..], team); }
  }

  /** Once a team is closed, neither its code nor any invite to it lets anybody in again. */
  lemma ClosedTeamAdmitsNobody(s: State, team: nat, steps: seq<Step>, r: Request, now: int)
    requires var s' := Run(Next(s, CloseTeam(team)), steps);
      if r.code.TeamCode? then r.code.team == team
      else r.code.invite < |s'.invites| && s'.invites[r.code.invite].team == team
    ensures CheckJoin(Run(Next(s, CloseTeam(team)), steps), r, now) == Err(NotFound)
  {
    ClosedStaysClosed(Next(s, CloseTeam(team)), steps, team);
  }

  /** A new invite admits whom it is for from the start, until it expires, if it may be used at all; while
      it is switched off it admits nobody. */
  lemma NewInviteAdmitsIff(s: State, team: nat, role: TeamRole, maxUses: nat, expiresAt: int, r: Request, now: int)
    requires r.code == InviteCode(|s.invites|)
    ensures var s' := Next(s, CreateInvite(team, role, maxUses, expiresAt));
      && (CheckJoin(s', r, now).Ok? <==>
            && team !in s.closedTeams && now < expiresAt && maxUses > 0
            && MayTake(r.userRole, role) && SeatFree(s, r, team, role))
      && CheckJoin(Next(s', SetActive(|s.invites|, false)), r, now).Err?
      && Next(Next(s', SetActive(|s.invites|, false)), SetActive(|s.invites|, true)) == s'
  {
    var s' := Next(s, CreateInvite(team, role, maxUses, expiresAt));
    InviteAdmitsIff(s', r, now);
    var off := Next(s', SetActive(|s.invites|, false));
    InviteAdmitsIff(off, r, now);
    assert Next(off, SetActive(|s.invites|, true)).invites == s'.invites;
  }

  /** A join begins exactly if its transaction is new, nobody holds the invite it names, and it passes its
      checks; it then holds the invite until it finishes or is aborted, which otherwise changes nothing. */
  lemma JoinBeginsIff(s: State, tx: nat, r: Request, now: int)
    requires tx !in s.joins
    ensures var s' := Next(s, StartJoin(tx, r, now));
      && (tx in s'.joins <==> CheckJoin(s, r, now).Ok? && !(r.code.InviteCode? && r.code.invite in s.locks))
      && (tx in s'.joins ==>
            && s'.joins[tx] == CheckJoin(s, r, now).value
            && (r.code.InviteCode? ==> r.code.invite in s'.locks && s'.locks[r.code.invite] == tx))
      && var s'' := Next(s', AbortJoin(tx));
         && tx !in s''.joins && s''.members == s.members && s''.invites == s.invites
         && (r.code.InviteCode? && tx in s'.joins ==> r.code.invite !in s''.locks)
  {
  }

  // ----- The handler, run without interruption -----

  class Roster {
    var closedTeams: set<nat>
    var invites: seq<Invite>
    var members: seq<Member>

    ghost function Snapshot(): State
      reads this
    {
      State(closedTeams, invites, members, map[], map[])
    }

    constructor ()
      ensures Initial(Snapshot())
    {
      closedTeams, invites, members := {}, [], [];
    }

    method AddInvite(team: nat, role: TeamRole, maxUses: nat, expiresAt: int) returns (invite: nat)
      modifies this`invites
      ensures Snapshot() == Next(old(Snapshot()), CreateInvite(team, role, maxUses, expiresAt))
      ensures invite == |old(invites)|
    {
      invite := |invites|;
      invites := invites + [Invite(team, role, maxUses, 0, expiresAt, true)];
    }

    /** Look the code up and check the request. */
    method Check(r: Request, now: int) returns (result: Result<Join, Reason>)
      ensures result == CheckJoin(Snapshot(), r, now)
    {
      var invite: Option<nat> := None;
      var team, role, uses := 0, Player, 0;
      match r.code {
        case TeamCode(t) => team := t;
        case InviteCode(i) =>
          if i >= |invites| { return Err(NotFound); }
          invite, team, role, uses := Some(i), invites[i].team, invites[i].role, invites[i].uses;
      }
      if team in closedTeams { return Err(NotFound); }
      if invite.Some? {
        if !invites[invite.value].active { return Err(Inactive); }
        if invites[invite.value].expiresAt <= now { return Err(Expired); }
        if uses >= invites[invite.value].maxUses { return Err(Exhausted); }
      }
      if !RoleAllowed(r.userRole, role) { return Err(RoleMismatch); }
      if IsMember(members, team, r.user) { return Err(AlreadyMember); }
      if PlayerSeat(role) && r.userRole == PlayerUser && r.jersey.None? { return Err(JerseyRequired); }
      if PlayerSeat(role) && JerseyUsed(members, team, r.jersey) { return Err(JerseyTaken); }
      return Ok(Join(Member(team, r.user, role, if PlayerSeat(role) then r.jersey else None, invite), uses));
    }

    method JoinTeam(r: Request, now: int) returns (result: Result<Member, Reason>)
      modifies this
      ensures Snapshot() == Next(Next(old(Snapshot()), StartJoin(0, r, now)), FinishJoin(0))
      ensures match CheckJoin(old(Snapshot()), r, now)
              case Err(e) => result == Err(e) && Snapshot() == old(Snapshot())
              case Ok(j) => result == Ok(j.member) && members == old(members) + [j.member]
    {
      ghost var s1 := Next(Snapshot(), StartJoin(0, r, now));
      var checked := Check(r, now);
      if checked.Err? { return Err(checked.error); }
      var member := checked.value.member;
      members := members + [member];
      if member.via.Some? {
        var i := member.via.value;
        invites := invites[i := invites[i].(uses := invites[i].uses + 1)];
      }
      assert s1.joins[0] == checked.value;
      assert Next(s1, FinishJoin(0)).locks == map[];
      return Ok(member);
    }
  }
}
