/**
 The confirm and disable handlers read the enrollment record without locking it and commit later, while
 a login locks the record. Reading and committing are separate steps here. A commit does what the atomic
 handler would do exactly when it would decide the same on the record as it is stored now.
 */
module TotpRace {
  import opened Common
  import opened Totp

  datatype Race = Race(
    record: Record,
    copies: map<nat, Record>,     // what each open confirm or disable has read
    accepted: seq<Acceptance>)

  datatype Step =
    | Open(tx: nat)
    | CommitConfirm(tx: nat, code: string, at: nat)
    | CommitDisable(tx: nat, code: string, recoveryOk: bool, at: nat)
    | LockedLogIn(code: string, at: nat)
    | SetUp

  /** The check made against a given copy of the record. */
  function CheckOn(c: Config, r: Record, code: string, at: nat): Verification
    requires c.Valid()
  {
    Check(c, State(r, []), code, at)
  }

  // ----- What the handlers decide -----

  function CodeTaken(c: Config, r: Record, code: string, at: nat): Option<Acceptance>
    requires c.Valid()
  {
    if CheckOn(c, r, code, at).Accepted? then Some(Acceptance(r.secret, CheckOn(c, r, code, at).counter, at)) else None
  }

  function ConfirmTakes(c: Config, r: Record, code: string, at: nat): Option<Acceptance>
    requires c.Valid()
  {
    if r.enrolled && !r.disabled then CodeTaken(c, r, code, at) else None
  }

  function LogInTakes(c: Config, r: Record, code: string, at: nat): Option<Acceptance>
    requires c.Valid()
  {
    if Active(r) then CodeTaken(c, r, code, at) else None
  }

  /** Refused, or disabled by a code, or by a recovery code. */
  datatype Disabling = Refused | ByCode(a: Acceptance) | ByRecovery

  function DisableDecides(c: Config, r: Record, code: string, recoveryOk: bool, at: nat): Disabling
    requires c.Valid()
  {
    if !Active(r) then Refused
    else match CheckOn(c, r, code, at)
      case Accepted(m) => ByCode(Acceptance(r.secret, m, at))
      case Rejected => if recoveryOk then ByRecovery else Refused
      case CounterError => Refused
  }

  // ----- Steps -----

  /** Record the code and write the confirm or login columns. */
  function TakeCode(c: Config, s: Race, taken: Option<Acceptance>, confirms: bool): Race
    requires c.Valid()
  {
    if taken.None? then s
    else
      var usedAt := Some(taken.value.counter * c.step);
      s.(record := s.record.(confirmed := s.record.confirmed || confirms, lastUsedAt := usedAt),
         accepted := s.accepted + [taken.value])
  }

  function ApplyDisable(s: Race, d: Disabling): Race {
    match d
    case Refused => s
    case ByCode(a) => s.(record := s.record.(disabled := true), accepted := s.accepted + [a])
    case ByRecovery => s.(record := s.record.(disabled := true))
  }

  function Close(s: Race, tx: nat): Race { s.(copies := s.copies - {tx}) }

  /** Each handler decides on what it read and writes only its own columns of the stored record. */
  function Next(c: Config, s: Race, step: Step): Race
    requires c.Valid()
  {
    match step
    case Open(tx) => if tx in s.copies then s else s.(copies := s.copies[tx := s.record])
    case CommitConfirm(tx, code, at) =>
      if tx in s.copies then Close(TakeCode(c, s, ConfirmTakes(c, s.copies[tx], code, at), true), tx) else s
    case CommitDisable(tx, code, recoveryOk, at) =>
      if tx in s.copies then Close(ApplyDisable(s, DisableDecides(c, s.copies[tx], code, recoveryOk, at)), tx) else s
    case LockedLogIn(code, at) => TakeCode(c, s, LogInTakes(c, s.record, code, at), false)
    case SetUp =>
      if Active(s.record) then s else s.(record := Record(true, s.record.secret + 1, false, false, None))
  }

  function Run(c: Config, s: Race, steps: seq<Step>): Race
    requires c.Valid()
    decreases |steps|
  {
    if steps == [] then s else Run(c, Next(c, s, steps[0]), steps[1..])
  }

  // ----- Exactly when a commit does what the atomic handler does -----

  function Stored(s: Race): State { State(s.record, s.accepted) }

  /** The events of the atomic handlers that a step stands for. */
  function Events(s: Race, step: Step): seq<Event> {
    match step
    case Open(_) => []
    case CommitConfirm(tx, code, at) => if tx in s.copies then [Confirm(code, at)] else []
    case CommitDisable(tx, code, recoveryOk, at) =>
      if tx in s.copies then [Disable(code, true, recoveryOk, at)] else []
    case LockedLogIn(code, at) => [LogIn(code, at)]
    case SetUp => [Setup]
  }

  ghost predicate Serial(c: Config, s: Race, step: Step)
    requires c.Valid()
  {
    Stored(Next(c, s, step)) == Totp.Run(c, Stored(s), Events(s, step))
  }

  /** The handler would decide the same on the stored record, or there is nothing left to disable. */
  predicate Rechecked(c: Config, s: Race, step: Step)
    requires c.Valid()
  {
    match step
    case CommitConfirm(tx, code, at) =>
      tx in s.copies ==> ConfirmTakes(c, s.copies[tx], code, at) == ConfirmTakes(c, s.record, code, at)
    case CommitDisable(tx, code, recoveryOk, at) =>
      tx in s.copies ==>
        var d := DisableDecides(c, s.copies[tx], code, recoveryOk, at);
        d == DisableDecides(c, s.record, code, recoveryOk, at) || (d.ByRecovery? && s.record.disabled)
    case _ => true
  }

  lemma OneEvent(c: Config, s: State, e: Event)
    requires c.Valid()
    ensures Totp.Run(c, s, [e]) == Apply(c, s, e)
  {
    assert [e][1..] == [];
  }

  lemma ConfirmIs(c: Config, s: State, code: string, at: nat)
    requires c.Valid()
    ensures var taken := ConfirmTakes(c, s.record, code, at);
      Apply(c, s, Confirm(code, at)) == Stored(TakeCode(c, Race(s.record, map[], s.accepted), taken, true))
  {
  }

  lemma DisableIs(c: Config, s: State, code: string, recoveryOk: bool, at: nat)
    requires c.Valid()
    ensures var d := DisableDecides(c, s.record, code, recoveryOk, at);
      Apply(c, s, Disable(code, true, recoveryOk, at)) == Stored(ApplyDisable(Race(s.record, map[], s.accepted), d))
  {
  }

  lemma ConfirmSerialIff(c: Config, s: Race, tx: nat, code: string, at: nat)
    requires c.Valid() && tx in s.copies
    ensures Serial(c, s, CommitConfirm(tx, code, at)) <==> Rechecked(c, s, CommitConfirm(tx, code, at))
  {
    OneEvent(c, Stored(s), Confirm(code, at));
    ConfirmIs(c, Stored(s), code, at);
    var taken, would := ConfirmTakes(c, s.copies[tx], code, at), ConfirmTakes(c, s.record, code, at);
    if taken.Some? && would.Some? && taken != would {
      assert (s.accepted + [taken.value])[|s.accepted|] != (s.accepted + [would.value])[|s.accepted|];
    }
  }

  lemma DisableSerialIff(c: Config, s: Race, tx: nat, code: string, recoveryOk: bool, at: nat)
    requires c.Valid() && tx in s.copies
    ensures var step := CommitDisable(tx, code, recoveryOk, at);
      Serial(c, s, step) <==> Rechecked(c, s, step)
  {
    OneEvent(c, Stored(s), Disable(code, true, recoveryOk, at));
    DisableIs(c, Stored(s), code, recoveryOk, at);
    var d := DisableDecides(c, s.copies[tx], code, recoveryOk, at);
    var would := DisableDecides(c, s.record, code, recoveryOk, at);
    if d.ByCode? && would.ByCode? && d != would {
      assert (s.accepted + [d.a])[|s.accepted|] != (s.accepted + [would.a])[|s.accepted|];
    }
  }

  /** A step does to record and acceptances what the atomic handler does exactly when it passes the recheck. */
  lemma SerialIff(c: Config, s: Race, step: Step)
    requires c.Valid()
    ensures Serial(c, s, step) <==> Rechecked(c, s, step)
  {
    match step
    case Open(_) =>
    case CommitConfirm(tx, code, at) => if tx in s.copies { ConfirmSerialIff(c, s, tx, code, at); }
    case CommitDisable(tx, code, recoveryOk, at) =>
      if tx in s.copies { DisableSerialIff(c, s, tx, code, recoveryOk, at); }
    case LockedLogIn(code, at) => OneEvent(c, Stored(s), LogIn(code, at));
    case SetUp => OneEvent(c, Stored(s), Setup);
  }

  predicate AllRechecked(c: Config, s: Race, steps: seq<Step>)
    requires c.Valid()
    decreases |steps|
  {
    steps == [] || (Rechecked(c, s, steps[0]) && AllRechecked(c, Next(c, s, steps[0]), steps[1..]))
  }

  function AllEvents(c: Config, s: Race, steps: seq<Step>): seq<Event>
    requires c.Valid()
    decreases |steps|
  {
    if steps == [] then [] else Events(s, steps[0]) + AllEvents(c, Next(c, s, steps[0]), steps[1..])
  }

  lemma {:induction false} RunConcat(c: Config, s: State, a: seq<Event>, b: seq<Event>)
    requires c.Valid()
    ensures Totp.Run(c, s, a + b) == Totp.Run(c, Totp.Run(c, s, a), b)
    decreases |a|
  {
    if a == [] {
      assert a + b == b;
    } else {
      assert (a + b)[1..] == a[1..] + b;
      RunConcat(c, Apply(c, s, a[0]), a[1..], b);
    }
  }

  /** A run whose commits all pass the recheck is a run of the atomic handlers in commit order. */
  lemma {:induction false} RecheckedRunsAreSerial(c: Config, s: Race, steps: seq<Step>)
    requires c.Valid() && AllRechecked(c, s, steps)
    ensures Stored(Run(c, s, steps)) == Totp.Run(c, Stored(s), AllEvents(c, s, steps))
    decreases |steps|
  {
    if steps != [] {
      SerialIff(c, s, steps[0]);
      RecheckedRunsAreSerial(c, Next(c, s, steps[0]), steps[1..]);
      RunConcat(c, Stored(s), Events(s, steps[0]), AllEvents(c, Next(c, s, steps[0]), steps[1..]));
    }
  }

  /** So in such a run the counters accepted under one secret strictly increase, near the clock. */
  lemma RecheckedRunsAscend(c: Config, s: Race, steps: seq<Step>)
    requires c.Valid() && Initial(Stored(s)) && AllRechecked(c, s, steps)
    ensures Increasing(Run(c, s, steps).accepted) && NearClock(c, Run(c, s, steps).accepted)
  {
    RecheckedRunsAreSerial(c, s, steps);
    CountersIncrease(c, Stored(s), AllEvents(c, s, steps));
  }

  // ----- Exactly when the counters still increase -----

  /** One secret, enabled: all copies and acceptances are of it, and the record remembers the newest. */
  ghost predicate OneSecret(c: Config, s: Race)
    requires c.Valid()
  {
    && (forall tx :: tx in s.copies ==> s.copies[tx].secret == s.record.secret)
    && (forall i :: 0 <= i < |s.accepted| ==> s.accepted[i].secret == s.record.secret)
    && Increasing(s.accepted)
    && (!s.record.disabled ==> LastCounter(c, s.record) == Newest(s.accepted))
  }

  function Newest(a: seq<Acceptance>): Option<int> {
    if a == [] then None else Some(a[|a| - 1].counter)
  }

  /** The code a step records, if it records one. */
  function Taken(c: Config, s: Race, step: Step): Option<Acceptance>
    requires c.Valid()
  {
    match step
    case CommitConfirm(tx, code, at) => if tx in s.copies then ConfirmTakes(c, s.copies[tx], code, at) else None
    case CommitDisable(tx, code, recoveryOk, at) =>
      if tx in s.copies && DisableDecides(c, s.copies[tx], code, recoveryOk, at).ByCode?
      then Some(DisableDecides(c, s.copies[tx], code, recoveryOk, at).a) else None
    case LockedLogIn(code, at) => LogInTakes(c, s.record, code, at)
    case _ => None
  }

  /** What it records is newer than what the stored record remembers. */
  predicate Newer(c: Config, s: Race, step: Step)
    requires c.Valid()
  {
    Taken(c, s, step).Some? && LastCounter(c, s.record).Some? ==>
      LastCounter(c, s.record).value < Taken(c, s, step).value.counter
  }

  lemma StepRecords(c: Config, s: Race, step: Step)
    requires c.Valid()
    ensures Next(c, s, step).accepted
         == s.accepted + if Taken(c, s, step).Some? then [Taken(c, s, step).value] else []
  {
  }

  lemma AppendAscendsIff(a: seq<Acceptance>, x: Acceptance)
    requires Increasing(a) && forall i :: 0 <= i < |a| ==> a[i].secret == x.secret
    ensures Increasing(a + [x]) <==> (a == [] || Newest(a).value < x.counter)
  {
    var n := |a|;
    assert n > 0 ==> (a + [x])[n - 1] == a[n - 1] && (a + [x])[n] == x;
    forall i | 0 <= i < n ensures a[i].counter <= Newest(a).value { }
  }

  lemma TakeCodeRemembers(c: Config, s: Race, taken: Option<Acceptance>, confirms: bool)
    requires c.Valid()
    ensures var s' := TakeCode(c, s, taken, confirms);
      && s'.record.secret == s.record.secret && s'.copies == s.copies
      && LastCounter(c, s'.record) == if taken.Some? then Some(taken.value.counter) else LastCounter(c, s.record)
  {
    if taken.Some? { StoredCounter(taken.value.counter, c.step); }
  }

  /** A step keeps the secret, and a record it leaves enabled remembers what the step recorded. */
  lemma StepRemembers(c: Config, s: Race, step: Step)
    requires c.Valid() && !step.SetUp? && !s.record.disabled
    ensures var s', taken := Next(c, s, step), Taken(c, s, step);
      && s'.record.secret == s.record.secret
      && (forall tx :: tx in s'.copies ==> s'.copies[tx] == if tx in s.copies then s.copies[tx] else s.record)
      && (!s'.record.disabled ==>
            LastCounter(c, s'.record) == if taken.Some? then Some(taken.value.counter) else LastCounter(c, s.record))
  {
    match step
    case CommitConfirm(tx, code, at) =>
      if tx in s.copies { TakeCodeRemembers(c, s, ConfirmTakes(c, s.copies[tx], code, at), true); }
    case LockedLogIn(code, at) => TakeCodeRemembers(c, s, LogInTakes(c, s.record, code, at), false);
    case _ =>
  }

  lemma NewerKeepsOneSecret(c: Config, s: Race, step: Step)
    requires c.Valid() && OneSecret(c, s) && !s.record.disabled && !step.SetUp?
    requires Taken(c, s, step).Some? ==> Taken(c, s, step).value.secret == s.record.secret
    requires Increasing(Next(c, s, step).accepted)
    ensures OneSecret(c, Next(c, s, step))
  {
    StepRecords(c, s, step);
    StepRemembers(c, s, step);
    assert s.accepted + [] == s.accepted;
  }

  /** While the record is enabled and its secret stays, a step keeps the counters strictly increasing
      exactly when what it records is newer than what the stored record remembers. */
  lemma StepAscendsIff(c: Config, s: Race, step: Step)
    requires c.Valid() && OneSecret(c, s) && !s.record.disabled && !step.SetUp?
    ensures Increasing(Next(c, s, step).accepted) <==> Newer(c, s, step)
    ensures Newer(c, s, step) ==> OneSecret(c, Next(c, s, step))
  {
    StepRecords(c, s, step);
    var taken := Taken(c, s, step);
    if taken.Some? {
      assert taken.value.secret == s.record.secret;
      AppendAscendsIff(s.accepted, taken.value);
    } else {
      assert s.accepted + [] == s.accepted;
    }
    if Newer(c, s, step) { NewerKeepsOneSecret(c, s, step); }
  }

  /** The record is enabled before every step, and no step replaces its secret. */
  predicate Enabled(c: Config, s: Race, steps: seq<Step>)
    requires c.Valid()
    decreases |steps|
  {
    steps == [] || (!s.record.disabled && !steps[0].SetUp? && Enabled(c, Next(c, s, steps[0]), steps[1..]))
  }

  predicate AllNewer(c: Config, s: Race, steps: seq<Step>)
    requires c.Valid()
    decreases |steps|
  {
    steps == [] || (Newer(c, s, steps[0]) && AllNewer(c, Next(c, s, steps[0]), steps[1..]))
  }

  ghost predicate AscendThroughout(c: Config, s: Race, steps: seq<Step>)
    requires c.Valid()
    decreases |steps|
  {
    Increasing(s.accepted) && (steps == [] || AscendThroughout(c, Next(c, s, steps[0]), steps[1..]))
  }

  /** The same for whole runs. */
  lemma {:induction false} AscendThroughoutIff(c: Config, s: Race, steps: seq<Step>)
    requires c.Valid() && OneSecret(c, s) && Enabled(c, s, steps)
    ensures AscendThroughout(c, s, steps) <==> AllNewer(c, s, steps)
    decreases |steps|
  {
    if steps != [] {
      StepAscendsIff(c, s, steps[0]);
      if Newer(c, s, steps[0]) { AscendThroughoutIff(c, Next(c, s, steps[0]), steps[1..]); }
    }
  }

  /** A transaction ends when it commits, and a login confirms nothing. */
  lemma CommitsOnce(c: Config, s: Race, step: Step)
    requires c.Valid()
    ensures step.CommitConfirm? || step.CommitDisable? ==> step.tx !in Next(c, s, step).copies
    ensures step.LockedLogIn? ==> Next(c, s, step).record.confirmed == s.record.confirmed
  {
  }

  // ----- The failing runs -----

  /** Logins lock the record, so what they take is always newer. */
  lemma LoginIsNewer(c: Config, s: Race, code: string, at: nat)
    requires c.Valid()
    ensures Newer(c, s, LockedLogIn(code, at)) && Rechecked(c, s, LockedLogIn(code, at))
  {
    if Taken(c, s, LockedLogIn(code, at)).Some? {
      AcceptedCounter(CodesOf(c, s.record.secret), c.digits, code, at / c.step, LastCounter(c, s.record));
    }
  }

  /** One code can count twice: a disable that read the record before a login used the code accepts the
      same counter. */
  lemma LoginAndDisableShareACode(c: Config, s: Race, tx: nat, code: string, at: nat)
    requires c.Valid() && tx !in s.copies && LogInTakes(c, s.record, code, at).Some?
    ensures var a := LogInTakes(c, s.record, code, at).value;
      var s' := Next(c, Next(c, Next(c, s, Open(tx)), LockedLogIn(code, at)), CommitDisable(tx, code, false, at));
      s'.accepted == s.accepted + [a] + [a] && !Increasing(s'.accepted)
  {
    var a := LogInTakes(c, s.record, code, at).value;
    var s2 := Next(c, Next(c, s, Open(tx)), LockedLogIn(code, at));
    assert s2.accepted == s.accepted + [a] && s2.copies[tx] == s.record;
    var s' := Next(c, s2, CommitDisable(tx, code, false, at));
    assert s'.accepted == s.accepted + [a] + [a];
    assert s'.accepted[|s.accepted|] == s'.accepted[|s.accepted| + 1];
  }

  /** A secret can be switched on that nobody has proved to hold: a confirm that read the record before a
      second setup marks the new secret confirmed with a code of the old one. */
  lemma SetupIsConfirmedByOldCode(c: Config, s: Race, tx: nat, code: string, at: nat)
    requires c.Valid() && tx !in s.copies && !Active(s.record) && ConfirmTakes(c, s.record, code, at).Some?
    requires forall i :: 0 <= i < |s.accepted| ==> s.accepted[i].secret <= s.record.secret
    ensures var s' := Next(c, Next(c, Next(c, s, Open(tx)), SetUp), CommitConfirm(tx, code, at));
      && Active(s'.record)
      && forall i :: 0 <= i < |s'.accepted| ==> s'.accepted[i].secret != s'.record.secret
  {
    var s2 := Next(c, Next(c, s, Open(tx)), SetUp);
    assert s2.copies[tx] == s.record && s2.record == Record(true, s.record.secret + 1, false, false, None);
    var s' := Next(c, s2, CommitConfirm(tx, code, at));
    assert s'.accepted == s.accepted + [ConfirmTakes(c, s.record, code, at).value];
  }
}
