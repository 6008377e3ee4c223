/**
 Lock files created with O_CREAT | O_EXCL and broken when they look stale. Creating, looking at the
 age, unlinking and releasing are separate system calls, so they are separate steps here and those of
 different processes interleave.
 */
module LockFiles {
  import opened Common

  /** `inode` tells one lock file from the next at the same path. */
  datatype LockFile = LockFile(inode: nat, owner: nat, mtime: int)

  /** Where a process is in the acquire loop, which makes two attempts. */
  datatype Phase = Ready(attempt: nat) | Blocked(attempt: nat) | Breaking(attempt: nat) | Holding(inode: nat) | Out

  datatype State = State(staleAfter: nat, now: int, file: Option<LockFile>, phases: map<nat, Phase>, nextInode: nat)

  datatype Step =
    | Tick(seconds: nat)
    | Begin(p: nat)
    | Create(p: nat)
    | Stat(p: nat)
    | Unlink(p: nat)
    | Release(p: nat)
    | Die(p: nat)       // the holder's process ends without releasing

  predicate LooksStale(s: State) {
    s.file.Some? && s.now - s.file.value.mtime > s.staleAfter
  }

  function SetPhase(s: State, p: nat, phase: Phase): State {
    s.(phases := s.phases[p := phase])
  }

  function Next(s: State, step: Step): State {
    match step
    case Tick(seconds) => s.(now := s.now + seconds)
    case Begin(p) => if p in s.phases && !s.phases[p].Out? then s else SetPhase(s, p, Ready(0))
    case Create(p) =>
      if p !in s.phases || !s.phases[p].Ready? then s
      else if s.file.None?
      then SetPhase(s, p, Holding(s.nextInode)).(
        file := Some(LockFile(s.nextInode, p, s.now)), nextInode := s.nextInode + 1)
      else SetPhase(s, p, Blocked(s.phases[p].attempt))
    case Stat(p) =>
      if p !in s.phases || !s.phases[p].Blocked? then s
      else if LooksStale(s) then SetPhase(s, p, Breaking(s.phases[p].attempt))
      else SetPhase(s, p, Out)
    case Unlink(p) =>
      if p !in s.phases || !s.phases[p].Breaking? then s
      else
        var k := s.phases[p].attempt + 1;
        SetPhase(s, p, if k < 2 then Ready(k) else Out).(file := None)
    case Release(p) =>
      if p !in s.phases || !s.phases[p].Holding? then s else SetPhase(s, p, Out).(file := None)
    case Die(p) =>
      if p !in s.phases || !s.phases[p].Holding? then s else SetPhase(s, p, Out)
  }

  function Run(s: State, steps: seq<Step>): State
    decreases |steps|
  {
    if steps == [] then s else Run(Next(s, steps[0]), steps[1..])
  }

  predicate Holds(s: State, p: nat) { p in s.phases && s.phases[p].Holding? }

  /** Whoever holds the lock owns the file that is there. */
  ghost predicate Exclusive(s: State) {
    forall p :: Holds(s, p) ==> s.file.Some? && s.file.value.owner == p && s.file.value.inode == s.phases[p].inode
  }

  /** An unlink, decided on an earlier look, that hits the file of a live holder. */
  predicate BreaksLive(s: State, step: Step) {
    && step.Unlink? && step.p in s.phases && s.phases[step.p].Breaking?
    && s.file.Some? && Holds(s, s.file.value.owner)
  }

  /** A step keeps the lock exclusive exactly when it does not unlink the file of a live holder. */
  lemma StepKeepsExclusiveIff(s: State, step: Step)
    requires Exclusive(s)
    ensures Exclusive(Next(s, step)) <==> !BreaksLive(s, step)
  {
    if BreaksLive(s, step) {
      assert Holds(Next(s, step), s.file.value.owner);
    }
  }

  /** Under exclusion a release removes the releasing process's own file and nothing else. */
  lemma ReleaseRemovesOwnFile(s: State, p: nat)
    requires Exclusive(s) && Holds(s, p)
    ensures s.file == Some(LockFile(s.phases[p].inode, p, s.file.value.mtime))
    ensures Next(s, Release(p)).file.None? && forall q :: !Holds(Next(s, Release(p)), q)
  {
  }

  /** What each call does. Creating succeeds exactly on a free path, and the new file is the caller's and
      dated now; a blocked process goes on to break the lock exactly if the file is older than the stale age
      and gives up otherwise; breaking frees the path and leaves one more attempt, or none after the second. */
  lemma CallsDo(s: State, p: nat)
    requires p in s.phases
    ensures var s' := Next(s, Create(p));
      s.phases[p].Ready? ==>
        if s.file.None?
        then s'.file == Some(LockFile(s.nextInode, p, s.now)) && s'.phases[p] == Holding(s.nextInode)
             && s'.nextInode == s.nextInode + 1
        else s'.file == s.file && s'.phases[p] == Blocked(s.phases[p].attempt)
    ensures var s' := Next(s, Stat(p));
      s.phases[p].Blocked? ==>
        && s'.file == s.file
        && s'.phases[p] == if s.file.Some? && s.now - s.file.value.mtime > s.staleAfter
                           then Breaking(s.phases[p].attempt) else Out
    ensures var s' := Next(s, Unlink(p));
      s.phases[p].Breaking? ==>
        s'.file.None? && s'.phases[p] == if s.phases[p].attempt == 0 then Ready(1)
                                         else if s.phases[p].attempt >= 1 then Out else s'.phases[p]
    ensures s.phases[p].Holding? ==> Next(s, Die(p)) == s.(phases := s.phases[p := Out])
    ensures s.phases[p].Out? ==> Next(s, Begin(p)).phases[p] == Ready(0)
    ensures forall seconds :: Next(s, Tick(seconds)) == s.(now := s.now + seconds)
  {
  }

  /** A call out of turn does nothing. */
  lemma OutOfTurn(s: State, step: Step)
    requires !step.Tick? && (step.p in s.phases || !step.Begin?)
    requires step.p in s.phases ==>
      match step
      case Begin(p) => !s.phases[p].Out?
      case Create(p) => !s.phases[p].Ready?
      case Stat(p) => !s.phases[p].Blocked?
      case Unlink(p) => !s.phases[p].Breaking?
      case _ => !s.phases[step.p].Holding?
    ensures Next(s, step) == s
  {
  }

  /** The acquire loop without interruption ends with the lock exactly if there is no file or one older
      than the stale age, and otherwise leaves the file alone and gives up. */
  lemma UninterruptedLoop(s: State, p: nat)
    requires p in s.phases && s.phases[p] == Ready(0)
    ensures var s' := Next(Next(Next(Next(s, Create(p)), Stat(p)), Unlink(p)), Create(p));
      if Obtainable(s.file, s.staleAfter, s.now)
      then s'.file == Some(LockFile(s.nextInode, p, s.now)) && s'.phases[p] == Holding(s.nextInode)
      else s'.file == s.file && s'.phases[p] == Out
  {
  }

  /** A call by another process does nothing to this one. */
  lemma CallsKeepOthers(s: State, step: Step, q: nat)
    requires !step.Tick? && step.p != q
    ensures (q in Next(s, step).phases <==> q in s.phases) && (q in s.phases ==> Next(s, step).phases[q] == s.phases[q])
    ensures Next(s, step).now == s.now && Next(s, step).staleAfter == s.staleAfter
  {
  }

  // ----- When no file outlives its stale age -----

  ghost predicate Fresh(s: State) {
    !LooksStale(s)
  }

  ghost predicate FreshThroughout(s: State, steps: seq<Step>)
    decreases |steps|
  {
    Fresh(s) && (steps == [] || FreshThroughout(Next(s, steps[0]), steps[1..]))
  }

  ghost predicate NobodyBreaks(s: State) {
    forall p :: p in s.phases ==> !s.phases[p].Breaking?
  }

  lemma {:induction false} FreshRunsAreExclusive(s: State, steps: seq<Step>)
    requires Exclusive(s) && NobodyBreaks(s) && FreshThroughout(s, steps)
    ensures Exclusive(Run(s, steps)) && NobodyBreaks(Run(s, steps))
    decreases |steps|
  {
    if steps != [] {
      StepKeepsExclusiveIff(s, steps[0]);
      FreshRunsAreExclusive(Next(s, steps[0]), steps[1..]);
    }
  }

  predicate Initial(s: State) { s.file.None? && s.phases == map[] }

  /** If at no moment of the run a lock file is older than its stale age, then at every moment at most
      one process holds the lock and its file is the one on disk. */
  lemma MutualExclusion(s: State, steps: seq<Step>)
    requires Initial(s) && FreshThroughout(s, steps)
    ensures Exclusive(Run(s, steps))
    ensures forall p, q :: Holds(Run(s, steps), p) && Holds(Run(s, steps), q) ==> p == q
  {
    FreshRunsAreExclusive(s, steps);
  }

  /** The hypothesis is about every file, not only about files in use: once some file looks stale, even
      one left behind by a dead process, two processes that both look before either unlinks can end up
      both holding the lock. */
  lemma StaleFileCanAdmitTwo(s: State, p: nat, q: nat)
    requires p != q && LooksStale(s)
    requires p in s.phases && q in s.phases && s.phases[p] == Ready(0) && s.phases[q] == Ready(0)
    ensures var s' := Run(s, [Create(p), Create(q)]
                             + ([Stat(p), Stat(q)] + ([Unlink(p), Create(p)] + ([Unlink(q), Create(q)] + []))));
      Holds(s', p) && Holds(s', q) && !Exclusive(s')
  {
    var s2 := Next(Next(s, Create(p)), Create(q));
    var s4 := Next(Next(s2, Stat(p)), Stat(q));
    var s6 := Next(Next(s4, Unlink(p)), Create(p));
    var s8 := Next(Next(s6, Unlink(q)), Create(q));
    assert s4.phases[p] == Breaking(0) && s4.phases[q] == Breaking(0);
    assert Holds(s6, p) && s6.phases[q] == Breaking(0);
    assert Holds(s8, p) && Holds(s8, q);
    TwoSteps(s, Create(p), Create(q), [Stat(p), Stat(q)] + ([Unlink(p), Create(p)] + ([Unlink(q), Create(q)] + [])));
    TwoSteps(s2, Stat(p), Stat(q), [Unlink(p), Create(p)] + ([Unlink(q), Create(q)] + []));
    TwoSteps(s4, Unlink(p), Create(p), [Unlink(q), Create(q)] + []);
    TwoSteps(s6, Unlink(q), Create(q), []);
  }

  // ----- Exactly when two processes can hold the lock -----

  predicate TickFree(steps: seq<Step>) {
    forall i :: 0 <= i < |steps| ==> !steps[i].Tick?
  }

  ghost predicate TwoHold(s: State) {
    exists p, q :: p != q && Holds(s, p) && Holds(s, q)
  }

  /** Before the clock moves, no step makes a file look stale. */
  lemma {:induction false} TickFreeStaysFresh(s: State, steps: seq<Step>)
    requires Fresh(s) && TickFree(steps)
    ensures FreshThroughout(s, steps)
    decreases |steps|
  {
    if steps != [] { TickFreeStaysFresh(Next(s, steps[0]), steps[1..]); }
  }

  /** When two processes are about to try for the lock, they can end up both holding it before the clock
      moves on exactly when the file that is there looks stale. */
  lemma TwoCanHoldIff(s: State, p: nat, q: nat)
    requires Exclusive(s) && NobodyBreaks(s)
    requires p != q && p in s.phases && q in s.phases && s.phases[p] == Ready(0) && s.phases[q] == Ready(0)
    ensures LooksStale(s) <==> exists steps :: TickFree(steps) && TwoHold(Run(s, steps))
  {
    if LooksStale(s) {
      StaleFileCanAdmitTwo(s, p, q);
      var steps := [Create(p), Create(q)]
                   + ([Stat(p), Stat(q)] + ([Unlink(p), Create(p)] + ([Unlink(q), Create(q)] + [])));
      assert TickFree(steps) && TwoHold(Run(s, steps));
    } else {
      forall steps | TickFree(steps) ensures !TwoHold(Run(s, steps)) {
        TickFreeStaysFresh(s, steps);
        FreshRunsAreExclusive(s, steps);
      }
    }
  }

  lemma TwoSteps(s: State, a: Step, b: Step, rest: seq<Step>)
    ensures Run(s, [a, b] + rest) == Run(Next(Next(s, a), b), rest)
  {
    assert ([a, b] + rest)[1..] == [b] + rest;
    assert ([b] + rest)[1..] == rest;
  }

  // ----- Waiting for the machine lock -----

  function RetryCountdown(backoff: nat): nat { Max(5, backoff) }

  function RetryLimit(timeout: nat, backoff: nat): nat {
    Max(1, (timeout + 60 + RetryCountdown(backoff) - 1) / RetryCountdown(backoff))
  }

  /** A task that finds the machine busy keeps retrying for at least the lock's stale age, and no longer
      than that takes. */
  lemma RetriesOutlastStaleAge(timeout: nat, backoff: nat)
    ensures RetryCountdown(backoff) == if backoff < 5 then 5 else backoff
    ensures RetryLimit(timeout, backoff) * RetryCountdown(backoff) >= timeout + 60
    ensures RetryLimit(timeout, backoff) >= 1
    ensures (RetryLimit(timeout, backoff) - 1) * RetryCountdown(backoff) < timeout + 60
  {
    var c := RetryCountdown(backoff);
    var x := timeout + 60 + c - 1;
    assert x == (x / c) * c + x % c;
    assert RetryLimit(timeout, backoff) >= x / c;
    MultiplyMonotone(x / c, RetryLimit(timeout, backoff), c);
  }

  lemma MultiplyMonotone(a: nat, b: nat, c: nat)
    requires a <= b
    ensures a * c <= b * c
  {
  }

  // ----- The calls, run without interruption -----

  predicate Obtainable(file: Option<LockFile>, staleAfter: nat, now: int) {
    file.None? || now - file.value.mtime > staleAfter
  }

  class LockPath {
    var file: Option<LockFile>
    var nextInode: nat

    constructor ()
      ensures file.None?
    {
      file, nextInode := None, 0;
    }

    /** Two attempts: create, or break a stale file and try again. Undisturbed, it succeeds exactly when
        there is no file or a stale one, and otherwise leaves the file alone. */
    method Acquire(owner: nat, staleAfter: nat, now: int) returns (ok: bool)
      modifies this
      ensures ok == (old(file).None? || now > old(file).value.mtime + staleAfter)
      ensures ok ==> file.Some? && file.value.owner == owner && file.value.mtime == now
      ensures !ok ==> file == old(file)
    {
      ok := false;
      var attempt := 0;
      while attempt < 2 && !ok
        invariant attempt <= 2
        invariant ok ==> file.Some? && file.value.owner == owner && file.value.mtime == now
        invariant ok ==> old(file).None? || now - old(file).value.mtime > staleAfter
        invariant !ok ==> attempt < 2
        invariant !ok && attempt == 0 ==> file == old(file)
        invariant !ok && attempt == 1 ==> file.None? && old(file).Some? && now - old(file).value.mtime > staleAfter
      {
        if file.None? {
          file := Some(LockFile(nextInode, owner, now));
          nextInode := nextInode + 1;
          ok := true;
        } else if now - file.value.mtime > staleAfter {
          file := None;
        } else {
          return;
        }
        attempt := attempt + 1;
      }
    }

    method ReleaseLock()
      modifies this
      ensures file.None?
    {
      file := None;
    }
  }

  datatype Rendering = Rendered | RenderFailed | MachineBusy | VideoBusy

  /** Rendering takes the machine lock, then the video's lock, and gives back what it took however it
      ends: after a success, after a failure, and when the second lock is busy. */
  method RenderUnderLocks(machine: LockPath, video: LockPath, worker: nat, timeout: nat, now: int, renderOk: bool)
    returns (outcome: Rendering)
    requires machine != video
    modifies machine, video
    ensures outcome == if !Obtainable(old(machine.file), timeout + 60, now) then MachineBusy
                       else if !Obtainable(old(video.file), timeout + 60, now) then VideoBusy
                       else if renderOk then Rendered else RenderFailed
    ensures machine.file == if outcome.MachineBusy? then old(machine.file) else None
    ensures video.file == if outcome.MachineBusy? || outcome.VideoBusy? then old(video.file) else None
  {
    var machineOk := machine.Acquire(worker, timeout + 60, now);
    if !machineOk { return MachineBusy; }
    var videoOk := video.Acquire(worker, timeout + 60, now);
    if videoOk {
      outcome := if renderOk then Rendered else RenderFailed;
      video.ReleaseLock();
    } else {
      outcome := VideoBusy;
    }
    machine.ReleaseLock();
  }
}
