/**
 What quota ledger and video lifecycle guarantee over every interleaving of uploads, recoveries,
 cleanup passes and worker updates on one account, and exactly when the unlocked release of a late
 cleanup pass spoils it.
 */
module UploadRuns {
  import opened Common
  import opened UploadLedger

  lemma FreshIsInv(s: State)
    requires Fresh(s)
    ensures Inv(s) && InRange(s) && InStep(s)
  {
  }

  lemma UnfoldFour(s: State, a: Event, b: Event, c: Event, d: Event)
    ensures Run(s, [a, b, c, d]) == Apply(Apply(Apply(Apply(s, a), b), c), d)
  {
    var s1 := Apply(s, a);
    var s2 := Apply(s1, b);
    var s3 := Apply(s2, c);
    assert Run(s3, [d]) == Apply(s3, d);
    assert Run(s2, [c, d]) == Run(s3, [d]);
    assert Run(s1, [b, c, d]) == Run(s2, [c, d]);
    assert [a, b, c, d][1..] == [b, c, d];
  }

  /** The first two steps of a release. */
  function BeginAndRead(s: State, begin: Event): State
    requires Begins(begin)
  {
    Apply(Apply(s, begin), ReadNet(begin.tx))
  }

  /** A whole release: begin, read, commit, with nothing in between. */
  function Uninterrupted(s: State, begin: Event, now: int): State
    requires Begins(begin)
  {
    Apply(BeginAndRead(s, begin), FinishRelease(begin.tx, now))
  }

  /** A release that has read the current net. */
  function Reading(s: State, tx: nat, v: nat, purpose: Purpose): State {
    s.(releases := s.releases[tx := Releasing(v, purpose, Some(Net(s.ledger, v)))])
  }

  lemma LatePassStarts(s: State, tx: nat, v: nat)
    requires tx !in s.releases && v < |s.videos| && s.videos[v].status != PendingUpload
    ensures BeginAndRead(s, BeginCleanup(tx, v)) == Reading(s, tx, v, LatePass)
  {
    assert Apply(s, BeginCleanup(tx, v)) == Begin(s, tx, v, LatePass);
  }

  lemma CleanupStarts(s: State, tx: nat, v: nat)
    requires tx !in s.releases && v < |s.videos| && s.videos[v].status == PendingUpload && !Busy(s, v)
    ensures BeginAndRead(s, BeginCleanup(tx, v)) == Reading(s, tx, v, CleaningUp)
  {
    assert Apply(s, BeginCleanup(tx, v)) == Begin(s, tx, v, CleaningUp);
  }

  lemma DeleteStarts(s: State, tx: nat, v: nat)
    requires tx !in s.releases && v < |s.videos| && !Busy(s, v)
    requires s.videos[v].status == Failed || s.videos[v].status == PendingUpload
    ensures BeginAndRead(s, BeginDelete(tx, v)) == Reading(s, tx, v, Deleting)
  {
    assert Apply(s, BeginDelete(tx, v)) == Begin(s, tx, v, Deleting);
  }

  lemma CancelStarts(s: State, tx: nat, v: nat)
    requires tx !in s.releases && v < |s.videos| && s.videos[v].status == PendingUpload && !Busy(s, v)
    ensures BeginAndRead(s, BeginCancel(tx, v)) == Reading(s, tx, v, Cancelling)
  {
    assert Apply(s, BeginCancel(tx, v)) == Begin(s, tx, v, Cancelling);
  }

  lemma FinishIs(s: State, tx: nat, now: int)
    requires CanFinish(s, tx)
    ensures Apply(s, FinishRelease(tx, now)) == ApplyFinish(s, tx, now)
  {
  }

  lemma OthersKeepLedger(s: State, e: Event)
    requires !e.CommitUpload? && !e.FinishRelease?
    ensures Apply(s, e).ledger == s.ledger && |Apply(s, e).videos| == |s.videos|
  {
  }

  // ----- Net reservations -----

  /** Every video has at most one unit reserved, and never a negative number. */
  ghost predicate InRange(s: State) {
    forall v: nat :: 0 <= Net(s.ledger, v) <= 1
  }

  /** A release commits only if the net it read is still the stored one. */
  predicate Current(s: State, e: Event) {
    e.FinishRelease? && CanFinish(s, e.tx) ==>
      s.releases[e.tx].read.value == Net(s.ledger, s.releases[e.tx].video)
  }

  lemma FinishKeepsRangeIff(s: State, tx: nat, now: int)
    requires Inv(s) && InRange(s) && CanFinish(s, tx)
    ensures InRange(ApplyFinish(s, tx, now)) <==> s.releases[tx].read.value == Net(s.ledger, s.releases[tx].video)
  {
    FinishNets(s, tx, now);
    var r := s.releases[tx];
    assert ReleaseOk(s.videos, s.ledger, r);
    if r.read.value != Net(s.ledger, r.video) {
      assert Net(ApplyFinish(s, tx, now).ledger, r.video) == -1;
    }
  }

  /** A step keeps all nets at 0 or 1 exactly when it is not a release on an outdated read. */
  lemma StepKeepsRangeIff(s: State, e: Event)
    requires Inv(s) && InRange(s)
    ensures InRange(Apply(s, e)) <==> Current(s, e)
  {
    match e
    case CommitUpload(now) => forall w: nat { NetOfAppend(s.ledger, Usage(|s.videos|, 1, now), w); }
    case FinishRelease(tx, now) => if CanFinish(s, tx) { FinishKeepsRangeIff(s, tx, now); }
    case _ => OthersKeepLedger(s, e);
  }

  ghost predicate RangeThroughout(s: State, es: seq<Event>)
    decreases |es|
  {
    InRange(s) && (es == [] || RangeThroughout(Apply(s, es[0]), es[1..]))
  }

  predicate AllCurrent(s: State, es: seq<Event>)
    decreases |es|
  {
    es == [] || (Current(s, es[0]) && AllCurrent(Apply(s, es[0]), es[1..]))
  }

  /** All nets stay at 0 or 1 through a run exactly when every release commits on a current read. */
  lemma {:induction false} RangeThroughoutIff(s: State, es: seq<Event>)
    requires Inv(s) && InRange(s)
    ensures RangeThroughout(s, es) <==> AllCurrent(s, es)
    decreases |es|
  {
    if es != [] {
      StepKeepsInv(s, es[0]);
      StepKeepsRangeIff(s, es[0]);
      if Current(s, es[0]) { RangeThroughoutIff(Apply(s, es[0]), es[1..]); }
    }
  }

  /** Whatever runs concurrently, the ledger's sum since the period began never exceeds the plan and no
      video has more than one unit; nets also stay above -1 exactly when releases read what is stored. */
  lemma LedgerWithinPlan(s: State, es: seq<Event>)
    requires Fresh(s)
    ensures var s' := Run(s, es);
      && (s'.plan.maxVideos.Some? ==> PeriodSum(s'.ledger, s'.plan.periodStart) <= s'.plan.maxVideos.value)
      && forall v: nat :: Net(s'.ledger, v) <= 1
    ensures RangeThroughout(s, es) <==> AllCurrent(s, es)
  {
    FreshIsInv(s);
    RunKeepsInv(s, es);
    RangeThroughoutIff(s, es);
  }

  /** Nets of existing videos never rise. */
  lemma NetNeverRises(s: State, e: Event, v: nat)
    requires v < |s.videos|
    ensures v < |Apply(s, e).videos| && Net(Apply(s, e).ledger, v) <= Net(s.ledger, v)
  {
    match e
    case CommitUpload(now) => NetOfAppend(s.ledger, Usage(|s.videos|, 1, now), v);
    case FinishRelease(tx, now) =>
      if CanFinish(s, tx) {
        FinishIs(s, tx, now);
        FinishNets(s, tx, now);
      }
    case _ => OthersKeepLedger(s, e);
  }

  lemma {:induction false} ReleasedStaysReleased(s: State, es: seq<Event>, v: nat)
    requires v < |s.videos| && Net(s.ledger, v) <= 0
    ensures v < |Run(s, es).videos| && Net(Run(s, es).ledger, v) <= 0
    decreases |es|
  {
    if es != [] {
      NetNeverRises(s, es[0], v);
      ReleasedStaysReleased(Apply(s, es[0]), es[1..], v);
    }
  }

  /** Releasing is idempotent: once a release on a current read has committed, a release of the same
      video that reads at any later time finds nothing reserved and will write nothing. */
  lemma ReleaseIsIdempotent(s: State, tx: nat, now: int, es: seq<Event>, again: nat)
    requires Inv(s) && CanFinish(s, tx) && Current(s, FinishRelease(tx, now))
    requires var s1 := Run(Apply(s, FinishRelease(tx, now)), es);
      CanRead(s1, again) && s1.releases[again].video == s.releases[tx].video
    ensures var s1 := Run(Apply(s, FinishRelease(tx, now)), es);
      Apply(s1, ReadNet(again)).releases[again].read.value <= 0
  {
    var v := s.releases[tx].video;
    var s' := ApplyFinish(s, tx, now);
    FinishIs(s, tx, now);
    FinishNets(s, tx, now);
    FinishKeepsInv(s, tx, now);
    assert Net(s'.ledger, v) <= 0 && v < |s'.videos|;
    ReleasedStaysReleased(s', es, v);
  }

  /** Two releases that have both read one reserved unit take two units off. */
  lemma TwoReleasesTakeTwo(s: State, a: nat, b: nat, now: int)
    requires a != b && CanFinish(s, a) && CanFinish(s, b) && s.releases[a].video == s.releases[b].video
    requires s.releases[a].read == Some(1) && s.releases[b].read == Some(1)
    ensures var v := s.releases[a].video;
      Net(Apply(Apply(s, FinishRelease(a, now)), FinishRelease(b, now)).ledger, v) == Net(s.ledger, v) - 2
  {
    var s1 := ApplyFinish(s, a, now);
    FinishIs(s, a, now);
    FinishNets(s, a, now);
    assert s1.releases[b] == s.releases[b] && CanFinish(s1, b);
    FinishIs(s1, b, now);
    FinishNets(s1, b, now);
  }

  /** Without the lock releasing is not idempotent: two late passes over one video that read before
      either commits take two units off, and leave the video at -1. */
  lemma TwoLatePassesGoNegative(s: State, v: nat, a: nat, b: nat, now: int)
    requires InStep(s) && HasJob(s, v) && s.videos[v].status != PendingUpload
    requires a != b && a !in s.releases && b !in s.releases
    ensures var both := BeginAndRead(BeginAndRead(s, BeginCleanup(a, v)), BeginCleanup(b, v));
      Net(Apply(Apply(both, FinishRelease(a, now)), FinishRelease(b, now)).ledger, v) == -1
  {
    LatePassStarts(s, a, v);
    var s1 := Reading(s, a, v, LatePass);
    LatePassStarts(s1, b, v);
    TwoReleasesTakeTwo(Reading(s1, b, v, LatePass), a, b, now);
  }

  /** So do a late pass and a delete of the failed video, although the delete holds the row lock. */
  lemma LatePassAndDeleteGoNegative(s: State, v: nat, a: nat, b: nat, now: int)
    requires InStep(s) && HasJob(s, v) && s.videos[v].status == Failed && !Busy(s, v)
    requires a != b && a !in s.releases && b !in s.releases
    ensures var both := BeginAndRead(BeginAndRead(s, BeginDelete(a, v)), BeginCleanup(b, v));
      Net(Apply(Apply(both, FinishRelease(a, now)), FinishRelease(b, now)).ledger, v) == -1
  {
    DeleteStarts(s, a, v);
    var s1 := Reading(s, a, v, Deleting);
    LatePassStarts(s1, b, v);
    TwoReleasesTakeTwo(Reading(s1, b, v, LatePass), a, b, now);
  }

  // ----- Ledger and lifecycle agree -----

  /** What a transaction holding the row lock has read is still the stored net. */
  ghost predicate LockedReadsCurrent(s: State) {
    forall tx :: tx in s.releases && Locks(s.releases[tx]) && s.releases[tx].read.Some? ==>
      s.releases[tx].read.value == Net(s.ledger, s.releases[tx].video)
  }

  /** Ledger and lifecycle agree, and the releases under way will not change that. */
  ghost predicate InStep(s: State) {
    Agree(s) && LockedReadsCurrent(s)
  }

  /** No late pass commits after reading something reserved. */
  predicate Harmless(s: State, e: Event) {
    e.FinishRelease? && CanFinish(s, e.tx) && s.releases[e.tx].purpose == LatePass ==>
      s.releases[e.tx].read.value <= 0
  }

  lemma FinishAgreesIff(s: State, tx: nat, now: int)
    requires Inv(s) && InStep(s) && CanFinish(s, tx)
    ensures Agree(ApplyFinish(s, tx, now)) <==> Harmless(s, FinishRelease(tx, now))
    ensures Harmless(s, FinishRelease(tx, now)) ==> LockedReadsCurrent(ApplyFinish(s, tx, now))
  {
    var r := s.releases[tx];
    var s' := ApplyFinish(s, tx, now);
    FinishNets(s, tx, now);
    assert ReleaseOk(s.videos, s.ledger, r) && RowOk(s.videos[r.video]);
    if r.purpose == LatePass && r.read.value > 0 {
      assert Net(s'.ledger, r.video) == Net(s.ledger, r.video) - 1 && s'.videos[r.video] == s.videos[r.video];
    } else {
      assert Locks(r) ==> !Holds(Left(r.purpose, s.videos[r.video])) && Net(s'.ledger, r.video) == 0;
    }
  }

  /** Handlers and worker steps that touch neither the ledger nor what a video holds. */
  lemma OtherStepKeepsHolds(s: State, e: Event, v: nat)
    requires v < |s.videos| && RowOk(s.videos[v]) && !e.CommitUpload? && !e.FinishRelease?
    ensures v < |Apply(s, e).videos| && Holds(Apply(s, e).videos[v]) == Holds(s.videos[v])
  {
  }

  lemma OtherStepKeepsReads(s: State, e: Event)
    requires LockedReadsCurrent(s) && !e.CommitUpload? && !e.FinishRelease?
    ensures LockedReadsCurrent(Apply(s, e))
  {
    OthersKeepLedger(s, e);
  }

  lemma OthersKeepInStep(s: State, e: Event)
    requires JobsOk(s.videos) && InStep(s) && !e.CommitUpload? && !e.FinishRelease?
    ensures InStep(Apply(s, e))
  {
    OthersKeepLedger(s, e);
    OtherStepKeepsReads(s, e);
    forall v: nat | v < |s.videos| ensures Holds(Apply(s, e).videos[v]) == Holds(s.videos[v]) {
      OtherStepKeepsHolds(s, e, v);
    }
  }

  lemma CommitKeepsInStep(s: State, now: int)
    requires Inv(s) && InStep(s)
    ensures InStep(Apply(s, CommitUpload(now)))
  {
    var s' := Apply(s, CommitUpload(now));
    forall w: nat { NetOfAppend(s.ledger, Usage(|s.videos|, 1, now), w); }
    forall tx | tx in s'.releases && Locks(s'.releases[tx]) && s'.releases[tx].read.Some?
      ensures s'.releases[tx].read.value == Net(s'.ledger, s'.releases[tx].video)
    {
      assert ReleaseOk(s.videos, s.ledger, s.releases[tx]);
    }
  }

  /** A step keeps the agreement exactly when it is not a late pass giving back what it found reserved. */
  lemma StepAgreesIff(s: State, e: Event)
    requires Inv(s) && InStep(s)
    ensures Agree(Apply(s, e)) <==> Harmless(s, e)
    ensures Harmless(s, e) ==> LockedReadsCurrent(Apply(s, e))
  {
    match e
    case CommitUpload(now) => CommitKeepsInStep(s, now);
    case FinishRelease(tx, now) => if CanFinish(s, tx) { FinishAgreesIff(s, tx, now); }
    case _ => OthersKeepInStep(s, e);
  }

  ghost predicate AgreeThroughout(s: State, es: seq<Event>)
    decreases |es|
  {
    Agree(s) && (es == [] || AgreeThroughout(Apply(s, es[0]), es[1..]))
  }

  predicate AllHarmless(s: State, es: seq<Event>)
    decreases |es|
  {
    es == [] || (Harmless(s, es[0]) && AllHarmless(Apply(s, es[0]), es[1..]))
  }

  /** Through a whole run a video holds exactly one unit while it is not failed or has a job, and none
      otherwise, exactly when no late pass commits after reading something reserved. */
  lemma {:induction false} AgreeThroughoutIff(s: State, es: seq<Event>)
    requires Inv(s) && InStep(s)
    ensures AgreeThroughout(s, es) <==> AllHarmless(s, es)
    decreases |es|
  {
    if es != [] {
      StepKeepsInv(s, es[0]);
      StepAgreesIff(s, es[0]);
      if Harmless(s, es[0]) { AgreeThroughoutIff(Apply(s, es[0]), es[1..]); }
    }
  }

  /** What a late pass reads: one unit if the video has a job at that moment, and none if not. */
  lemma LatePassReads(s: State, tx: nat)
    requires Inv(s) && InStep(s) && CanRead(s, tx) && s.releases[tx].purpose == LatePass
    ensures Apply(s, ReadNet(tx)).releases[tx].read == Some(if HasJob(s, s.releases[tx].video) then 1 else 0)
  {
    assert ReleaseOk(s.videos, s.ledger, s.releases[tx]);
    assert RowOk(s.videos[s.releases[tx].video]);
  }

  /** A late pass reads only videos that have no job. */
  predicate Tidy(s: State, e: Event) {
    e.ReadNet? && CanRead(s, e.tx) && s.releases[e.tx].purpose == LatePass ==> !HasJob(s, s.releases[e.tx].video)
  }

  predicate AllTidy(s: State, es: seq<Event>)
    decreases |es|
  {
    es == [] || (Tidy(s, es[0]) && AllTidy(Apply(s, es[0]), es[1..]))
  }

  ghost predicate LateReadsEmpty(s: State) {
    forall tx :: tx in s.releases && s.releases[tx].purpose == LatePass && s.releases[tx].read.Some? ==>
      s.releases[tx].read.value <= 0
  }

  lemma StepKeepsLateReads(s: State, e: Event)
    requires Inv(s) && InStep(s) && LateReadsEmpty(s) && Tidy(s, e)
    ensures LateReadsEmpty(Apply(s, e))
  {
    if e.ReadNet? && CanRead(s, e.tx) && s.releases[e.tx].purpose == LatePass { LatePassReads(s, e.tx); }
  }

  /** If late passes find only videos without a job, ledger and lifecycle agree throughout, and nets stay
      at 0 or 1. */
  lemma {:induction false} TidyRunsAgree(s: State, es: seq<Event>)
    requires Inv(s) && InStep(s) && LateReadsEmpty(s) && AllTidy(s, es)
    ensures AgreeThroughout(s, es) && RangeThroughout(s, es)
    decreases |es|
  {
    assert InRange(s);
    if es != [] {
      StepKeepsInv(s, es[0]);
      StepAgreesIff(s, es[0]);
      StepKeepsLateReads(s, es[0]);
      TidyRunsAgree(Apply(s, es[0]), es[1..]);
    }
  }

  /** A pass that runs without interruption keeps the agreement exactly when the video has no job: its
      update is conditional on the status, but the release that follows is not. */
  lemma CleanupKeepsAgreementIff(s: State, tx: nat, v: nat, now: int)
    requires Inv(s) && InStep(s) && v < |s.videos| && tx !in s.releases && !Busy(s, v)
    ensures Agree(Uninterrupted(s, BeginCleanup(tx, v), now)) <==> !HasJob(s, v)
  {
    assert RowOk(s.videos[v]);
    var s1 := Apply(s, BeginCleanup(tx, v));
    StepKeepsInv(s, BeginCleanup(tx, v));
    StepAgreesIff(s, BeginCleanup(tx, v));
    var s2 := Apply(s1, ReadNet(tx));
    StepKeepsInv(s1, ReadNet(tx));
    StepAgreesIff(s1, ReadNet(tx));
    if s1.releases[tx].purpose == LatePass { LatePassReads(s1, tx); }
    StepAgreesIff(s2, FinishRelease(tx, now));
  }

  lemma CompleteQueues(s: State, v: nat, jobId: nat)
    requires v < |s.videos| && s.videos[v].status == PendingUpload && !Busy(s, v)
    ensures Apply(s, CompleteUpload(v, true, jobId))
         == SetVideo(s, v, Video(s.videos[v].size, Queued, Some(Job(jobId, JobPending, None))))
  {
  }

  /** A pass that saw the video pending and reaches it after it was completed leaves a queued video that
      holds no slot. */
  lemma LateCleanupFreesAQueuedVideo(s: State, v: nat, jobId: nat, tx: nat, now: int)
    requires Inv(s) && InStep(s) && v < |s.videos| && s.videos[v].status == PendingUpload && !Busy(s, v)
    requires tx !in s.releases
    ensures var s' := Uninterrupted(Apply(s, CompleteUpload(v, true, jobId)), BeginCleanup(tx, v), now);
      s'.videos[v].status == Queued && Net(s'.ledger, v) == 0
  {
    var s1 := Apply(s, CompleteUpload(v, true, jobId));
    CompleteQueues(s, v, jobId);
    assert Net(s.ledger, v) == 1;
    LatePassStarts(s1, tx, v);
    FinishIs(Reading(s1, tx, v, LatePass), tx, now);
    FinishNets(Reading(s1, tx, v, LatePass), tx, now);
  }

  /** The period's sum has no lower bound of 0: cancelling an upload always takes one off, so an upload
      made before the period and cancelled within it drives an untouched period to -1. The reported
      usage stays at 0. */
  lemma CancelLowersTheSum(s: State, v: nat, tx: nat, now: int)
    requires Inv(s) && InStep(s) && v < |s.videos| && s.videos[v].status == PendingUpload && !Busy(s, v)
    requires tx !in s.releases && now >= s.plan.periodStart
    ensures var s' := Uninterrupted(s, BeginCancel(tx, v), now);
      && PeriodSum(s'.ledger, s.plan.periodStart) == PeriodSum(s.ledger, s.plan.periodStart) - 1
      && s'.videos[v].status == Failed && Net(s'.ledger, v) == 0
      && (PeriodSum(s.ledger, s.plan.periodStart) <= 1 ==> VideosUsed(s') == 0)
  {
    assert Net(s.ledger, v) == 1;
    CancelStarts(s, tx, v);
    FinishIs(Reading(s, tx, v, Cancelling), tx, now);
    FinishNets(Reading(s, tx, v, Cancelling), tx, now);
    PeriodSumOfAppend(s.ledger, Usage(v, -1, now), s.plan.periodStart);
  }

  // ----- Jobs -----

  /** A video's job, once it exists, is the same row until the video is deleted; a video that failed
      without a job stays failed without one. */
  ghost predicate RowKept(r: Video, r': Video) {
    && (r.status == Gone ==> r' == r)
    && (r.job.Some? ==> r'.status == Gone || (r'.job.Some? && r'.job.value.id == r.job.value.id))
    && (r.status == Failed && r.job.None? ==> r' == r || r'.status == Gone)
  }

  lemma FinishKeepsRows(s: State, tx: nat, now: int, v: nat)
    requires Inv(s) && v < |s.videos| && CanFinish(s, tx)
    ensures RowKept(s.videos[v], ApplyFinish(s, tx, now).videos[v])
  {
    assert ReleaseOk(s.videos, s.ledger, s.releases[tx]);
  }

  lemma OthersKeepRows(s: State, e: Event, v: nat)
    requires v < |s.videos| && RowOk(s.videos[v]) && !e.FinishRelease?
    ensures v < |Apply(s, e).videos| && RowKept(s.videos[v], Apply(s, e).videos[v])
  {
  }

  lemma StepKeepsRows(s: State, e: Event, v: nat)
    requires Inv(s) && v < |s.videos|
    ensures v < |Apply(s, e).videos| && RowKept(s.videos[v], Apply(s, e).videos[v])
  {
    assert RowOk(s.videos[v]);
    if e.FinishRelease? {
      if CanFinish(s, e.tx) { FinishKeepsRows(s, e.tx, e.now, v); }
    } else {
      OthersKeepRows(s, e, v);
    }
  }

  lemma {:induction false} RunKeepsRows(s: State, es: seq<Event>, v: nat)
    requires Inv(s) && v < |s.videos|
    ensures v < |Run(s, es).videos| && RowKept(s.videos[v], Run(s, es).videos[v])
    decreases |es|
  {
    if es != [] {
      StepKeepsInv(s, es[0]);
      StepKeepsRows(s, es[0], v);
      RunKeepsRows(Apply(s, es[0]), es[1..], v);
    }
  }

  /** The "inconsistent state" answer is unreachable. */
  lemma NeverInconsistent(s: State, es: seq<Event>, v: nat, objectOk: bool, jobId: nat)
    requires Fresh(s)
    ensures CompleteReply(Run(s, es), v, objectOk, jobId) != Inconsistent
  {
    FreshIsInv(s);
    RunKeepsInv(s, es);
  }

  /** Completing again answers with the first completion's job, or says the video failed or is gone. */
  lemma CompletionRepeats(s: State, v: nat, jobId: nat, es: seq<Event>, objectOk: bool, otherId: nat)
    requires Inv(s) && v < |s.videos| && s.videos[v].status == PendingUpload && !Busy(s, v)
    ensures var again := CompleteReply(Run(Apply(s, CompleteUpload(v, true, jobId)), es), v, objectOk, otherId);
      again == JobIs(jobId) || again == Conflict || again == NotFound
  {
    var s1 := Apply(s, CompleteUpload(v, true, jobId));
    StepKeepsInv(s, CompleteUpload(v, true, jobId));
    RunKeepsInv(s1, es);
    RunKeepsRows(s1, es, v);
  }

  /** A cancelled upload can never be requeued: whatever happens, a requeue changes nothing. */
  lemma CancelledIsNeverRequeued(s: State, tx: nat, now: int, es: seq<Event>, rawOk: bool)
    requires Inv(s) && CanFinish(s, tx) && s.releases[tx].purpose == Cancelling
    ensures var s' := Run(Apply(s, FinishRelease(tx, now)), es);
      var v := s.releases[tx].video;
      && Apply(s', Requeue(v, rawOk)) == s'
      && v < |s'.videos| && (s'.videos[v].status == Failed || s'.videos[v].status == Gone)
  {
    var s1 := ApplyFinish(s, tx, now);
    var v := s.releases[tx].video;
    FinishIs(s, tx, now);
    FinishKeepsInv(s, tx, now);
    assert ReleaseOk(s.videos, s.ledger, s.releases[tx]) && RowOk(s.videos[v]);
    assert s1.videos[v].status == Failed && s1.videos[v].job.None?;
    RunKeepsInv(s1, es);
    RunKeepsRows(s1, es, v);
  }

  // ----- Storage -----

  /** Reserved bytes stay within the plan plus what was requeued since the last passed storage check. */
  lemma StorageWithinPlanPlusRequeued(s: State, es: seq<Event>)
    requires Fresh(s) && s.plan.maxBytes.Some?
    ensures Run(s, es).plan == s.plan
    ensures BytesReserved(Run(s, es).videos) <= s.plan.maxBytes.value + Run(s, es).requeuedBytes
  {
    FreshIsInv(s);
    RunKeepsInv(s, es);
    PlanIsFixed(s, es);
  }

  lemma {:induction false} PlanIsFixed(s: State, es: seq<Event>)
    ensures Run(s, es).plan == s.plan
    ensures (forall i :: 0 <= i < |es| ==> !es[i].Requeue?) ==> Run(s, es).requeuedBytes <= s.requeuedBytes
    decreases |es|
  {
    if es != [] { PlanIsFixed(Apply(s, es[0]), es[1..]); }
  }

  /** Without requeues the plan's storage ceiling is exact. */
  lemma StorageWithinPlan(s: State, es: seq<Event>)
    requires Fresh(s) && s.plan.maxBytes.Some?
    requires forall i :: 0 <= i < |es| ==> !es[i].Requeue?
    ensures BytesReserved(Run(s, es).videos) <= s.plan.maxBytes.value
  {
    StorageWithinPlanPlusRequeued(s, es);
    PlanIsFixed(s, es);
  }

  /** A requeue that takes effect stays within the ceiling exactly when the storage check it does not
      make would have passed. */
  lemma RequeueWithinPlanIff(s: State, v: nat)
    requires Inv(s) && s.plan.maxBytes.Some? && Apply(s, Requeue(v, true)) != s
    ensures BytesReserved(Apply(s, Requeue(v, true)).videos) <= s.plan.maxBytes.value
       <==> BytesAllowed(s, s.videos[v].size)
  {
    BytesOfUpdate(s.videos, v, Apply(s, Requeue(v, true)).videos[v]);
  }
}
