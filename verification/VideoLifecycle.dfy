/**
 The upload account read from outside: which uploads are let in, which bytes count, and the complete
 table of what may move a video, its job and the transactions that give slots back.
 */
module VideoLifecycle {
  import opened Common
  import opened UploadLedger
  import opened UploadRuns
  import opened StorageRuns

  // ----- Sums -----

  /** Every video counts with its size unless it failed or was deleted. */
  lemma BytesAddUp(videos: seq<Video>, v: Video)
    ensures BytesReserved([]) == 0
    ensures BytesReserved(videos + [v])
         == BytesReserved(videos) + (if v.status == Failed || v.status == Gone then 0 else v.size)
  {
    BytesOfAppend(videos, v);
  }

  /** Every event since the period began counts, and no earlier one. */
  lemma EventsAddUp(ledger: seq<Usage>, u: Usage, start: int)
    ensures PeriodSum([], start) == 0
    ensures PeriodSum(ledger + [u], start) == PeriodSum(ledger, start) + (if u.at < start then 0 else u.quantity)
  {
    PeriodSumOfAppend(ledger, u, start);
  }

  /** What a step does to the reserved bytes: an accepted upload adds its size, a requeue adds its video's,
      failing, cancelling, cleaning up and deleting free the video's, and nothing else changes them. */
  lemma BytesMove(s: State, e: Event)
    requires Inv(s)
    ensures var before, after := BytesReserved(s.videos), BytesReserved(Apply(s, e).videos);
      && (before < after ==> Commits(s, e) || (e.Requeue? && after - before == s.videos[e.video].size))
      && (Commits(s, e) ==> after == before + s.lock.value.size)
      && (after < before ==> e.FailVideo? || e.CancelProcessing? || e.FinishRelease?)
  {
    if Commits(s, e) {
      BytesAddUp(s.videos, Video(s.lock.value.size, PendingUpload, None));
    } else {
      OthersReserveNoMore(s, e);
      if e.Requeue? && Apply(s, e) != s { RequeueGrows(s, e.video); }
      if !e.FailVideo? && !e.CancelProcessing? && !e.FinishRelease? { OthersFreeNothing(s, e); }
    }
  }

  lemma RequeueGrows(s: State, v: nat)
    requires Apply(s, Requeue(v, true)) != s
    ensures v < |s.videos|
    ensures BytesReserved(Apply(s, Requeue(v, true)).videos) == BytesReserved(s.videos) + s.videos[v].size
  {
    RequeueAdds(s, v);
  }

  lemma MoveFreesNothing(s: State, e: Event)
    requires MovesVideo(e) && !e.FailVideo? && !e.CancelProcessing? && e.video < |s.videos|
    ensures e.video < |Apply(s, e).videos| && Bytes(Apply(s, e).videos[e.video]) == Bytes(s.videos[e.video])
  {
  }

  lemma OthersFreeNothing(s: State, e: Event)
    requires Inv(s) && !e.FailVideo? && !e.CancelProcessing? && !e.FinishRelease? && !Commits(s, e)
    ensures BytesReserved(Apply(s, e).videos) >= BytesReserved(s.videos)
  {
    if MovesJob(e) {
      JobMoveShape(s, e);
      if HasJob(s, e.video) { BytesOfUpdate(s.videos, e.video, Apply(s, e).videos[e.video]); }
    } else if MovesVideo(e) {
      if Apply(s, e) != s {
        VideoMoveShape(s, e);
        MoveFreesNothing(s, e);
        BytesOfUpdate(s.videos, e.video, Apply(s, e).videos[e.video]);
      }
    } else if e.Requeue? {
      if Apply(s, e) != s { RequeueGrows(s, e.video); }
    } else {
      assert Apply(s, e).videos == s.videos;
    }
  }

  // ----- Uploads -----

  /** An upload nobody disturbs is let in exactly if the period's sum and the reserved bytes leave room. */
  lemma UploadAcceptedIff(s: State, size: nat, now: int)
    requires s.lock.None?
    ensures var used := Max(0, PeriodSum(s.ledger, s.plan.periodStart));
      var room := && (s.plan.maxVideos.None? || used < s.plan.maxVideos.value)
                  && (s.plan.maxBytes.None? || BytesReserved(s.videos) + size <= s.plan.maxBytes.value);
      var s' := Run(s, UploadOf(size, now));
      && s'.lock.None?
      && (if room
          then && s'.videos == s.videos + [Video(size, PendingUpload, None)]
               && s'.ledger == s.ledger + [Usage(|s.videos|, 1, now)]
          else s'.videos == s.videos && s'.ledger == s.ledger)
  {
    UnfoldFour(s, LockAccount(size), CheckCount, CheckBytes, CommitUpload(now));
    if !CountAllowed(s) {
      CountRefused(s, size, now);
    } else if !BytesAllowed(s, size) {
      CountCheckPasses(s, size);
      BytesRefused(s.(lock := Some(Upload(size, CountChecked))), size, now);
    } else {
      UploadAccepted(s, size, now);
    }
  }

  lemma CountRefused(s: State, size: nat, now: int)
    requires s.lock.None? && !CountAllowed(s)
    ensures Apply(Apply(Apply(Apply(s, LockAccount(size)), CheckCount), CheckBytes), CommitUpload(now)) == s
  {
    var s1 := s.(lock := Some(Upload(size, Locked)));
    assert Apply(s, LockAccount(size)) == s1;
    assert Apply(s1, CheckCount) == s;
  }

  lemma BytesRefused(s: State, size: nat, now: int)
    requires s.lock == Some(Upload(size, CountChecked)) && !BytesAllowed(s, size)
    ensures Apply(Apply(s, CheckBytes), CommitUpload(now)) == s.(lock := None)
  {
    assert Apply(s, CheckBytes) == s.(lock := None);
  }

  /** One upload at a time: while the account lock is held nobody else gets it, and it is free again after
      a commit, a refusal or an abort. */
  lemma AccountLock(s: State, size: nat, now: int)
    ensures s.lock.Some? ==> Apply(s, LockAccount(size)) == s
    ensures Apply(s, AbortUpload) == s.(lock := None)
    ensures Commits(s, CommitUpload(now)) ==> Apply(s, CommitUpload(now)).lock.None?
  {
  }

  // ----- The transition table -----

  /** A video's row is locked exactly while a cancel, a delete or a cleanup that found it pending is under
      way on it. */
  lemma LockedIff(s: State, v: nat)
    ensures Busy(s, v) <==>
      exists tx :: && tx in s.releases && s.releases[tx].video == v
                   && s.releases[tx].purpose in {Cancelling, Deleting, CleaningUp}
  {
  }

  ghost predicate FinishesOn(s: State, e: Event, v: nat, purpose: Purpose) {
    && e.FinishRelease? && e.tx in s.releases && s.releases[e.tx].read.Some?
    && s.releases[e.tx].video == v && s.releases[e.tx].purpose == purpose
  }

  ghost predicate JobIn(s: State, v: nat, status: JobStatus) {
    v < |s.videos| && s.videos[v].job.Some? && s.videos[v].job.value.status == status
  }

  /** The table, status by status: where a step takes a video. */
  ghost function NextStatus(s: State, e: Event, v: nat): VideoStatus
    requires v < |s.videos|
  {
    match s.videos[v].status
    case PendingUpload =>
      if e.CompleteUpload? && e.video == v && e.objectOk && !Busy(s, v) then Queued
      else if FinishesOn(s, e, v, Cancelling) || FinishesOn(s, e, v, CleaningUp) then Failed
      else if FinishesOn(s, e, v, Deleting) then Gone
      else PendingUpload
    case Queued =>
      if Busy(s, v) then Queued
      else if e == StartVideo(v) then Processing
      else if GivesUp(s, e, v) then Failed
      else Queued
    case Processing =>
      if Busy(s, v) then Processing
      else if e == FinishVideo(v) then Processed
      else if e == RequeueVideo(v) then Queued
      else if GivesUp(s, e, v) then Failed
      else Processing
    case Processed => if e == FailVideo(v, true) && !Busy(s, v) then Failed else Processed
    case Failed =>
      if e == Requeue(v, true) && JobIn(s, v, JobFailed) && !Busy(s, v) then Queued
      else if FinishesOn(s, e, v, Deleting) then Gone
      else Failed
    case Gone => Gone
  }

  /** A worker reports a failure, or a running job is cancelled. */
  ghost predicate GivesUp(s: State, e: Event, v: nat) {
    (e.FailVideo? && e.video == v) || (e == CancelProcessing(v) && JobIn(s, v, JobRunning))
  }

  /** The events that name video `v`. */
  predicate Names(e: Event, v: nat) {
    (MovesJob(e) || MovesVideo(e) || e.Requeue?) && e.video == v
  }

  lemma UnnamedStays(s: State, e: Event, v: nat)
    requires v < |s.videos| && !e.FinishRelease? && !Names(e, v)
    ensures v < |Apply(s, e).videos| && Apply(s, e).videos[v] == s.videos[v]
  {
  }

  /** Steps on the job alone leave the row's status, and the table agrees. */
  lemma JobStepStays(s: State, e: Event, v: nat)
    requires v < |s.videos| && MovesJob(e)
    ensures NextStatus(s, e, v) == s.videos[v].status
  {
  }

  lemma NamedTransitions(s: State, e: Event, v: nat)
    requires v < |s.videos| && RowOk(s.videos[v]) && (MovesVideo(e) || e.Requeue?) && e.video == v
    ensures v < |Apply(s, e).videos| && Apply(s, e).videos[v].size == s.videos[v].size
    ensures Apply(s, e).videos[v].status == NextStatus(s, e, v)
  {
    if Busy(s, v) {
      assert Apply(s, e) == s;
    }
  }

  lemma FinishTransitions(s: State, e: Event, v: nat)
    requires Inv(s) && v < |s.videos| && e.FinishRelease?
    ensures v < |Apply(s, e).videos| && Apply(s, e).videos[v].size == s.videos[v].size
    ensures Apply(s, e).videos[v].status == NextStatus(s, e, v)
    ensures Apply(s, e).videos[v].job == NextJobOf(s, e, v)
  {
    assert RowOk(s.videos[v]);
    if e.tx in s.releases {
      assert ReleaseOk(s.videos, s.ledger, s.releases[e.tx]);
      if CanFinish(s, e.tx) { FinishIs(s, e.tx, e.now); }
    }
  }

  lemma UnnamedTable(s: State, e: Event, v: nat)
    requires v < |s.videos| && RowOk(s.videos[v]) && !e.FinishRelease? && !Names(e, v)
    ensures NextStatus(s, e, v) == s.videos[v].status && NextJobOf(s, e, v) == s.videos[v].job
  {
  }

  /** A video changes its status exactly as the table says, and never its size. */
  lemma VideoTransitions(s: State, e: Event, v: nat)
    requires Inv(s) && v < |s.videos|
    ensures v < |Apply(s, e).videos| && Apply(s, e).videos[v].size == s.videos[v].size
    ensures Apply(s, e).videos[v].status == NextStatus(s, e, v)
  {
    assert RowOk(s.videos[v]);
    if e.FinishRelease? {
      FinishTransitions(s, e, v);
    } else if !Names(e, v) {
      UnnamedStays(s, e, v);
      UnnamedTable(s, e, v);
    } else if MovesJob(e) {
      JobMoveShape(s, e);
      JobStepStays(s, e, v);
    } else {
      NamedTransitions(s, e, v);
    }
  }

  /** Where a step takes a job: claims name their task, requeues clear it, nothing else touches it. */
  ghost function NextJob(s: State, e: Event, v: nat, job: Job): Job
    requires v < |s.videos|
  {
    match job.status
    case JobPending =>
      if e.ClaimJob? && e.video == v then job.(status := JobRunning, task := e.task)
      else if e == FailJob(v) then job.(status := JobFailed)
      else job
    case JobRunning =>
      if e.CompleteJob? && e.video == v && (e.task.None? || e.task == job.task) then job.(status := JobCompleted)
      else if e == ReleaseJob(v) then job.(status := JobPending)
      else if e == FailJob(v) then job.(status := JobFailed)
      else if e == CancelProcessing(v) && Working(s.videos[v].status) && !Busy(s, v) then job.(status := JobFailed)
      else job
    case JobCompleted => job
    case JobFailed =>
      if e == Requeue(v, true) && s.videos[v].status == Failed && !Busy(s, v)
      then job.(status := JobPending, task := None) else job
  }

  ghost function NextJobOf(s: State, e: Event, v: nat): Option<Job>
    requires v < |s.videos|
  {
    if s.videos[v].job.Some?
    then if FinishesOn(s, e, v, Deleting) then None else Some(NextJob(s, e, v, s.videos[v].job.value))
    else if s.videos[v].status == PendingUpload && e.CompleteUpload? && e.video == v && e.objectOk && !Busy(s, v)
    then Some(Job(e.jobId, JobPending, None))
    else None
  }

  lemma WorkerJobTransitions(s: State, e: Event, v: nat)
    requires v < |s.videos| && RowOk(s.videos[v]) && MovesJob(e) && e.video == v
    ensures v < |Apply(s, e).videos| && Apply(s, e).videos[v].job == NextJobOf(s, e, v)
  {
  }

  lemma NamedJobTransitions(s: State, e: Event, v: nat)
    requires v < |s.videos| && RowOk(s.videos[v]) && (MovesVideo(e) || e.Requeue?) && e.video == v
    ensures v < |Apply(s, e).videos| && Apply(s, e).videos[v].job == NextJobOf(s, e, v)
  {
  }

  /** A job is made by completing an upload, moves exactly as the table says, and goes with its video. */
  lemma JobTransitions(s: State, e: Event, v: nat)
    requires Inv(s) && v < |s.videos|
    ensures v < |Apply(s, e).videos| && Apply(s, e).videos[v].job == NextJobOf(s, e, v)
  {
    assert RowOk(s.videos[v]);
    if e.FinishRelease? {
      FinishTransitions(s, e, v);
    } else if !Names(e, v) {
      UnnamedStays(s, e, v);
      UnnamedTable(s, e, v);
    } else if MovesJob(e) {
      WorkerJobTransitions(s, e, v);
    } else {
      NamedJobTransitions(s, e, v);
    }
  }

  /** Which transactions that give a slot back may begin, and as what. */
  lemma ReleasesBegin(s: State, e: Event, tx: nat)
    requires tx !in s.releases
    ensures var s' := Apply(s, e);
      tx in s'.releases <==>
        && Begins(e) && e.tx == tx && e.video < |s.videos|
        && match s.videos[e.video].status
           case PendingUpload => !Busy(s, e.video)
           case Failed => e.BeginCleanup? || (e.BeginDelete? && !Busy(s, e.video))
           case _ => e.BeginCleanup?
    ensures var s' := Apply(s, e);
      tx in s'.releases ==>
        s'.releases[tx] == Releasing(e.video, if e.BeginCancel? then Cancelling
                                              else if e.BeginDelete? then Deleting
                                              else if s.videos[e.video].status == PendingUpload then CleaningUp
                                              else LatePass, None)
  {
  }

  lemma OtherReleaseSteps(s: State, e: Event, tx: nat)
    requires tx in s.releases && !MovesJob(e) && !MovesVideo(e) && !e.FinishRelease?
    ensures if e == AbortRelease(tx) then tx !in Apply(s, e).releases
            else
              var r := s.releases[tx];
              tx in Apply(s, e).releases && Apply(s, e).releases[tx]
              == (if e == ReadNet(tx) && r.read.None? then r.(read := Some(Net(s.ledger, r.video))) else r)
  {
  }

  /** A transaction under way reads the net that is stored at that moment, once, and goes when it finishes
      or is aborted; no other step touches it. */
  lemma ReleasesGoOn(s: State, e: Event, tx: nat)
    requires Inv(s) && tx in s.releases
    ensures var s', r := Apply(s, e), s.releases[tx];
      if e == AbortRelease(tx) || (e.FinishRelease? && e.tx == tx && r.read.Some?) then tx !in s'.releases
      else tx in s'.releases && s'.releases[tx]
           == (if e == ReadNet(tx) && r.read.None? then r.(read := Some(Net(s.ledger, r.video))) else r)
  {
    assert ReleaseOk(s.videos, s.ledger, s.releases[tx]);
    if MovesJob(e) {
      JobMoveShape(s, e);
    } else if MovesVideo(e) {
      if Apply(s, e) != s { VideoMoveShape(s, e); }
    } else if e.FinishRelease? {
      if CanFinish(s, e.tx) { FinishIs(s, e.tx, e.now); }
    } else {
      OtherReleaseSteps(s, e, tx);
    }
  }

  // ----- Answers -----

  /** What a completion is told, by the video's status. */
  lemma CompleteReplyIs(s: State, v: nat, objectOk: bool, jobId: nat)
    requires Inv(s)
    ensures var reply := CompleteReply(s, v, objectOk, jobId);
      if v >= |s.videos| then reply == NotFound
      else match s.videos[v].status
        case Gone => reply == NotFound
        case PendingUpload => reply == if objectOk then JobIs(jobId) else Refused
        case Failed => reply == Conflict
        case _ => s.videos[v].job.Some? && reply == JobIs(s.videos[v].job.value.id)
  {
    if v < |s.videos| { assert RowOk(s.videos[v]); }
  }
}
