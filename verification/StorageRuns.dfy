/**
 The storage bound measured from the last accepted upload instead of the last passed storage check, and
 runs in which the ceiling itself is exceeded.
 */
module StorageRuns {
  import opened Common
  import opened UploadLedger
  import opened UploadRuns

  // ----- Measured from the last accepted upload -----

  predicate Commits(s: State, e: Event) {
    e.CommitUpload? && s.lock.Some? && s.lock.value.stage == BytesChecked
  }

  /** The bytes a step puts back without a storage check. */
  function PutBack(s: State, e: Event): nat {
    if e.Requeue? && e.video < |s.videos| && Apply(s, e) != s then s.videos[e.video].size else 0
  }

  /** The bytes requeued since the last accepted upload. */
  function SinceUpload(s: State, since: nat, e: Event): nat {
    if Commits(s, e) then 0 else since + PutBack(s, e)
  }

  ghost predicate Within(s: State, since: nat) {
    s.plan.maxBytes.Some? ==> BytesReserved(s.videos) <= s.plan.maxBytes.value + since
  }

  /** An upload commits only if its storage check would still pass. */
  predicate StillAllowed(s: State, e: Event) {
    Commits(s, e) ==> BytesAllowed(s, s.lock.value.size)
  }

  /** A commit leaves the account within the plan exactly when the check it made would still pass. */
  lemma CommitWithinPlanIff(s: State, now: int)
    requires s.lock.Some? && s.lock.value.stage == BytesChecked && s.plan.maxBytes.Some?
    ensures BytesReserved(Apply(s, CommitUpload(now)).videos) <= s.plan.maxBytes.value
       <==> BytesAllowed(s, s.lock.value.size)
  {
    BytesOfAppend(s.videos, Video(s.lock.value.size, PendingUpload, None));
  }

  lemma RequeueShape(s: State, e: Event)
    requires e.Requeue? && Apply(s, e) != s
    ensures e.video < |s.videos| && Bytes(s.videos[e.video]) == 0
    ensures exists row: Video :: row.size == s.videos[e.video].size && Apply(s, e).videos == s.videos[e.video := row]
  {
    assert Apply(s, e).videos == s.videos[e.video := Apply(s, e).videos[e.video]];
  }

  /** No other step reserves more than it puts back. */
  lemma OthersReserveNoMore(s: State, e: Event)
    requires !Commits(s, e)
    ensures BytesReserved(Apply(s, e).videos) <= BytesReserved(s.videos) + PutBack(s, e)
  {
    if MovesJob(e) {
      JobMoveShape(s, e);
      if HasJob(s, e.video) { BytesOfUpdate(s.videos, e.video, Apply(s, e).videos[e.video]); }
    } else if MovesVideo(e) {
      if Apply(s, e) != s {
        VideoMoveShape(s, e);
        BytesOfUpdate(s.videos, e.video, Apply(s, e).videos[e.video]);
      }
    } else if e.Requeue? {
      if Apply(s, e) != s {
        RequeueShape(s, e);
        var row: Video :| row.size == s.videos[e.video].size && Apply(s, e).videos == s.videos[e.video := row];
        BytesOfUpdate(s.videos, e.video, row);
      }
    } else if e.FinishRelease? && CanFinish(s, e.tx) {
      var r := s.releases[e.tx];
      FinishIs(s, e.tx, e.now);
      BytesOfUpdate(s.videos, r.video, Left(r.purpose, s.videos[r.video]));
    } else {
      assert Apply(s, e).videos == s.videos;
    }
  }

  lemma StepKeepsPlan(s: State, e: Event)
    ensures Apply(s, e).plan == s.plan
  {
  }

  lemma StepWithinIff(s: State, since: nat, e: Event)
    requires Within(s, since) && s.plan.maxBytes.Some?
    ensures Within(Apply(s, e), SinceUpload(s, since, e)) <==> StillAllowed(s, e)
  {
    StepKeepsPlan(s, e);
    if Commits(s, e) { CommitWithinPlanIff(s, e.now); } else { OthersReserveNoMore(s, e); }
  }

  ghost predicate WithinThroughout(s: State, since: nat, es: seq<Event>)
    decreases |es|
  {
    Within(s, since) && (es == [] || WithinThroughout(Apply(s, es[0]), SinceUpload(s, since, es[0]), es[1..]))
  }

  predicate AllStillAllowed(s: State, es: seq<Event>)
    decreases |es|
  {
    es == [] || (StillAllowed(s, es[0]) && AllStillAllowed(Apply(s, es[0]), es[1..]))
  }

  /** Through a whole run the bytes stay within the plan plus what was requeued since the last accepted
      upload exactly when every upload commits with its storage check still passing. */
  lemma {:induction false} WithinThroughoutIff(s: State, since: nat, es: seq<Event>)
    requires Within(s, since) && s.plan.maxBytes.Some?
    ensures WithinThroughout(s, since, es) <==> AllStillAllowed(s, es)
    decreases |es|
  {
    if es != [] {
      StepWithinIff(s, since, es[0]);
      StepKeepsPlan(s, es[0]);
      if StillAllowed(s, es[0]) {
        WithinThroughoutIff(Apply(s, es[0]), SinceUpload(s, since, es[0]), es[1..]);
      }
    }
  }

  // ----- The failing runs -----

  /** A requeue takes effect: the video and its job have failed, and nobody holds the row lock. */
  predicate Requeueable(s: State, v: nat) {
    HasJob(s, v) && !Busy(s, v) && s.videos[v].status == Failed && s.videos[v].job.value.status == JobFailed
  }

  lemma RequeueAdds(s: State, v: nat)
    requires Requeueable(s, v)
    ensures BytesReserved(Apply(s, Requeue(v, true)).videos) == BytesReserved(s.videos) + s.videos[v].size
    ensures Apply(s, Requeue(v, true)).lock == s.lock && Apply(s, Requeue(v, true)).plan == s.plan
  {
    BytesOfUpdate(s.videos, v, Apply(s, Requeue(v, true)).videos[v]);
  }

  /** A requeue between an upload's storage check and its commit: if the check filled the plan, the commit
      exceeds it, although nothing has been requeued since that upload. */
  lemma RequeueDuringUpload(s: State, v: nat, now: int)
    requires s.lock.Some? && s.lock.value.stage == BytesChecked && s.plan.maxBytes.Some?
    requires BytesReserved(s.videos) + s.lock.value.size == s.plan.maxBytes.value
    requires Requeueable(s, v) && s.videos[v].size > 0
    ensures var s1 := Apply(s, Requeue(v, true));
      && SinceUpload(s1, PutBack(s, Requeue(v, true)), CommitUpload(now)) == 0
      && BytesReserved(Apply(s1, CommitUpload(now)).videos) == s.plan.maxBytes.value + s.videos[v].size
      && !Within(Apply(s1, CommitUpload(now)), 0)
  {
    RequeueAdds(s, v);
    var s1 := Apply(s, Requeue(v, true));
    BytesOfAppend(s1.videos, Video(s.lock.value.size, PendingUpload, None));
  }

  lemma {:induction false} RunConcat(s: State, a: seq<Event>, b: seq<Event>)
    ensures Run(s, a + b) == Run(Run(s, a), b)
    decreases |a|
  {
    if a == [] {
      assert a + b == b;
    } else {
      assert (a + b)[1..] == a[1..] + b;
      RunConcat(Apply(s, a[0]), a[1..], b);
    }
  }

  function UploadOf(size: nat, now: int): seq<Event> {
    [LockAccount(size), CheckCount, CheckBytes, CommitUpload(now)]
  }

  lemma CountCheckPasses(s: State, size: nat)
    requires s.lock.None? && CountAllowed(s)
    ensures Apply(Apply(s, LockAccount(size)), CheckCount) == s.(lock := Some(Upload(size, CountChecked)))
  {
    assert Apply(s, LockAccount(size)) == s.(lock := Some(Upload(size, Locked)));
  }

  lemma BytesCheckPasses(s: State, size: nat)
    requires s.lock == Some(Upload(size, CountChecked)) && BytesAllowed(s, size)
    ensures Apply(s, CheckBytes) == s.(lock := Some(Upload(size, BytesChecked)), requeuedBytes := 0)
  {
  }

  lemma CommitIs(s: State, size: nat, now: int)
    requires s.lock == Some(Upload(size, BytesChecked))
    ensures Apply(s, CommitUpload(now))
         == s.(videos := s.videos + [Video(size, PendingUpload, None)],
               ledger := s.ledger + [Usage(|s.videos|, 1, now)], lock := None)
  {
  }

  /** An upload that nobody disturbs and both checks allow. */
  lemma UploadAccepted(s: State, size: nat, now: int)
    requires s.lock.None? && CountAllowed(s) && BytesAllowed(s, size)
    ensures Run(s, UploadOf(size, now))
         == s.(videos := s.videos + [Video(size, PendingUpload, None)],
               ledger := s.ledger + [Usage(|s.videos|, 1, now)], requeuedBytes := 0)
  {
    UnfoldFour(s, LockAccount(size), CheckCount, CheckBytes, CommitUpload(now));
    CountCheckPasses(s, size);
    BytesCheckPasses(s.(lock := Some(Upload(size, CountChecked))), size);
    CommitIs(s.(lock := Some(Upload(size, BytesChecked)), requeuedBytes := 0), size, now);
  }

  function FailureOf(v: nat, jobId: nat): seq<Event> {
    [CompleteUpload(v, true, jobId), FailJob(v), FailVideo(v, false)]
  }

  /** A completed upload whose transcoding fails. */
  lemma UploadFails(s: State, v: nat, jobId: nat)
    requires v < |s.videos| && s.videos[v].status == PendingUpload && s.releases == map[]
    ensures Run(s, FailureOf(v, jobId))
         == SetVideo(s, v, Video(s.videos[v].size, Failed, Some(Job(jobId, JobFailed, None))))
  {
    var size := s.videos[v].size;
    var s1 := SetVideo(s, v, Video(size, Queued, Some(Job(jobId, JobPending, None))));
    var s2 := SetVideo(s, v, Video(size, Queued, Some(Job(jobId, JobFailed, None))));
    CompleteQueues(s, v, jobId);
    assert Apply(s1, FailJob(v)) == s2;
    assert Run(s2, [FailVideo(v, false)]) == Apply(s2, FailVideo(v, false));
    assert Run(s1, [FailJob(v), FailVideo(v, false)]) == Run(s2, [FailVideo(v, false)]);
    assert FailureOf(v, jobId)[1..] == [FailJob(v), FailVideo(v, false)];
  }

  /** The account after one upload that filled it and failed: the bytes are free again. */
  function AfterFailure(s: State, size: nat, now: int): State {
    s.(videos := [Video(size, Failed, Some(Job(0, JobFailed, None)))], ledger := [Usage(0, 1, now)], requeuedBytes := 0)
  }

  lemma FirstUploadFails(s: State, size: nat, now: int)
    requires Fresh(s) && s.plan.maxBytes == Some(size)
    requires s.plan.maxVideos.Some? ==> s.plan.maxVideos.value >= 2
    ensures Run(s, UploadOf(size, now) + FailureOf(0, 0)) == AfterFailure(s, size, now)
  {
    RunConcat(s, UploadOf(size, now), FailureOf(0, 0));
    UploadAccepted(s, size, now);
    UploadFails(Run(s, UploadOf(size, now)), 0, 0);
  }

  lemma SecondUploadAllowed(s: State, size: nat, now: int)
    requires Fresh(s) && s.plan.maxBytes == Some(size)
    requires s.plan.maxVideos.Some? ==> s.plan.maxVideos.value >= 2
    ensures var s2 := AfterFailure(s, size, now);
      BytesReserved(s2.videos) == 0 && CountAllowed(s2) && BytesAllowed(s2, size)
  {
    var s2 := AfterFailure(s, size, now);
    PeriodSumOfAppend([], Usage(0, 1, now), s.plan.periodStart);
    assert s2.ledger == [] + [Usage(0, 1, now)];
    BytesOfAppend([], s2.videos[0]);
    assert s2.videos == [] + [s2.videos[0]];
  }

  /** For every ceiling, from an empty account: upload as much as fits, let it fail, upload as much again,
      requeue the first. Twice the ceiling is reserved. */
  lemma CeilingCanBeDoubled(s: State, size: nat, now: int)
    requires Fresh(s) && s.plan.maxBytes == Some(size)
    requires s.plan.maxVideos.Some? ==> s.plan.maxVideos.value >= 2
    ensures var es := UploadOf(size, now) + FailureOf(0, 0) + UploadOf(size, now) + [Requeue(0, true)];
      BytesReserved(Run(s, es).videos) == 2 * size
  {
    var first, upload := UploadOf(size, now) + FailureOf(0, 0), UploadOf(size, now);
    RunConcat(s, first + upload, [Requeue(0, true)]);
    RunConcat(s, first, upload);
    FirstUploadFails(s, size, now);
    SecondUploadAllowed(s, size, now);
    var s2 := AfterFailure(s, size, now);
    UploadAccepted(s2, size, now);
    var s3 := Run(s2, upload);
    BytesOfAppend(s2.videos, Video(size, PendingUpload, None));
    RequeueAdds(s3, 0);
    assert Run(s3, [Requeue(0, true)]) == Apply(s3, Requeue(0, true));
  }
}
