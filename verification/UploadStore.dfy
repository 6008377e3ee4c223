/** The upload and recovery handlers as updates of the stored tables, each run without interruption. */
module UploadStore {
  import opened Common
  import opened UploadLedger
  import opened UploadRuns

  class Store {
    const plan: Plan
    var videos: seq<Video>
    var ledger: seq<Usage>
    ghost var requeuedBytes: nat

    ghost function Snapshot(): State
      reads this
    {
      State(plan, videos, ledger, None, map[], requeuedBytes)
    }

    ghost predicate Valid()
      reads this
    {
      Inv(Snapshot())
    }

    constructor (plan: Plan)
      ensures Fresh(Snapshot()) && Valid() && this.plan == plan
    {
      this.plan := plan;
      videos, ledger, requeuedBytes := [], [], 0;
    }

    /** Sum a video's events. */
    method NetReserved(video: nat) returns (net: int)
      ensures net == Net(ledger, video)
    {
      net := 0;
      var i := 0;
      while i < |ledger|
        invariant i <= |ledger| && net == Net(ledger[..i], video)
      {
        assert ledger[..i + 1] == ledger[..i] + [ledger[i]];
        NetOfAppend(ledger[..i], ledger[i], video);
        if ledger[i].video == video { net := net + ledger[i].quantity; }
        i := i + 1;
      }
      assert ledger[..i] == ledger;
    }

    /** Sum the events since the period began, cut off at 0. */
    method UsedThisPeriod() returns (used: nat)
      ensures used == VideosUsed(Snapshot())
    {
      var sum := 0;
      var i := 0;
      while i < |ledger|
        invariant i <= |ledger| && sum == PeriodSum(ledger[..i], plan.periodStart)
      {
        assert ledger[..i + 1] == ledger[..i] + [ledger[i]];
        PeriodSumOfAppend(ledger[..i], ledger[i], plan.periodStart);
        if ledger[i].at >= plan.periodStart { sum := sum + ledger[i].quantity; }
        i := i + 1;
      }
      assert ledger[..i] == ledger;
      used := if sum < 0 then 0 else sum;
    }

    /** Sum the sizes of the videos that have not failed. */
    method ReservedBytes() returns (bytes: nat)
      ensures bytes == BytesReserved(videos)
    {
      bytes := 0;
      var i := 0;
      while i < |videos|
        invariant i <= |videos| && bytes == BytesReserved(videos[..i])
      {
        assert videos[..i + 1] == videos[..i] + [videos[i]];
        BytesOfAppend(videos[..i], videos[i]);
        if videos[i].status != Failed && videos[i].status != Gone { bytes := bytes + videos[i].size; }
        i := i + 1;
      }
      assert videos[..i] == videos;
    }

    /** The whole upload transaction, run without interruption. */
    method InitiateUpload(size: nat, presignOk: bool, now: int) returns (video: Option<nat>)
      requires Valid()
      modifies this
      ensures Valid()
      ensures Snapshot() == Run(old(Snapshot()), [LockAccount(size), CheckCount, CheckBytes,
                                                  if presignOk then CommitUpload(now) else AbortUpload])
      ensures video == if CountAllowed(old(Snapshot())) && BytesAllowed(old(Snapshot()), size) && presignOk
                       then Some(|old(videos)|) else None
    {
      ghost var s0 := Snapshot();
      ghost var end := if presignOk then CommitUpload(now) else AbortUpload;
      RunKeepsInv(s0, [LockAccount(size), CheckCount, CheckBytes, end]);
      UnfoldFour(s0, LockAccount(size), CheckCount, CheckBytes, end);
      video := None;
      var used := UsedThisPeriod();
      if plan.maxVideos.Some? && used >= plan.maxVideos.value { return; }
      var bytes := ReservedBytes();
      if plan.maxBytes.Some? && bytes + size > plan.maxBytes.value { return; }
      requeuedBytes := 0;
      if !presignOk { return; }
      video := Some(|videos|);
      ledger := ledger + [Usage(|videos|, 1, now)];
      videos := videos + [Video(size, PendingUpload, None)];
    }

    /** Write a compensating event, unless nothing is reserved. */
    method ReleaseReservation(video: nat, now: int) returns (released: bool)
      modifies this`ledger
      ensures released == (Net(old(ledger), video) > 0)
      ensures ledger == if released then old(ledger) + [Usage(video, -1, now)] else old(ledger)
    {
      var net := NetReserved(video);
      released := net > 0;
      if released { ledger := ledger + [Usage(video, -1, now)]; }
    }

    method Cancel(video: nat, now: int)
      requires Valid()
      modifies this
      ensures Valid() && Snapshot() == Uninterrupted(old(Snapshot()), BeginCancel(0, video), now)
    {
      ghost var s := Snapshot();
      UninterruptedKeepsInv(s, BeginCancel(0, video), now);
      if video < |videos| && videos[video].status == PendingUpload {
        CancelStarts(s, 0, video);
        FinishIs(Reading(s, 0, video, Cancelling), 0, now);
        videos := videos[video := videos[video].(status := Failed)];
        var released := ReleaseReservation(video, now);
        assert Snapshot().releases == ApplyFinish(Reading(s, 0, video, Cancelling), 0, now).releases;
      }
    }

    /** Without the storage work done the row stays, and so does its slot. */
    method Delete(video: nat, storageOk: bool, now: int)
      requires Valid()
      modifies this
      ensures Valid()
      ensures Snapshot() == if storageOk then Uninterrupted(old(Snapshot()), BeginDelete(0, video), now)
                            else old(Snapshot())
    {
      ghost var s := Snapshot();
      UninterruptedKeepsInv(s, BeginDelete(0, video), now);
      if video < |videos| && (videos[video].status == Failed || videos[video].status == PendingUpload) && storageOk {
        DeleteStarts(s, 0, video);
        FinishIs(Reading(s, 0, video, Deleting), 0, now);
        var released := ReleaseReservation(video, now);
        videos := videos[video := videos[video].(status := Gone, job := None)];
        assert Snapshot().releases == ApplyFinish(Reading(s, 0, video, Deleting), 0, now).releases;
      }
    }

    /** The cleanup pass on one video it saw pending: the update is conditional, the release is not. */
    method CleanUp(video: nat, now: int)
      requires Valid() && video < |videos|
      modifies this
      ensures Valid() && Snapshot() == Uninterrupted(old(Snapshot()), BeginCleanup(0, video), now)
    {
      ghost var s := Snapshot();
      UninterruptedKeepsInv(s, BeginCleanup(0, video), now);
      ghost var purpose := if videos[video].status == PendingUpload then CleaningUp else LatePass;
      if purpose == CleaningUp { CleanupStarts(s, 0, video); } else { LatePassStarts(s, 0, video); }
      FinishIs(Reading(s, 0, video, purpose), 0, now);
      if videos[video].status == PendingUpload {
        videos := videos[video := videos[video].(status := Failed)];
      }
      var released := ReleaseReservation(video, now);
      assert Snapshot().releases == ApplyFinish(Reading(s, 0, video, purpose), 0, now).releases;
    }

    method Complete(video: nat, objectOk: bool, jobId: nat) returns (reply: Reply)
      requires Valid()
      modifies this
      ensures Valid() && Snapshot() == Apply(old(Snapshot()), CompleteUpload(video, objectOk, jobId))
      ensures reply == CompleteReply(old(Snapshot()), video, objectOk, jobId) && reply != Inconsistent
    {
      StepKeepsInv(Snapshot(), CompleteUpload(video, objectOk, jobId));
      if video >= |videos| || videos[video].status == Gone { return NotFound; }
      if videos[video].status == Queued || videos[video].status == Processing || videos[video].status == Processed {
        return if videos[video].job.Some? then JobIs(videos[video].job.value.id) else Inconsistent;
      }
      if videos[video].status != PendingUpload { return Conflict; }
      if !objectOk { return Refused; }
      videos := videos[video := videos[video].(status := Queued, job := Some(Job(jobId, JobPending, None)))];
      return JobIs(jobId);
    }

    method CancelRunning(video: nat)
      requires Valid()
      modifies this
      ensures Valid() && Snapshot() == Apply(old(Snapshot()), CancelProcessing(video))
    {
      StepKeepsInv(Snapshot(), CancelProcessing(video));
      if video < |videos| && (videos[video].status == Processing || videos[video].status == Queued) {
        var job := videos[video].job;
        if job.Some? && job.value.status == JobRunning {
          videos := videos[video := videos[video].(job := Some(job.value.(status := JobFailed)), status := Failed)];
        }
      }
    }

    method RequeueFailed(video: nat, rawOk: bool)
      requires Valid()
      modifies this
      ensures Valid() && Snapshot() == Apply(old(Snapshot()), Requeue(video, rawOk))
    {
      StepKeepsInv(Snapshot(), Requeue(video, rawOk));
      if video < |videos| && videos[video].status == Failed {
        var job := videos[video].job;
        if job.Some? && job.value.status == JobFailed && rawOk {
          requeuedBytes := requeuedBytes + videos[video].size;
          var back := job.value.(status := JobPending, task := None);
          videos := videos[video := videos[video].(status := Queued, job := Some(back))];
        }
      }
    }
  }

  lemma UninterruptedKeepsInv(s: State, begin: Event, now: int)
    requires Inv(s) && Begins(begin)
    ensures Inv(Uninterrupted(s, begin, now))
  {
    StepKeepsInv(s, begin);
    StepKeepsInv(Apply(s, begin), ReadNet(begin.tx));
    StepKeepsInv(BeginAndRead(s, begin), FinishRelease(begin.tx, now));
  }
}
