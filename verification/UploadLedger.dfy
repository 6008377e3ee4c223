/**
 One billing account with a fixed active subscription: its append-only usage ledger, its videos with
 their transcode jobs, the account row lock held by an upload in progress, and the open transactions
 that are about to give a slot back.

 The video table is a sequence, so a video's id is its position and is never reused; a deleted row
 stays as `Gone`. The uniqueness of (video, stage) makes the transcode job a field of its video.
 The worker's updates of job and video commit separately, so each is a step of its own.
 */
module UploadLedger {
  import opened Common

  datatype VideoStatus = PendingUpload | Queued | Processing | Processed | Failed | Gone

  datatype JobStatus = JobPending | JobRunning | JobCompleted | JobFailed

  datatype Job = Job(id: nat, status: JobStatus, task: Option<nat>)

  datatype Video = Video(size: nat, status: VideoStatus, job: Option<Job>)

  /** A `video.upload.initiated` event: +1 when reserved, -1 when released. */
  datatype Usage = Usage(video: nat, quantity: int, at: int)

  datatype Plan = Plan(periodStart: int, maxVideos: Option<nat>, maxBytes: Option<nat>)

  /** How far the upload holding the account lock has come. */
  datatype Stage = Locked | CountChecked | BytesChecked

  datatype Upload = Upload(size: nat, stage: Stage)

  /** Why a slot is given back. All but the late pass hold the video's row lock until they commit: the
      cleanup pass takes it only if its update finds the video still pending. */
  datatype Purpose = Cancelling | Deleting | CleaningUp | LatePass

  /** A transaction that gives a slot back: it reads the video's net reservation, then commits. */
  datatype Releasing = Releasing(video: nat, purpose: Purpose, read: Option<int>)

  datatype State = State(
    plan: Plan,
    videos: seq<Video>,
    ledger: seq<Usage>,
    lock: Option<Upload>,
    releases: map<nat, Releasing>,
    requeuedBytes: nat)      // history: bytes requeued since the last passed storage check

  datatype Event =
    // POST /videos/upload, statement by statement under the account lock
    | LockAccount(size: nat)
    | CheckCount
    | CheckBytes
    | CommitUpload(now: int)
    | AbortUpload
    // giving a slot back: cancel, delete, and the cleanup pass on a video it saw pending some time ago
    | BeginCancel(tx: nat, video: nat)
    | BeginDelete(tx: nat, video: nat)
    | BeginCleanup(tx: nat, video: nat)
    | ReadNet(tx: nat)
    | FinishRelease(tx: nat, now: int)
    | AbortRelease(tx: nat)
    // the other handlers, each under the video row lock
    | CompleteUpload(video: nat, objectOk: bool, jobId: nat)
    | CancelProcessing(video: nat)
    | Requeue(video: nat, rawOk: bool)
    // the worker
    | ClaimJob(video: nat, task: Option<nat>)
    | StartVideo(video: nat)
    | CompleteJob(video: nat, task: Option<nat>)
    | FinishVideo(video: nat)
    | FailJob(video: nat)
    | FailVideo(video: nat, forced: bool)
    | ReleaseJob(video: nat)
    | RequeueVideo(video: nat)

  // ----- Sums -----

  /** A video's net reservation. */
  function Net(ledger: seq<Usage>, video: nat): int {
    if ledger == [] then 0
    else
      var last := ledger[|ledger| - 1];
      Net(ledger[..|ledger| - 1], video) + (if last.video == video then last.quantity else 0)
  }

  /** The ledger's sum since the period began. */
  function PeriodSum(ledger: seq<Usage>, start: int): int {
    if ledger == [] then 0
    else
      var last := ledger[|ledger| - 1];
      PeriodSum(ledger[..|ledger| - 1], start) + (if last.at >= start then last.quantity else 0)
  }

  function VideosUsed(s: State): nat {
    Max(0, PeriodSum(s.ledger, s.plan.periodStart))
  }

  function Bytes(v: Video): nat {
    if v.status == Failed || v.status == Gone then 0 else v.size
  }

  /** The bytes reserved by the videos that have not failed. */
  function BytesReserved(videos: seq<Video>): nat {
    if videos == [] then 0 else BytesReserved(videos[..|videos| - 1]) + Bytes(videos[|videos| - 1])
  }

  predicate CountAllowed(s: State) {
    s.plan.maxVideos.Some? ==> VideosUsed(s) < s.plan.maxVideos.value
  }

  predicate BytesAllowed(s: State, size: nat) {
    s.plan.maxBytes.Some? ==> BytesReserved(s.videos) + size <= s.plan.maxBytes.value
  }

  // ----- Steps -----

  predicate Exists(s: State, v: nat) {
    v < |s.videos| && s.videos[v].status != Gone
  }

  predicate HasJob(s: State, v: nat) {
    Exists(s, v) && s.videos[v].job.Some?
  }

  function SetVideo(s: State, v: nat, row: Video): State
    requires v < |s.videos|
  {
    s.(videos := s.videos[v := row])
  }

  function SetJob(s: State, v: nat, status: JobStatus, task: Option<nat>): State
    requires HasJob(s, v)
  {
    SetVideo(s, v, s.videos[v].(job := Some(s.videos[v].job.value.(status := status, task := task))))
  }

  // ----- Giving a slot back -----

  predicate Locks(r: Releasing) { r.purpose != LatePass }

  /** Some transaction holds the video's row lock. */
  predicate Busy(s: State, v: nat) {
    exists tx :: tx in s.releases && Locks(s.releases[tx]) && s.releases[tx].video == v
  }

  function Begin(s: State, tx: nat, v: nat, purpose: Purpose): State {
    s.(releases := s.releases[tx := Releasing(v, purpose, None)])
  }

  /** The conditional update of the cleanup pass waits only for a row that still looks pending. */
  function ApplyBeginCleanup(s: State, tx: nat, v: nat): State {
    if tx in s.releases || v >= |s.videos| then s
    else if s.videos[v].status != PendingUpload then Begin(s, tx, v, LatePass)
    else if Busy(s, v) then s
    else Begin(s, tx, v, CleaningUp)
  }

  predicate CanRead(s: State, tx: nat) {
    tx in s.releases && s.releases[tx].read.None?
  }

  predicate CanFinish(s: State, tx: nat) {
    tx in s.releases && s.releases[tx].video < |s.videos| && s.releases[tx].read.Some?
  }

  /** The video row as the transaction leaves it. */
  function Left(purpose: Purpose, row: Video): Video {
    match purpose
    case Deleting => row.(status := Gone, job := None)
    case LatePass => row
    case _ => row.(status := Failed)
  }

  /** Commit: a compensating event, unless nothing was reserved when the net was read, and the row. */
  function ApplyFinish(s: State, tx: nat, now: int): State
    requires CanFinish(s, tx)
  {
    var r := s.releases[tx];
    s.(videos := s.videos[r.video := Left(r.purpose, s.videos[r.video])],
       ledger := if r.read.value > 0 then s.ledger + [Usage(r.video, -1, now)] else s.ledger,
       releases := s.releases - {tx})
  }

  // ----- Every step -----

  predicate Working(st: VideoStatus) {
    st == Queued || st == Processing
  }

  /** Steps that set a video's status without reserving more bytes. */
  predicate MovesVideo(e: Event) {
    e.CompleteUpload? || e.CancelProcessing? || e.StartVideo? || e.FinishVideo? || e.FailVideo? || e.RequeueVideo?
  }

  /** Steps that update a video's row wait while its lock is held. */
  function Apply(s: State, e: Event): State {
    if (MovesVideo(e) || e.Requeue?) && Busy(s, e.video) then s else Act(s, e)
  }

  function Act(s: State, e: Event): State {
    match e
    case LockAccount(size) => if s.lock.None? then s.(lock := Some(Upload(size, Locked))) else s
    case CheckCount =>
      if s.lock.Some? && s.lock.value.stage == Locked
      then s.(lock := if CountAllowed(s) then Some(s.lock.value.(stage := CountChecked)) else None)
      else s
    case CheckBytes =>
      if s.lock.Some? && s.lock.value.stage == CountChecked
      then
        if BytesAllowed(s, s.lock.value.size)
        then s.(lock := Some(s.lock.value.(stage := BytesChecked)), requeuedBytes := 0)
        else s.(lock := None)
      else s
    case CommitUpload(now) =>
      if s.lock.Some? && s.lock.value.stage == BytesChecked
      then s.(videos := s.videos + [Video(s.lock.value.size, PendingUpload, None)],
              ledger := s.ledger + [Usage(|s.videos|, 1, now)],
              lock := None)
      else s
    case AbortUpload => s.(lock := None)
    case BeginCancel(tx, v) =>
      if tx !in s.releases && v < |s.videos| && s.videos[v].status == PendingUpload && !Busy(s, v)
      then Begin(s, tx, v, Cancelling) else s
    case BeginDelete(tx, v) =>
      if tx !in s.releases && v < |s.videos| && !Busy(s, v)
         && (s.videos[v].status == Failed || s.videos[v].status == PendingUpload)
      then Begin(s, tx, v, Deleting) else s
    case BeginCleanup(tx, v) => ApplyBeginCleanup(s, tx, v)
    case ReadNet(tx) =>
      if CanRead(s, tx)
      then s.(releases := s.releases[tx := s.releases[tx].(read := Some(Net(s.ledger, s.releases[tx].video)))])
      else s
    case FinishRelease(tx, now) => if CanFinish(s, tx) then ApplyFinish(s, tx, now) else s
    case AbortRelease(tx) => s.(releases := s.releases - {tx})
    case CompleteUpload(v, objectOk, jobId) =>
      if Exists(s, v) && s.videos[v].status == PendingUpload && objectOk
      then SetVideo(s, v, s.videos[v].(status := Queued, job := Some(Job(jobId, JobPending, None))))
      else s
    case CancelProcessing(v) =>
      if HasJob(s, v) && Working(s.videos[v].status) && s.videos[v].job.value.status == JobRunning
      then SetVideo(s, v, s.videos[v].(status := Failed, job := Some(s.videos[v].job.value.(status := JobFailed))))
      else s
    case Requeue(v, rawOk) =>
      if HasJob(s, v) && s.videos[v].status == Failed && s.videos[v].job.value.status == JobFailed && rawOk
      then
        var job := s.videos[v].job.value.(status := JobPending, task := None);
        var back := s.videos[v].(status := Queued, job := Some(job));
        SetVideo(s, v, back).(requeuedBytes := s.requeuedBytes + s.videos[v].size)
      else s
    case ClaimJob(v, task) =>
      if HasJob(s, v) && s.videos[v].job.value.status == JobPending then SetJob(s, v, JobRunning, task) else s
    case StartVideo(v) =>
      if HasJob(s, v) && Working(s.videos[v].status) then SetVideo(s, v, s.videos[v].(status := Processing)) else s
    case CompleteJob(v, task) =>
      if HasJob(s, v) && s.videos[v].job.value.status == JobRunning
         && (task.None? || s.videos[v].job.value.task == task)
      then SetJob(s, v, JobCompleted, s.videos[v].job.value.task) else s
    case FinishVideo(v) =>
      if HasJob(s, v) && s.videos[v].status == Processing
      then SetVideo(s, v, s.videos[v].(status := Processed)) else s
    case FailJob(v) =>
      if HasJob(s, v) && (s.videos[v].job.value.status == JobPending || s.videos[v].job.value.status == JobRunning)
      then SetJob(s, v, JobFailed, s.videos[v].job.value.task) else s
    case FailVideo(v, forced) =>
      if HasJob(s, v) && (forced || Working(s.videos[v].status))
      then SetVideo(s, v, s.videos[v].(status := Failed)) else s
    case ReleaseJob(v) =>
      if HasJob(s, v) && s.videos[v].job.value.status == JobRunning
      then SetJob(s, v, JobPending, s.videos[v].job.value.task) else s
    case RequeueVideo(v) =>
      if HasJob(s, v) && Working(s.videos[v].status) then SetVideo(s, v, s.videos[v].(status := Queued)) else s
  }

  function Run(s: State, es: seq<Event>): State
    decreases |es|
  {
    if es == [] then s else Run(Apply(s, es[0]), es[1..])
  }

  /** What `complete` answers. */
  datatype Reply = JobIs(id: nat) | NotFound | Conflict | Inconsistent | Refused

  function CompleteReply(s: State, v: nat, objectOk: bool, jobId: nat): Reply {
    if !Exists(s, v) then NotFound
    else if s.videos[v].status == PendingUpload then (if objectOk then JobIs(jobId) else Refused)
    else if s.videos[v].status == Failed then Conflict
    else if s.videos[v].job.Some? then JobIs(s.videos[v].job.value.id)
    else Inconsistent
  }

  // ----- Invariants -----

  /** A video is reserved once, when it is created. */
  ghost predicate NetsOk(videos: seq<Video>, ledger: seq<Usage>) {
    && (forall v: nat :: Net(ledger, v) <= 1)
    && (forall v: nat :: v >= |videos| ==> Net(ledger, v) == 0)
  }

  /** A working or processed video has its job; a pending or deleted one has none. */
  predicate RowOk(row: Video) {
    match row.status
    case PendingUpload => row.job.None?
    case Gone => row.job.None?
    case Failed => true
    case _ => row.job.Some?
  }

  ghost predicate JobsOk(videos: seq<Video>) {
    forall v :: 0 <= v < |videos| ==> RowOk(videos[v])
  }

  ghost predicate CountOk(s: State) {
    s.plan.maxVideos.Some? ==>
      var sum, limit := PeriodSum(s.ledger, s.plan.periodStart), s.plan.maxVideos.value;
      sum <= limit && (s.lock.Some? && s.lock.value.stage != Locked ==> sum < limit)
  }

  ghost predicate BytesOk(s: State) {
    s.plan.maxBytes.Some? ==>
      var pending := if s.lock.Some? && s.lock.value.stage == BytesChecked then s.lock.value.size else 0;
      BytesReserved(s.videos) + pending <= s.plan.maxBytes.value + s.requeuedBytes
  }

  /** What a transaction found when it began is still so, and nets have not risen since it read. */
  ghost predicate ReleaseOk(videos: seq<Video>, ledger: seq<Usage>, r: Releasing) {
    && r.video < |videos|
    && (match r.purpose
        case Cancelling => videos[r.video].status == PendingUpload
        case CleaningUp => videos[r.video].status == PendingUpload
        case Deleting => videos[r.video].status == PendingUpload || videos[r.video].status == Failed
        case LatePass => videos[r.video].status != PendingUpload)
    && (r.read.Some? ==> Net(ledger, r.video) <= r.read.value <= 1)
  }

  /** The row lock is exclusive. */
  ghost predicate LocksOk(releases: map<nat, Releasing>) {
    forall a, b :: a in releases && b in releases && a != b && Locks(releases[a]) && Locks(releases[b]) ==>
      releases[a].video != releases[b].video
  }

  ghost predicate ReleasesOk(s: State) {
    && LocksOk(s.releases)
    && forall tx :: tx in s.releases ==> ReleaseOk(s.videos, s.ledger, s.releases[tx])
  }

  ghost predicate Inv(s: State) {
    NetsOk(s.videos, s.ledger) && JobsOk(s.videos) && CountOk(s) && BytesOk(s) && ReleasesOk(s)
  }

  /** A video holds its slot while it has not failed, and after failing while it can be requeued. */
  predicate Holds(v: Video) {
    v.status != Gone && (v.status != Failed || v.job.Some?)
  }

  /** Ledger and lifecycle agree. */
  ghost predicate Agree(s: State) {
    forall v: nat :: v < |s.videos| ==> Net(s.ledger, v) == (if Holds(s.videos[v]) then 1 else 0)
  }

  predicate Fresh(s: State) {
    s.videos == [] && s.ledger == [] && s.lock.None? && s.releases == map[] && s.requeuedBytes == 0
  }

  // ----- Lemmas about the sums -----

  lemma NetOfAppend(ledger: seq<Usage>, u: Usage, video: nat)
    ensures Net(ledger + [u], video) == Net(ledger, video) + (if u.video == video then u.quantity else 0)
  {
    assert (ledger + [u])[..|ledger|] == ledger;
  }

  lemma PeriodSumOfAppend(ledger: seq<Usage>, u: Usage, start: int)
    ensures PeriodSum(ledger + [u], start) == PeriodSum(ledger, start) + (if u.at >= start then u.quantity else 0)
  {
    assert (ledger + [u])[..|ledger|] == ledger;
  }

  lemma BytesOfAppend(videos: seq<Video>, v: Video)
    ensures BytesReserved(videos + [v]) == BytesReserved(videos) + Bytes(v)
  {
    assert (videos + [v])[..|videos|] == videos;
  }

  lemma {:induction false} BytesOfUpdate(videos: seq<Video>, i: nat, v: Video)
    requires i < |videos|
    ensures BytesReserved(videos[i := v]) == BytesReserved(videos) - Bytes(videos[i]) + Bytes(v)
  {
    var n := |videos| - 1;
    if i == n {
      assert videos[i := v][..n] == videos[..n];
    } else {
      assert videos[i := v][..n] == videos[..n][i := v];
      BytesOfUpdate(videos[..n], i, v);
    }
  }

  // ----- Every step keeps the invariant -----

  lemma BeginKeepsInv(s: State, tx: nat, v: nat, purpose: Purpose)
    requires Inv(s) && tx !in s.releases && ReleaseOk(s.videos, s.ledger, Releasing(v, purpose, None))
    requires purpose != LatePass ==> !Busy(s, v)
    ensures Inv(Begin(s, tx, v, purpose))
  {
  }

  lemma ReadKeepsInv(s: State, tx: nat)
    requires Inv(s) && CanRead(s, tx)
    ensures Inv(Apply(s, ReadNet(tx)))
  {
  }

  /** Rewriting a row and adding ledger events, with fewer reserved bytes or the growth booked. */
  lemma RewriteKeepsBytes(s: State, v: nat, row: Video, requeued: nat)
    requires BytesOk(s) && v < |s.videos| && Bytes(row) <= Bytes(s.videos[v]) + requeued
    ensures BytesOk(s.(videos := s.videos[v := row], requeuedBytes := s.requeuedBytes + requeued))
  {
    BytesOfUpdate(s.videos, v, row);
  }

  /** What a commit does to the nets: one less for its video, if it read something reserved. */
  lemma FinishNets(s: State, tx: nat, now: int)
    requires CanFinish(s, tx)
    ensures var r := s.releases[tx];
      forall w: nat :: Net(ApplyFinish(s, tx, now).ledger, w)
        == Net(s.ledger, w) - (if w == r.video && r.read.value > 0 then 1 else 0)
  {
    forall w: nat { NetOfAppend(s.ledger, Usage(s.releases[tx].video, -1, now), w); }
  }

  /** A commit disturbs no other transaction: the only ones on the same video are late passes. */
  lemma OtherReleaseOk(videos: seq<Video>, ledger: seq<Usage>, ledger': seq<Usage>, r: Releasing, other: Releasing)
    requires ReleaseOk(videos, ledger, r) && ReleaseOk(videos, ledger, other)
    requires Locks(r) && Locks(other) ==> r.video != other.video
    requires Net(ledger', other.video) <= Net(ledger, other.video)
    ensures ReleaseOk(videos[r.video := Left(r.purpose, videos[r.video])], ledger', other)
  {
  }

  lemma FinishKeepsReleases(s: State, tx: nat, now: int)
    requires ReleasesOk(s) && CanFinish(s, tx)
    ensures ReleasesOk(ApplyFinish(s, tx, now))
  {
    var s' := ApplyFinish(s, tx, now);
    FinishNets(s, tx, now);
    forall other | other in s'.releases ensures ReleaseOk(s'.videos, s'.ledger, s'.releases[other]) {
      assert other in s.releases && other != tx;
      OtherReleaseOk(s.videos, s.ledger, s'.ledger, s.releases[tx], s.releases[other]);
    }
    assert LocksOk(s'.releases);
  }

  lemma FinishKeepsNets(s: State, tx: nat, now: int)
    requires NetsOk(s.videos, s.ledger) && CanFinish(s, tx)
    ensures NetsOk(ApplyFinish(s, tx, now).videos, ApplyFinish(s, tx, now).ledger)
  {
    FinishNets(s, tx, now);
  }

  lemma FinishKeepsCount(s: State, tx: nat, now: int)
    requires CountOk(s) && CanFinish(s, tx)
    ensures CountOk(ApplyFinish(s, tx, now))
  {
    PeriodSumOfAppend(s.ledger, Usage(s.releases[tx].video, -1, now), s.plan.periodStart);
  }

  lemma FinishKeepsBytes(s: State, tx: nat, now: int)
    requires BytesOk(s) && CanFinish(s, tx)
    ensures BytesOk(ApplyFinish(s, tx, now))
  {
    var r := s.releases[tx];
    BytesOfUpdate(s.videos, r.video, Left(r.purpose, s.videos[r.video]));
  }

  lemma FinishKeepsJobs(s: State, tx: nat, now: int)
    requires JobsOk(s.videos) && CanFinish(s, tx)
    ensures JobsOk(ApplyFinish(s, tx, now).videos)
  {
    assert RowOk(s.videos[s.releases[tx].video]);
  }

  /** A commit that gives a slot back keeps the invariant; the net it read need not be current. */
  lemma FinishKeepsInv(s: State, tx: nat, now: int)
    requires Inv(s) && CanFinish(s, tx)
    ensures Inv(ApplyFinish(s, tx, now))
  {
    FinishKeepsNets(s, tx, now);
    FinishKeepsCount(s, tx, now);
    FinishKeepsBytes(s, tx, now);
    FinishKeepsJobs(s, tx, now);
    FinishKeepsReleases(s, tx, now);
  }

  /** A row may be rewritten if it keeps its status, or if it is unlocked and does not become pending. */
  lemma SetVideoKeepsInv(s: State, v: nat, row: Video, requeued: nat)
    requires Inv(s) && v < |s.videos| && RowOk(row)
    requires row.status == s.videos[v].status || (!Busy(s, v) && row.status != PendingUpload)
    requires Bytes(row) <= Bytes(s.videos[v]) + requeued
    ensures Inv(SetVideo(s, v, row).(requeuedBytes := s.requeuedBytes + requeued))
  {
    RewriteKeepsBytes(s, v, row, requeued);
    var videos' := s.videos[v := row];
    forall tx | tx in s.releases ensures ReleaseOk(videos', s.ledger, s.releases[tx]) {
      assert ReleaseOk(s.videos, s.ledger, s.releases[tx]);
    }
  }

  lemma CommitKeepsNets(videos: seq<Video>, ledger: seq<Usage>, row: Video, now: int)
    requires NetsOk(videos, ledger)
    ensures NetsOk(videos + [row], ledger + [Usage(|videos|, 1, now)])
    ensures forall v: nat :: v < |videos| ==> Net(ledger + [Usage(|videos|, 1, now)], v) == Net(ledger, v)
  {
    forall w: nat { NetOfAppend(ledger, Usage(|videos|, 1, now), w); }
  }

  lemma CommitKeepsReleases(s: State, now: int)
    requires Inv(s) && s.lock.Some? && s.lock.value.stage == BytesChecked
    ensures ReleasesOk(Apply(s, CommitUpload(now)))
  {
    var s' := Apply(s, CommitUpload(now));
    CommitKeepsNets(s.videos, s.ledger, Video(s.lock.value.size, PendingUpload, None), now);
    forall tx | tx in s'.releases ensures ReleaseOk(s'.videos, s'.ledger, s'.releases[tx]) {
      assert ReleaseOk(s.videos, s.ledger, s.releases[tx]);
    }
  }

  lemma CommitKeepsInv(s: State, now: int)
    requires Inv(s) && s.lock.Some? && s.lock.value.stage == BytesChecked
    ensures Inv(Apply(s, CommitUpload(now)))
  {
    var s' := Apply(s, CommitUpload(now));
    var row := Video(s.lock.value.size, PendingUpload, None);
    assert NetsOk(s'.videos, s'.ledger) by { CommitKeepsNets(s.videos, s.ledger, row, now); }
    assert CountOk(s') by { PeriodSumOfAppend(s.ledger, Usage(|s.videos|, 1, now), s.plan.periodStart); }
    assert BytesOk(s') by { BytesOfAppend(s.videos, row); }
    CommitKeepsReleases(s, now);
  }

  /** Worker steps on the job alone. */
  predicate MovesJob(e: Event) {
    e.ClaimJob? || e.CompleteJob? || e.FailJob? || e.ReleaseJob?
  }

  lemma JobMoveShape(s: State, e: Event)
    requires MovesJob(e)
    ensures if HasJob(s, e.video)
            then var row := Apply(s, e).videos[e.video];
              && Apply(s, e) == SetVideo(s, e.video, row)
              && row.size == s.videos[e.video].size && row.status == s.videos[e.video].status && row.job.Some?
            else Apply(s, e) == s
  {
  }

  lemma JobMoveKeepsInv(s: State, e: Event)
    requires Inv(s) && MovesJob(e)
    ensures Inv(Apply(s, e))
  {
    JobMoveShape(s, e);
    if HasJob(s, e.video) {
      assert RowOk(s.videos[e.video]);
      SetVideoKeepsInv(s, e.video, Apply(s, e).videos[e.video], 0);
    }
  }

  lemma VideoMoveShape(s: State, e: Event)
    requires MovesVideo(e) && Apply(s, e) != s
    ensures e.video < |s.videos| && !Busy(s, e.video) && e.video < |Apply(s, e).videos|
    ensures var row := Apply(s, e).videos[e.video];
      && Apply(s, e) == SetVideo(s, e.video, row)
      && RowOk(row) && row.status != PendingUpload && Bytes(row) <= row.size == s.videos[e.video].size
      && (Bytes(s.videos[e.video]) == s.videos[e.video].size || Bytes(row) == 0)
  {
  }

  lemma VideoMoveKeepsInv(s: State, e: Event)
    requires Inv(s) && MovesVideo(e)
    ensures Inv(Apply(s, e))
  {
    if Apply(s, e) != s {
      VideoMoveShape(s, e);
      SetVideoKeepsInv(s, e.video, Apply(s, e).videos[e.video], 0);
    }
  }

  lemma RequeueKeepsInv(s: State, v: nat, rawOk: bool)
    requires Inv(s)
    ensures Inv(Apply(s, Requeue(v, rawOk)))
  {
    if HasJob(s, v) && Apply(s, Requeue(v, rawOk)) != s {
      var row := Apply(s, Requeue(v, rawOk)).videos[v];
      SetVideoKeepsInv(s, v, row, s.videos[v].size);
    }
  }

  predicate Begins(e: Event) {
    e.BeginCancel? || e.BeginDelete? || e.BeginCleanup?
  }

  lemma BeginStepKeepsInv(s: State, e: Event)
    requires Inv(s) && Begins(e)
    ensures Inv(Apply(s, e))
  {
    if e.tx !in s.releases && Apply(s, e) != s {
      BeginKeepsInv(s, e.tx, e.video, Apply(s, e).releases[e.tx].purpose);
    }
  }

  lemma StepKeepsInv(s: State, e: Event)
    requires Inv(s)
    ensures Inv(Apply(s, e))
  {
    if MovesJob(e) {
      JobMoveKeepsInv(s, e);
    } else if MovesVideo(e) {
      VideoMoveKeepsInv(s, e);
    } else if Begins(e) {
      BeginStepKeepsInv(s, e);
    } else {
      match e
      case CommitUpload(now) => if s.lock.Some? && s.lock.value.stage == BytesChecked { CommitKeepsInv(s, now); }
      case ReadNet(tx) => if CanRead(s, tx) { ReadKeepsInv(s, tx); }
      case FinishRelease(tx, now) => if CanFinish(s, tx) { FinishKeepsInv(s, tx, now); }
      case Requeue(v, rawOk) => RequeueKeepsInv(s, v, rawOk);
      case _ =>
    }
  }

  lemma {:induction false} RunKeepsInv(s: State, es: seq<Event>)
    requires Inv(s)
    ensures Inv(Run(s, es))
    decreases |es|
  {
    if es != [] {
      StepKeepsInv(s, es[0]);
      RunKeepsInv(Apply(s, es[0]), es[1..]);
    }
  }
}
