/**
 The job dispatcher: a pass takes a snapshot of pending jobs that no worker has been told about,
 publishes each, and records the task id with a compare-and-set. Passes may overlap with each other
 and with requests and workers that move the same jobs.
 */
module JobDispatch {
  import opened Common
  import opened Sorting

  datatype JobStatus = Pending | Running | Completed | Failed | Removed

  /** Two history counters: `epoch` counts the requeues of the job, and `opening` the claims without a
      task id since the last requeue, each of which wipes the recorded task. */
  datatype Job = Job(status: JobStatus, task: Option<nat>, createdAt: int, epoch: nat, opening: nat)

  /** A pass in progress: what is left of its snapshot, the task it just published, what it will return. */
  datatype Pass = Pass(todo: seq<nat>, sent: Option<nat>, dispatched: seq<nat>)

  datatype Entry = Entry(job: nat, epoch: nat, opening: nat, task: nat, pass: nat)

  datatype State = State(jobs: seq<Job>, passes: seq<Pass>, log: seq<Entry>)

  datatype Step =
    // the dispatcher
    | Snapshot(cutoff: int, limit: nat)
    | Publish(pass: nat, answer: Option<nat>)
    | RecordTask(pass: nat)
    // everybody else
    | AddJob(createdAt: int)
    | RemoveJob(job: nat)
    | Claim(job: nat, task: Option<nat>)
    | Complete(job: nat)
    | Fail(job: nat)
    | ReleaseForRetry(job: nat)
    | Requeue(job: nat)

  predicate Undispatched(jobs: seq<Job>, j: nat) {
    j < |jobs| && jobs[j].status == Pending && jobs[j].task.None?
  }

  function Waiting(jobs: seq<Job>, n: nat, cutoff: int): seq<nat> {
    if n == 0 then []
    else Waiting(jobs, n - 1, cutoff)
         + (if Undispatched(jobs, n - 1) && jobs[n - 1].createdAt <= cutoff then [n - 1] else [])
  }

  function CreatedAt(jobs: seq<Job>, j: nat): int { if j < |jobs| then jobs[j].createdAt else 0 }

  function Older(jobs: seq<Job>): (nat, nat) -> bool {
    (a: nat, b: nat) => CreatedAt(jobs, a) < CreatedAt(jobs, b)
  }

  /** The snapshot query: oldest first, at most `limit`. */
  function Picked(jobs: seq<Job>, cutoff: int, limit: nat): seq<nat> {
    var all := Sort(Older(jobs), Waiting(jobs, |jobs|, cutoff));
    all[..Min(limit, |all|)]
  }

  function SetJob(s: State, j: nat, job: Job): State
    requires j < |s.jobs|
  {
    s.(jobs := s.jobs[j := job])
  }

  predicate InState(s: State, j: nat, status: JobStatus) {
    j < |s.jobs| && s.jobs[j].status == status
  }

  /** The compare-and-set: only a job still pending and undispatched takes the task id. */
  function ApplyRecord(s: State, p: nat): State
    requires p < |s.passes| && s.passes[p].sent.Some? && s.passes[p].todo != []
  {
    var pass := s.passes[p];
    var j := pass.todo[0];
    var moved := pass.(todo := pass.todo[1..], sent := None);
    if Undispatched(s.jobs, j)
    then State(s.jobs[j := s.jobs[j].(task := pass.sent)],
               s.passes[p := moved.(dispatched := pass.dispatched + [j])],
               s.log + [Entry(j, s.jobs[j].epoch, s.jobs[j].opening, pass.sent.value, p)])
    else s.(passes := s.passes[p := moved])
  }

  /** The claim writes the worker's task id, or none if the worker has none. */
  function Claimed(job: Job, task: Option<nat>): Job {
    job.(status := Running, task := task, opening := job.opening + if task.None? then 1 else 0)
  }

  function Next(s: State, step: Step): State {
    match step
    case Snapshot(cutoff, limit) => s.(passes := s.passes + [Pass(Picked(s.jobs, cutoff, limit), None, [])])
    case Publish(p, answer) =>
      if p >= |s.passes| || s.passes[p].todo == [] || s.passes[p].sent.Some? then s
      else if answer.None? then s.(passes := s.passes[p := s.passes[p].(todo := s.passes[p].todo[1..])])
      else s.(passes := s.passes[p := s.passes[p].(sent := answer)])
    case RecordTask(p) =>
      if p >= |s.passes| || s.passes[p].todo == [] || s.passes[p].sent.None? then s else ApplyRecord(s, p)
    case AddJob(createdAt) => s.(jobs := s.jobs + [Job(Pending, None, createdAt, 0, 0)])
    case RemoveJob(j) => if j < |s.jobs| then SetJob(s, j, s.jobs[j].(status := Removed)) else s
    case Claim(j, task) => if InState(s, j, Pending) then SetJob(s, j, Claimed(s.jobs[j], task)) else s
    case Complete(j) => if InState(s, j, Running) then SetJob(s, j, s.jobs[j].(status := Completed)) else s
    case Fail(j) =>
      if InState(s, j, Pending) || InState(s, j, Running) then SetJob(s, j, s.jobs[j].(status := Failed)) else s
    case ReleaseForRetry(j) => if InState(s, j, Running) then SetJob(s, j, s.jobs[j].(status := Pending)) else s
    case Requeue(j) =>
      if InState(s, j, Failed)
      then SetJob(s, j, s.jobs[j].(status := Pending, task := None, epoch := s.jobs[j].epoch + 1, opening := 0))
      else s
  }

  function Run(s: State, steps: seq<Step>): State
    decreases |steps|
  {
    if steps == [] then s else Run(Next(s, steps[0]), steps[1..])
  }

  predicate Initial(s: State) { s.jobs == [] && s.passes == [] && s.log == [] }

  // ----- Invariant -----

  function Returned(log: seq<Entry>, p: nat): seq<nat> {
    if log == [] then []
    else
      var last := log[|log| - 1];
      Returned(log[..|log| - 1], p) + (if last.pass == p then [last.job] else [])
  }

  ghost predicate PassOk(s: State, p: nat)
    requires p < |s.passes|
  {
    var pass := s.passes[p];
    && NoRepeats(pass.todo) && NoRepeats(pass.dispatched)
    && (forall j :: j in pass.todo ==> j !in pass.dispatched)
    && pass.dispatched == Returned(s.log, p)
  }

  /** A job dispatched since it was last opened is closed to the compare-and-set. */
  ghost predicate EntryOk(s: State, e: Entry) {
    && e.job < |s.jobs| && e.epoch <= s.jobs[e.job].epoch && e.pass < |s.passes|
    && (e.epoch == s.jobs[e.job].epoch ==> e.opening <= s.jobs[e.job].opening)
    && (e.epoch == s.jobs[e.job].epoch && e.opening == s.jobs[e.job].opening ==>
          s.jobs[e.job].task.Some? || s.jobs[e.job].status == Removed)
  }

  /** Between two records of a job in one epoch it was opened again by a claim without a task id. */
  ghost predicate OncePerOpening(log: seq<Entry>) {
    forall a, b :: 0 <= a < b < |log| && log[a].job == log[b].job && log[a].epoch == log[b].epoch ==>
      log[a].opening < log[b].opening
  }

  ghost predicate OncePerEpoch(log: seq<Entry>) {
    forall a, b :: 0 <= a < b < |log| ==> !(log[a].job == log[b].job && log[a].epoch == log[b].epoch)
  }

  ghost predicate Inv(s: State) {
    && (forall p :: 0 <= p < |s.passes| ==> PassOk(s, p))
    && (forall i :: 0 <= i < |s.log| ==> EntryOk(s, s.log[i]))
    && OncePerOpening(s.log)
  }

  lemma {:induction false} WaitingDistinct(jobs: seq<Job>, n: nat, cutoff: int)
    ensures NoRepeats(Waiting(jobs, n, cutoff))
    ensures forall j :: j in Waiting(jobs, n, cutoff) ==> j < n && Undispatched(jobs, j) && jobs[j].createdAt <= cutoff
  {
    if n > 0 { WaitingDistinct(jobs, n - 1, cutoff); }
  }

  /** A snapshot holds each job once, and only jobs that are pending and undispatched. */
  lemma PickedDistinct(jobs: seq<Job>, cutoff: int, limit: nat)
    ensures NoRepeats(Picked(jobs, cutoff, limit))
    ensures forall j :: j in Picked(jobs, cutoff, limit) ==> Undispatched(jobs, j) && jobs[j].createdAt <= cutoff
  {
    WaitingDistinct(jobs, |jobs|, cutoff);
    SortPermutes(Older(jobs), Waiting(jobs, |jobs|, cutoff));
    var all := Sort(Older(jobs), Waiting(jobs, |jobs|, cutoff));
    forall j | j in Picked(jobs, cutoff, limit) ensures j in all { }
  }

  lemma {:induction false} WaitingComplete(jobs: seq<Job>, n: nat, cutoff: int, j: nat)
    requires j < n && Undispatched(jobs, j) && jobs[j].createdAt <= cutoff
    ensures j in Waiting(jobs, n, cutoff)
  {
    if j < n - 1 { WaitingComplete(jobs, n - 1, cutoff, j); }
  }

  /** A snapshot is oldest first and as long as the limit allows: if it holds fewer jobs than the limit it
      holds every pending undispatched job up to the cutoff, and none that it leaves out is older than one
      it holds. */
  lemma PickedOldestFirst(jobs: seq<Job>, cutoff: int, limit: nat)
    ensures var picked := Picked(jobs, cutoff, limit);
      && |picked| <= limit
      && (forall a, b :: 0 <= a < b < |picked| ==>
            CreatedAt(jobs, picked[a]) <= CreatedAt(jobs, picked[b]))
      && (forall j: nat :: && j < |jobs| && jobs[j].status == Pending && jobs[j].task.None?
                           && jobs[j].createdAt <= cutoff && j !in picked ==>
            |picked| == limit && forall a :: 0 <= a < |picked| ==> CreatedAt(jobs, picked[a]) <= jobs[j].createdAt)
  {
    var waiting := Waiting(jobs, |jobs|, cutoff);
    var all := Sort(Older(jobs), waiting);
    var n := Min(limit, |all|);
    assert StrictWeak(Older(jobs));
    SortSorts(Older(jobs), waiting);
    SortPermutes(Older(jobs), waiting);
    forall a, b | 0 <= a < b < |all| ensures CreatedAt(jobs, all[a]) <= CreatedAt(jobs, all[b]) {
      assert !Older(jobs)(all[b], all[a]);
    }
    assert forall i :: 0 <= i < n ==> all[..n][i] == all[i] && all[i] in all[..n];
    forall j: nat | && j < |jobs| && jobs[j].status == Pending && jobs[j].task.None?
                    && jobs[j].createdAt <= cutoff && j !in all[..n]
      ensures n == limit && forall a :: 0 <= a < n ==> CreatedAt(jobs, all[a]) <= jobs[j].createdAt
    {
      WaitingComplete(jobs, |jobs|, cutoff, j);
      var k :| 0 <= k < |all| && all[k] == j;
    }
  }

  lemma {:induction false} ReturnedOfFreshPass(log: seq<Entry>, p: nat)
    requires forall i :: 0 <= i < |log| ==> log[i].pass < p
    ensures Returned(log, p) == []
  {
    if log != [] { ReturnedOfFreshPass(log[..|log| - 1], p); }
  }

  lemma SnapshotKeepsInv(s: State, cutoff: int, limit: nat)
    requires Inv(s)
    ensures Inv(Next(s, Snapshot(cutoff, limit)))
  {
    var s' := Next(s, Snapshot(cutoff, limit));
    PickedDistinct(s.jobs, cutoff, limit);
    ReturnedOfFreshPass(s.log, |s.passes|);
    forall p | 0 <= p < |s'.passes| ensures PassOk(s', p) {
      if p < |s.passes| { assert PassOk(s, p); }
    }
    forall i | 0 <= i < |s'.log| ensures EntryOk(s', s'.log[i]) { assert EntryOk(s, s.log[i]); }
  }

  lemma PublishKeepsInv(s: State, p: nat, answer: Option<nat>)
    requires Inv(s)
    ensures Inv(Next(s, Publish(p, answer)))
  {
    var s' := Next(s, Publish(p, answer));
    forall q | 0 <= q < |s'.passes| ensures PassOk(s', q) { assert PassOk(s, q); }
    forall i | 0 <= i < |s'.log| ensures EntryOk(s', s'.log[i]) { assert EntryOk(s, s.log[i]); }
  }

  lemma RecordKeepsInv(s: State, p: nat)
    requires Inv(s) && p < |s.passes| && s.passes[p].sent.Some? && s.passes[p].todo != []
    ensures Inv(ApplyRecord(s, p))
  {
    var s' := ApplyRecord(s, p);
    var j := s.passes[p].todo[0];
    forall q | 0 <= q < |s'.passes| ensures PassOk(s', q) {
      assert PassOk(s, q);
      assert j in s.passes[p].todo;
      assert Undispatched(s.jobs, j) ==> s'.log[..|s.log|] == s.log;
    }
    forall i | 0 <= i < |s'.log| ensures EntryOk(s', s'.log[i]) {
      if i < |s.log| { assert EntryOk(s, s.log[i]); }
    }
    if Undispatched(s.jobs, j) {
      forall a | 0 <= a < |s.log| && s.log[a].job == j && s.log[a].epoch == s.jobs[j].epoch
        ensures s.log[a].opening < s.jobs[j].opening
      {
        assert EntryOk(s, s.log[a]);
      }
    }
  }

  lemma OthersKeepInv(s: State, step: Step)
    requires Inv(s) && !step.Snapshot? && !step.Publish? && !step.RecordTask?
    ensures Inv(Next(s, step))
  {
    var s' := Next(s, step);
    forall q | 0 <= q < |s'.passes| ensures PassOk(s', q) { assert PassOk(s, q); }
    forall i | 0 <= i < |s'.log| ensures EntryOk(s', s'.log[i]) { assert EntryOk(s, s.log[i]); }
  }

  lemma StepKeepsInv(s: State, step: Step)
    requires Inv(s)
    ensures Inv(Next(s, step))
  {
    match step
    case Snapshot(cutoff, limit) => SnapshotKeepsInv(s, cutoff, limit);
    case Publish(p, answer) => PublishKeepsInv(s, p, answer);
    case RecordTask(p) =>
      if p < |s.passes| && s.passes[p].sent.Some? && s.passes[p].todo != [] { RecordKeepsInv(s, p); }
    case _ => OthersKeepInv(s, step);
  }

  lemma {:induction false} RunKeepsInv(s: State, steps: seq<Step>)
    requires Inv(s)
    ensures Inv(Run(s, steps))
    decreases |steps|
  {
    if steps != [] {
      StepKeepsInv(s, steps[0]);
      RunKeepsInv(Next(s, steps[0]), steps[1..]);
    }
  }

  // ----- Results -----

  /** Workers run by the broker claim under their own task id. */
  predicate ClaimsNamed(steps: seq<Step>) {
    forall i :: 0 <= i < |steps| && steps[i].Claim? ==> steps[i].task.Some?
  }

  ghost predicate NeverReopened(s: State) {
    && (forall j :: 0 <= j < |s.jobs| ==> s.jobs[j].opening == 0)
    && (forall i :: 0 <= i < |s.log| ==> s.log[i].opening == 0)
  }

  lemma {:induction false} NamedClaimsReopenNothing(s: State, steps: seq<Step>)
    requires NeverReopened(s) && ClaimsNamed(steps)
    ensures NeverReopened(Run(s, steps))
    decreases |steps|
  {
    if steps != [] { NamedClaimsReopenNothing(Next(s, steps[0]), steps[1..]); }
  }

  lemma NeverReopenedOncePerEpoch(s: State)
    requires OncePerOpening(s.log) && NeverReopened(s)
    ensures OncePerEpoch(s.log)
  {
    forall a, b | 0 <= a < b < |s.log| ensures !(s.log[a].job == s.log[b].job && s.log[a].epoch == s.log[b].epoch) {
      assert s.log[a].opening == 0 && s.log[b].opening == 0;
    }
  }

  /** However passes overlap with each other and with workers and requests: two task ids are recorded for
      one job between requeues only if a worker claimed it without a task id in between, so never where
      claims are named; no pass returns a job twice, and it returns exactly what it recorded. */
  lemma DispatchedOncePerEpoch(s: State, steps: seq<Step>)
    requires Initial(s)
    ensures var s' := Run(s, steps);
      && OncePerOpening(s'.log) && (ClaimsNamed(steps) ==> OncePerEpoch(s'.log))
      && forall p :: 0 <= p < |s'.passes| ==>
           NoRepeats(s'.passes[p].dispatched) && s'.passes[p].dispatched == Returned(s'.log, p)
  {
    RunKeepsInv(s, steps);
    var s' := Run(s, steps);
    if ClaimsNamed(steps) {
      NamedClaimsReopenNothing(s, steps);
      NeverReopenedOncePerEpoch(s');
    }
    forall p | 0 <= p < |s'.passes|
      ensures NoRepeats(s'.passes[p].dispatched) && s'.passes[p].dispatched == Returned(s'.log, p)
    {
      assert PassOk(s', p);
    }
  }

  /** Only the dispatcher's record step writes the log, and only for a job that is pending and
      undispatched at that moment; the job then carries the published task id. */
  lemma RecordedWhileUndispatched(s: State, step: Step)
    requires Next(s, step).log != s.log
    ensures step.RecordTask? && |Next(s, step).log| == |s.log| + 1
    ensures var e := Next(s, step).log[|s.log|];
      && Undispatched(s.jobs, e.job) && e.epoch == s.jobs[e.job].epoch
      && Next(s, step).jobs == s.jobs[e.job := s.jobs[e.job].(task := Some(e.task))]
      && step.pass < |s.passes|
      && Next(s, step).passes[step.pass].dispatched == s.passes[step.pass].dispatched + [e.job]
  {
  }

  /** What moves a job: claims take pending jobs and write their task id, completing and releasing take
      running ones, failing takes either, requeueing takes failed ones and clears the task id. */
  lemma JobSteps(s: State, step: Step, j: nat)
    requires j < |s.jobs| && !step.RecordTask?
    ensures var job, job' := s.jobs[j], Next(s, step).jobs[j];
      job' == match step
              case Claim(k, task) =>
                if k == j && job.status == Pending
                then Job(Running, task, job.createdAt, job.epoch,
                         if task.None? then job.opening + 1 else job.opening)
                else job
              case Complete(k) => if k == j && job.status == Running then job.(status := Completed) else job
              case Fail(k) =>
                if k == j && job.status in {Pending, Running} then job.(status := Failed) else job
              case ReleaseForRetry(k) => if k == j && job.status == Running then job.(status := Pending) else job
              case Requeue(k) =>
                if k == j && job.status == Failed then Job(Pending, None, job.createdAt, job.epoch + 1, 0) else job
              case RemoveJob(k) => if k == j then job.(status := Removed) else job
              case _ => job
  {
  }

  predicate HasNext(s: State, p: nat) { p < |s.passes| && s.passes[p].todo != [] }

  /** What moves a pass: a snapshot opens one, a refused publication skips its next job, an answered one
      holds the task id until it is recorded, and recording goes on to the next job either way. */
  lemma PassSteps(s: State, step: Step)
    ensures step.Snapshot? ==>
      Next(s, step).passes == s.passes + [Pass(Picked(s.jobs, step.cutoff, step.limit), None, [])]
    ensures step.Publish? && HasNext(s, step.pass) && s.passes[step.pass].sent.None? ==>
      var p := s.passes[step.pass];
      Next(s, step).passes[step.pass] == if step.answer.Some? then p.(sent := step.answer) else p.(todo := p.todo[1..])
    ensures step.RecordTask? && HasNext(s, step.pass) && s.passes[step.pass].sent.Some? ==>
      var p, p' := s.passes[step.pass], Next(s, step).passes[step.pass];
      && p'.todo == p.todo[1..] && p'.sent.None?
      && (Undispatched(s.jobs, p.todo[0]) <==> |Next(s, step).log| == |s.log| + 1)
      && p'.dispatched == if Undispatched(s.jobs, p.todo[0]) then p.dispatched + [p.todo[0]] else p.dispatched
    ensures step.AddJob? ==> Next(s, step).jobs == s.jobs + [Job(Pending, None, step.createdAt, 0, 0)]
  {
  }

  lemma {:induction false} RunOneMore(s: State, steps: seq<Step>, step: Step)
    ensures Run(s, steps + [step]) == Next(Run(s, steps), step)
    decreases |steps|
  {
    if steps == [] {
      assert [step][1..] == [] && [] + [step] == [step];
    } else {
      assert (steps + [step])[1..] == steps[1..] + [step];
      RunOneMore(Next(s, steps[0]), steps[1..], step);
    }
  }

  // ----- Claims without a task id -----

  ghost predicate DispatchedNow(s: State, j: nat)
    requires j < |s.jobs|
  {
    exists i :: 0 <= i < |s.log| && s.log[i].job == j && s.log[i].epoch == s.jobs[j].epoch
  }

  /** Every job dispatched in its current epoch is closed to the compare-and-set. */
  ghost predicate Closed(s: State) {
    forall j :: 0 <= j < |s.jobs| && DispatchedNow(s, j) ==> s.jobs[j].task.Some? || s.jobs[j].status == Removed
  }

  /** A claim keeps dispatched jobs closed exactly when it names its task, or has no effect, or the job
      was not dispatched. */
  lemma ClaimKeepsClosedIff(s: State, j: nat, task: Option<nat>)
    requires Closed(s)
    ensures Closed(Next(s, Claim(j, task))) <==> task.Some? || !InState(s, j, Pending) || !DispatchedNow(s, j)
  {
    var s' := Next(s, Claim(j, task));
    forall k | 0 <= k < |s.jobs| ensures DispatchedNow(s', k) == DispatchedNow(s, k) {
      assert s'.log == s.log && s'.jobs[k].epoch == s.jobs[k].epoch;
    }
  }

  /** What an open job leads to: a claim without a task id, a release for retry, and a pass that had
      already published the job records a second task id in the same epoch. */
  lemma UnnamedClaimDispatchesTwice(s: State, j: nat, p: nat)
    requires InState(s, j, Pending) && DispatchedNow(s, j)
    requires p < |s.passes| && s.passes[p].sent.Some? && s.passes[p].todo != [] && s.passes[p].todo[0] == j
    ensures var s' := Next(Next(Next(s, Claim(j, None)), ReleaseForRetry(j)), RecordTask(p));
      !OncePerEpoch(s'.log) && s'.passes[p].dispatched == s.passes[p].dispatched + [j]
  {
    var i :| 0 <= i < |s.log| && s.log[i].job == j && s.log[i].epoch == s.jobs[j].epoch;
    var s2 := Next(Next(s, Claim(j, None)), ReleaseForRetry(j));
    assert Undispatched(s2.jobs, j) && s2.jobs[j].epoch == s.jobs[j].epoch && s2.log == s.log && s2.passes == s.passes;
    var s' := Next(s2, RecordTask(p));
    assert s'.log[i] == s.log[i] && s'.log[|s.log|].job == j && s'.log[|s.log|].epoch == s.jobs[j].epoch;
  }

  // ----- One pass, undisturbed -----

  /** The jobs of the snapshot whose publication is answered, in order. */
  function Answered(ids: seq<nat>, enqueue: nat -> Option<nat>): seq<nat> {
    if ids == [] then []
    else
      var j := ids[|ids| - 1];
      Answered(ids[..|ids| - 1], enqueue) + (if enqueue(j).Some? then [j] else [])
  }

  lemma {:induction false} AnsweredContents(ids: seq<nat>, enqueue: nat -> Option<nat>, j: nat)
    ensures j in Answered(ids, enqueue) <==> j in ids && enqueue(j).Some?
  {
    if ids != [] {
      var n := |ids| - 1;
      AnsweredContents(ids[..n], enqueue, j);
      assert ids == ids[..n] + [ids[n]];
    }
  }

  class JobTable {
    var jobs: seq<Job>

    constructor (jobs: seq<Job>)
      ensures this.jobs == jobs
    {
      this.jobs := jobs;
    }

    /** Undisturbed, a pass returns every job of its snapshot that the broker took, in snapshot order;
        exactly those jobs now carry their task id and nothing else changed. */
    method DispatchPendingJobs(cutoff: int, limit: nat, enqueue: nat -> Option<nat>) returns (dispatched: seq<nat>)
      modifies this
      ensures dispatched == Answered(Picked(old(jobs), cutoff, limit), enqueue)
      ensures |jobs| == |old(jobs)|
      ensures forall j :: 0 <= j < |jobs| ==>
        jobs[j] == if j in dispatched then old(jobs)[j].(task := enqueue(j)) else old(jobs)[j]
    {
      var rows := Picked(jobs, cutoff, limit);
      PickedDistinct(jobs, cutoff, limit);
      forall k | 0 <= k < |rows| ensures Undispatched(jobs, rows[k]) { assert rows[k] in rows; }
      dispatched := [];
      var i := 0;
      while i < |rows|
        invariant i <= |rows| && |jobs| == |old(jobs)|
        invariant forall k :: 0 <= k < |rows| ==> Undispatched(old(jobs), rows[k])
        invariant dispatched == Answered(rows[..i], enqueue)
        invariant forall j :: 0 <= j < |jobs| ==>
          jobs[j] == if j in dispatched then old(jobs)[j].(task := enqueue(j)) else old(jobs)[j]
      {
        var j := rows[i];
        assert rows[..i + 1] == rows[..i] + [j];
        AnsweredContents(rows[..i], enqueue, j);
        assert j !in rows[..i];
        i := i + 1;
        var task := enqueue(j);
        if task.None? { continue; }
        if jobs[j].status != Pending || jobs[j].task.Some? { continue; }
        jobs := jobs[j := jobs[j].(task := task)];
        dispatched := dispatched + [j];
      }
      assert rows[..i] == rows;
    }
  }
}
