/**
 The demo-preview state of one video: a JSON state file, the artifact on disk, the reconciler that
 repairs the file against artifact and clock, the marks written by API and worker, and the queue
 request. Times are seconds; a time is stored as text.
 */
module DemoPreview {
  import opened Common
  import opened DecimalText

  datatype Status = Idle | Queued | Running | Completed | Failed

  datatype Preview = Preview(
    status: Status, requestedAt: Option<int>, startedAt: Option<int>, generatedAt: Option<int>,
    taskId: Option<string>, error: Option<string>)

  // ----- The state file -----

  datatype Field = Null | Text(text: string)

  datatype File =
    | Missing
    | Unreadable
    | Payload(status: Field, requestedAt: Field, startedAt: Field, generatedAt: Field, taskId: Field, error: Field)

  function StatusText(s: Status): string {
    match s
    case Idle => "idle"
    case Queued => "queued"
    case Running => "running"
    case Completed => "completed"
    case Failed => "failed"
  }

  function StatusFrom(f: Field): Option<Status> {
    if f == Text("idle") then Some(Idle)
    else if f == Text("queued") then Some(Queued)
    else if f == Text("running") then Some(Running)
    else if f == Text("completed") then Some(Completed)
    else if f == Text("failed") then Some(Failed)
    else None
  }

  function TimeField(t: Option<int>): Field { if t.None? then Null else Text(Show(t.value)) }

  function TimeFrom(f: Field): Option<int> { if f.Null? then None else Read(f.text) }

  function TextField(t: Option<string>): Field { if t.None? then Null else Text(t.value) }

  function TextFrom(f: Field): Option<string> { if f.Null? then None else Some(f.text) }

  function Written(p: Preview): File {
    Payload(Text(StatusText(p.status)), TimeField(p.requestedAt), TimeField(p.startedAt), TimeField(p.generatedAt),
            TextField(p.taskId), TextField(p.error))
  }

  function ReadFile(f: File): Option<Preview> {
    if !f.Payload? || StatusFrom(f.status).None? then None
    else Some(Preview(StatusFrom(f.status).value,
                      TimeFrom(f.requestedAt), TimeFrom(f.startedAt), TimeFrom(f.generatedAt),
                      TextFrom(f.taskId), TextFrom(f.error)))
  }

  lemma StatusRoundTrip(s: Status)
    ensures StatusFrom(Text(StatusText(s))) == Some(s)
  {
    assert "idle"[0] == 'i' && "queued"[0] == 'q' && "running"[0] == 'r' && "completed"[0] == 'c' && "failed"[0] == 'f';
  }

  lemma TimeRoundTrip(t: Option<int>)
    ensures TimeFrom(TimeField(t)) == t
  {
    if t.Some? { ReadShow(t.value); }
  }

  /** What is written is read back unchanged. */
  lemma FileRoundTrip(p: Preview)
    ensures ReadFile(Written(p)) == Some(p)
  {
    var f := Written(p);
    assert StatusFrom(f.status) == Some(p.status) by { StatusRoundTrip(p.status); }
    assert TimeFrom(f.requestedAt) == p.requestedAt by { TimeRoundTrip(p.requestedAt); }
    assert TimeFrom(f.startedAt) == p.startedAt by { TimeRoundTrip(p.startedAt); }
    assert TimeFrom(f.generatedAt) == p.generatedAt by { TimeRoundTrip(p.generatedAt); }
  }

  // ----- Reconciling -----

  const STALE_MESSAGE := "Local demo preview job became stale before finishing"
  const MISSING_MESSAGE := "Local demo preview artifact is missing after completion"
  const IDLE := Preview(Idle, None, None, None, None, None)

  /** Settings, the artifact's generation time if there is one, and the state file. */
  datatype Disk = Disk(enabled: bool, timeout: nat, artifact: Option<int>, file: File)

  predicate Pending(s: Status) { s == Queued || s == Running }

  predicate Stale(p: Preview, timeout: nat, now: int) {
    Pending(p.status) &&
    var reference := if p.startedAt.Some? then p.startedAt else p.requestedAt;
    reference.None? || now - reference.value > timeout + 60
  }

  function Settle(d: Disk, p: Preview): (Preview, Disk) {
    (p, d.(file := Written(p)))
  }

  /** A stale job counts as failed from here on, and the file says so. */
  function Expire(d: Disk, p: Preview, now: int): (Preview, Disk) {
    if Stale(p, d.timeout, now) then Settle(d, p.(status := Failed, error := Some(STALE_MESSAGE))) else (p, d)
  }

  function Reconcile(d: Disk, p: Preview): (Preview, Disk) {
    if p.status == Completed && d.artifact.None?
    then Settle(d, p.(status := Failed, generatedAt := None, error := Some(MISSING_MESSAGE)))
    else if p.status == Completed
    then (if p.generatedAt != d.artifact then Settle(d, p.(generatedAt := d.artifact, error := None)) else (p, d))
    else if p.status == Failed && d.artifact.Some?
    then Settle(d, p.(status := Completed, generatedAt := d.artifact, error := None))
    else if d.artifact.Some? then (p.(generatedAt := d.artifact), d)
    else (p, d)
  }

  /** What becomes of the state that was read, if one was. */
  function ResolveFrom(d: Disk, stored: Option<Preview>, now: int): (Preview, Disk) {
    match stored
    case None =>
      if d.artifact.None? then (IDLE, d) else Settle(d, IDLE.(status := Completed, generatedAt := d.artifact))
    case Some(p) =>
      var (p', d') := Expire(d, p, now);
      Reconcile(d', p')
  }

  function Resolve(d: Disk, now: int): (Preview, Disk) {
    if !d.enabled then (IDLE, d) else ResolveFrom(d, ReadFile(d.file), now)
  }

  /** What the status means: completed has its artifact, failed has none, pending is not stale. */
  ghost predicate Normal(p: Preview, d: Disk, now: int) {
    match p.status
    case Completed => d.artifact.Some? && p.generatedAt == d.artifact
    case Failed => d.artifact.None?
    case Idle => true
    case _ => !Stale(p, d.timeout, now) && (d.artifact.Some? ==> p.generatedAt == d.artifact)
  }

  /** Whatever the file holds, the reconciler ends in normal form and touches nothing but the file. */
  lemma ResolveIsNormal(d: Disk, now: int)
    ensures var (p, d') := Resolve(d, now);
      Normal(p, d', now) && d' == d.(file := d'.file)
  {
  }

  /** The reconciler leaves the file alone or writes its answer, and answers idle only to idle. */
  lemma ResolveWrites(d: Disk, now: int)
    requires d.enabled
    ensures var (p, d') := Resolve(d, now);
      && (d'.file == d.file || (p.status != Idle && d' == Settle(d, p).1))
      && (p.status == Idle <==>
            if ReadFile(d.file).Some? then ReadFile(d.file).value.status == Idle else d.artifact.None?)
  {
  }

  /** A readable state in normal form is left as it is. */
  lemma NormalIsFixed(d: Disk, p: Preview, now: int)
    requires d.enabled && ReadFile(d.file) == Some(p) && p.status != Idle && Normal(p, d, now)
    ensures Resolve(d, now) == (p, d)
  {
  }

  /** Resolving again, with clock and artifact unchanged, changes nothing and answers the same. */
  lemma ResolveIsIdempotent(d: Disk, now: int)
    ensures var (p, d') := Resolve(d, now); Resolve(d', now) == (p, d')
  {
    if d.enabled {
      var (p, d') := Resolve(d, now);
      ResolveIsNormal(d, now);
      ResolveWrites(d, now);
      if d'.file != d.file {
        FileRoundTrip(p);
        NormalIsFixed(d', p, now);
      }
    }
  }

  // ----- Marks -----

  function Or<T>(a: Option<T>, b: Option<T>): Option<T> { if a.Some? then a else b }

  function MarkRunning(d: Disk, now: int, task: string): (Preview, Disk) {
    var (current, d') := Resolve(d, now);
    Settle(d', Preview(Running, Or(current.requestedAt, Some(now)), Some(now), current.generatedAt, Some(task), None))
  }

  function MarkQueued(d: Disk, now: int, task: Option<string>, generatedAt: Option<int>, requestedAt: Option<int>)
    : (Preview, Disk)
  {
    var (current, d') := Resolve(d, now);
    Settle(d', Preview(Queued, Or(requestedAt, Or(current.requestedAt, Some(now))), None,
                       Or(generatedAt, current.generatedAt), Or(task, current.taskId), None))
  }

  function MarkFailed(d: Disk, now: int, task: Option<string>, message: string): (Preview, Disk) {
    var (current, d') := Resolve(d, now);
    Settle(d', Preview(Failed, current.requestedAt, current.startedAt, current.generatedAt,
                       Or(task, current.taskId), Some(message)))
  }

  function MarkCompleted(d: Disk, now: int, task: Option<string>, generatedAt: int): (Preview, Disk) {
    var (current, d') := Resolve(d, now);
    Settle(d', Preview(Completed, current.requestedAt, Or(current.startedAt, Some(now)), Some(generatedAt),
                       Or(task, current.taskId), None))
  }

  /** The status that an artifact, or its absence, decides. */
  function Settled(artifact: Option<int>): Status { if artifact.Some? then Completed else Failed }

  lemma SettledFrom(d: Disk, p: Preview, later: int)
    requires p.status == Failed || p.status == Completed
    ensures ResolveFrom(d, Some(p), later).0.status == Settled(d.artifact)
  {
  }

  /** A state marked failed or completed is settled by the artifact. */
  lemma SettledByArtifact(d: Disk, p: Preview, later: int)
    requires d.enabled && d.file == Written(p) && (p.status == Failed || p.status == Completed)
    ensures Resolve(d, later).0.status == Settled(d.artifact)
  {
    FileRoundTrip(p);
    SettledFrom(d, p, later);
  }

  /** A failure mark never hides an artifact that exists, and a completion mark never invents one. */
  lemma MarksCannotContradictTheArtifact(
      d: Disk, now: int, task: Option<string>, message: string, generatedAt: int, later: int)
    requires d.enabled
    ensures Resolve(MarkFailed(d, now, task, message).1, later).0.status == Settled(d.artifact)
    ensures Resolve(MarkCompleted(d, now, task, generatedAt).1, later).0.status == Settled(d.artifact)
  {
    ResolveIsNormal(d, now);
    SettledByArtifact(MarkFailed(d, now, task, message).1, MarkFailed(d, now, task, message).0, later);
    SettledByArtifact(MarkCompleted(d, now, task, generatedAt).1, MarkCompleted(d, now, task, generatedAt).0, later);
  }

  // ----- Runs -----

  datatype Event =
    | Resolved(now: int)
    | MarkedRunning(now: int, worker: string)
    | MarkedQueued(now: int, task: Option<string>, generatedAt: Option<int>, requestedAt: Option<int>)
    | MarkedFailed(now: int, task: Option<string>, message: string)
    | MarkedCompleted(now: int, task: Option<string>, finishedAt: int)
    | ArtifactChanged(artifact: Option<int>)
    | DirectoryRemoved

  function Apply(d: Disk, e: Event): Disk {
    match e
    case Resolved(now) => Resolve(d, now).1
    case MarkedRunning(now, task) => MarkRunning(d, now, task).1
    case MarkedQueued(now, task, generatedAt, requestedAt) => MarkQueued(d, now, task, generatedAt, requestedAt).1
    case MarkedFailed(now, task, message) => MarkFailed(d, now, task, message).1
    case MarkedCompleted(now, task, generatedAt) => MarkCompleted(d, now, task, generatedAt).1
    case ArtifactChanged(artifact) => d.(artifact := artifact)
    case DirectoryRemoved => d.(artifact := None, file := Missing)
  }

  function Run(d: Disk, es: seq<Event>): Disk
    decreases |es|
  {
    if es == [] then d else Run(Apply(d, es[0]), es[1..])
  }

  /** The file is absent, or readable with a status other than idle, which no writer here writes. */
  predicate OwnFile(f: File) {
    f.Missing? || (ReadFile(f).Some? && ReadFile(f).value.status != Idle)
  }

  lemma SettleOwns(d: Disk, p: Preview)
    requires p.status != Idle
    ensures OwnFile(Settle(d, p).1.file)
  {
    FileRoundTrip(p);
  }

  lemma ResolveOwns(d: Disk, now: int)
    requires OwnFile(d.file)
    ensures OwnFile(Resolve(d, now).1.file)
    ensures d.enabled ==> (Resolve(d, now).0.status == Idle <==> d.artifact.None? && d.file.Missing?)
  {
    if d.enabled {
      ResolveWrites(d, now);
      if Resolve(d, now).0.status != Idle { SettleOwns(d, Resolve(d, now).0); }
    }
  }

  lemma StepKeepsOwnFile(d: Disk, e: Event)
    requires OwnFile(d.file)
    ensures OwnFile(Apply(d, e).file)
  {
    match e
    case Resolved(now) => ResolveOwns(d, now);
    case MarkedRunning(now, task) => SettleOwns(d, MarkRunning(d, now, task).0);
    case MarkedQueued(now, task, g, r) => SettleOwns(d, MarkQueued(d, now, task, g, r).0);
    case MarkedFailed(now, task, m) => SettleOwns(d, MarkFailed(d, now, task, m).0);
    case MarkedCompleted(now, task, g) => SettleOwns(d, MarkCompleted(d, now, task, g).0);
    case ArtifactChanged(_) =>
    case DirectoryRemoved =>
  }

  lemma StepKeepsSettings(d: Disk, e: Event)
    ensures Apply(d, e).enabled == d.enabled && Apply(d, e).timeout == d.timeout
  {
    if !e.ArtifactChanged? && !e.DirectoryRemoved? { ResolveIsNormal(d, e.now); }
  }

  lemma {:induction false} RunKeepsOwnFile(d: Disk, es: seq<Event>)
    requires OwnFile(d.file)
    ensures OwnFile(Run(d, es).file) && Run(d, es).enabled == d.enabled && Run(d, es).timeout == d.timeout
    decreases |es|
  {
    if es != [] {
      StepKeepsOwnFile(d, es[0]);
      StepKeepsSettings(d, es[0]);
      RunKeepsOwnFile(Apply(d, es[0]), es[1..]);
    }
  }

  /** After any sequence of marks, resolves and artifact changes, the answer is in normal form, and
      "idle" means that there is neither an artifact nor a file. */
  lemma ReachableAnswers(d: Disk, es: seq<Event>, now: int)
    requires d.enabled && OwnFile(d.file)
    ensures var s := Run(d, es);
      var (p, s') := Resolve(s, now);
      Normal(p, s', now) && (p.status == Idle <==> s.artifact.None? && s.file.Missing?)
  {
    RunKeepsOwnFile(d, es);
    ResolveIsNormal(Run(d, es), now);
    ResolveOwns(Run(d, es), now);
  }

  // ----- Details -----

  /** Where previews are switched off, the answer is idle and empty, and nothing is written. */
  lemma DisabledIsIdle(d: Disk, now: int)
    requires !d.enabled
    ensures Resolve(d, now) == (Preview(Idle, None, None, None, None, None), d)
  {
  }

  /** What a settled preview says: a stale one without an artifact and a completed one that lost its
      artifact say why they failed, a completed one says nothing and has the artifact's time. */
  lemma SettledSays(d: Disk, p: Preview, now: int)
    requires d.enabled && ReadFile(d.file) == Some(p)
    ensures var q := Resolve(d, now).0;
      && (Stale(p, d.timeout, now) && d.artifact.None? ==>
            q == p.(status := Failed, error := Some("Local demo preview job became stale before finishing")))
      && (p.status == Completed && d.artifact.None? ==>
            q == p.(status := Failed, generatedAt := None,
                    error := Some("Local demo preview artifact is missing after completion")))
      && (d.artifact.Some? && (p.status == Failed || Stale(p, d.timeout, now)) ==>
            q == p.(status := Completed, generatedAt := d.artifact, error := None))
      && (d.artifact.Some? && p.status == Completed ==>
            q == if p.generatedAt == d.artifact then p else p.(generatedAt := d.artifact, error := None))
  {
  }

  /** A file is read exactly if it holds one of the five statuses. */
  lemma ReadableIff(f: File)
    ensures ReadFile(f).Some? <==>
      f.Payload? && f.status in {Text("idle"), Text("queued"), Text("running"), Text("completed"), Text("failed")}
  {
  }

  /** What the marks write where there was nothing. */
  lemma FirstMarks(d: Disk, now: int, task: string, message: string, generatedAt: int)
    requires d.file.Missing? && d.artifact.None?
    ensures MarkQueued(d, now, None, None, None).0 == Preview(Queued, Some(now), None, None, None, None)
    ensures MarkRunning(d, now, task).0 == Preview(Running, Some(now), Some(now), None, Some(task), None)
    ensures MarkFailed(d, now, Some(task), message).0 == Preview(Failed, None, None, None, Some(task), Some(message))
    ensures MarkCompleted(d, now, Some(task), generatedAt).0
         == Preview(Completed, None, Some(now), Some(generatedAt), Some(task), None)
  {
  }

  /** The artifact changes without the file; removing the directory takes both, and leaves idle. */
  lemma ChangesOnDisk(d: Disk, artifact: Option<int>, now: int)
    ensures Apply(d, ArtifactChanged(artifact)) == Disk(d.enabled, d.timeout, artifact, d.file)
    ensures Resolve(Apply(d, DirectoryRemoved), now) == (IDLE, Disk(d.enabled, d.timeout, None, Missing))
  {
  }

  lemma {:induction false} RunOneMore(d: Disk, es: seq<Event>, e: Event)
    ensures Run(d, es + [e]) == Apply(Run(d, es), e)
    decreases |es|
  {
    if es == [] {
      assert [e][1..] == [] && [] + [e] == [e];
    } else {
      assert (es + [e])[1..] == es[1..] + [e];
      RunOneMore(Apply(d, es[0]), es[1..], e);
    }
  }

  /** Stale means queued or running with no time to count from, or one more than timeout + 60 seconds ago;
      a start counts before the request. */
  lemma StaleIff(p: Preview, timeout: nat, now: int)
    ensures Stale(p, timeout, now) <==>
      && (p.status == Queued || p.status == Running)
      && (if p.startedAt.Some? then now > p.startedAt.value + timeout + 60
          else p.requestedAt.Some? ==> now > p.requestedAt.value + timeout + 60)
  {
  }

  // ----- Polls and artifact changes -----

  /** Nothing is marked or removed: status polls up to a given time, and changes of the artifact. */
  predicate Quiet(es: seq<Event>, later: int) {
    forall i :: 0 <= i < |es| ==> es[i].ArtifactChanged? || (es[i].Resolved? && es[i].now <= later)
  }

  predicate Live(p: Preview, timeout: nat, now: int) {
    Pending(p.status) && !Stale(p, timeout, now)
  }

  /** What a poll leaves behind: a live state as it is, and otherwise a failed or completed one. */
  lemma PollFrom(d: Disk, p: Preview, now: int) returns (q: Preview)
    requires p.status != Idle
    ensures var d' := ResolveFrom(d, Some(p), now).1;
      && d' == d.(file := d'.file)
      && (if Live(p, d.timeout, now) then q == p && d' == d else q.status == Failed || q.status == Completed)
      && (d'.file == Written(q) || (d' == d && q == p))
  {
    var expired := Expire(d, p, now);
    var (answer, d') := Reconcile(expired.1, expired.0);
    q := if d'.file == expired.1.file then expired.0 else answer;
  }

  lemma Poll(d: Disk, p: Preview, now: int) returns (q: Preview)
    requires d.enabled && ReadFile(d.file) == Some(p) && p.status != Idle
    ensures var d' := Resolve(d, now).1;
      && d' == d.(file := d'.file) && ReadFile(d'.file) == Some(q)
      && (if Live(p, d.timeout, now) then q == p else q.status == Failed || q.status == Completed)
  {
    q := PollFrom(d, p, now);
    FileRoundTrip(q);
  }

  lemma AnswerFrom(d: Disk, p: Preview, later: int)
    requires p.status != Idle
    ensures ResolveFrom(d, Some(p), later).0.status
         == if Live(p, d.timeout, later) then p.status else Settled(d.artifact)
  {
  }

  /** A state is answered as it is until it goes stale, and from then on as the artifact says, however
      often it is polled and however the artifact changes meanwhile. */
  lemma {:induction false} QuietAnswer(d: Disk, p: Preview, es: seq<Event>, later: int)
    requires d.enabled && ReadFile(d.file) == Some(p) && p.status != Idle && Quiet(es, later)
    ensures Resolve(Run(d, es), later).0.status
         == if Live(p, d.timeout, later) then p.status else Settled(Run(d, es).artifact)
    decreases |es|
  {
    if es == [] {
      AnswerFrom(d, p, later);
    } else if es[0].ArtifactChanged? {
      QuietAnswer(Apply(d, es[0]), p, es[1..], later);
    } else {
      var q := Poll(d, p, es[0].now);
      QuietAnswer(Apply(d, es[0]), q, es[1..], later);
    }
  }

  /** A preview marked running and not marked again is reported running for exactly timeout + 60 seconds;
      after that it is settled by the artifact. */
  lemma RunningSettles(d: Disk, now: int, task: string, after: seq<Event>, later: int)
    requires d.enabled && Quiet(after, later)
    ensures var s := Run(MarkRunning(d, now, task).1, after);
      Resolve(s, later).0.status == if later - now <= d.timeout + 60 then Running else Settled(s.artifact)
  {
    var (p, d') := MarkRunning(d, now, task);
    ResolveIsNormal(d, now);
    FileRoundTrip(p);
    QuietAnswer(d', p, after, later);
  }

  // ----- Queueing a preview -----

  const UNAVAILABLE_MESSAGE := "Unable to enqueue the local demo preview worker task"

  datatype Outcome = AlreadyPending(status: Status) | Enqueued(task: string) | WorkerUnavailable

  /** What a request carries across the enqueue: the artifact it saw and the state it wrote. */
  datatype Ticket = Ticket(artifact: Option<int>, queued: Preview)

  /** The request up to the enqueue, made under the queue lock. */
  function PrepareQueue(d: Disk, now: int): (Result<Ticket, Status>, Disk) {
    var (current, d1) := Resolve(d, now);
    if Pending(current.status) then (Err(current.status), d1)
    else
      var (queued, d2) := MarkQueued(d1, now, None, d1.artifact, Some(now));
      (Ok(Ticket(d1.artifact, queued)), d2)
  }

  /** The rest of the request. `sent` is the broker's answer, if it answers. */
  function ConfirmQueue(d: Disk, ticket: Ticket, now: int, sent: Option<string>): (Outcome, Disk) {
    if sent.Some? then (Enqueued(sent.value), MarkQueued(d, now, sent, ticket.artifact, ticket.queued.requestedAt).1)
    else if ticket.artifact.Some?
    then (WorkerUnavailable, MarkCompleted(d, now, ticket.queued.taskId, ticket.artifact.value).1)
    else (WorkerUnavailable, MarkFailed(d, now, ticket.queued.taskId, UNAVAILABLE_MESSAGE).1)
  }

  /** The whole request. The worker does not take the queue lock, so it may mark the preview running, or
      even finish it, between the enqueue and the confirmation. */
  function QueueRequest(d: Disk, now: int, sent: Option<string>, between: seq<Event>, confirmedAt: int)
    : (Outcome, Disk)
  {
    match PrepareQueue(d, now)
    case (Err(status), d1) => (AlreadyPending(status), d1)
    case (Ok(ticket), d1) => ConfirmQueue(Run(d1, between), ticket, confirmedAt, sent)
  }

  lemma {:induction false} RunKeepsSettings(d: Disk, es: seq<Event>)
    ensures Run(d, es).enabled == d.enabled && Run(d, es).timeout == d.timeout
    decreases |es|
  {
    if es != [] {
      StepKeepsSettings(d, es[0]);
      RunKeepsSettings(Apply(d, es[0]), es[1..]);
    }
  }

  lemma PrepareKeepsDisk(d: Disk, now: int)
    ensures var (result, d') := PrepareQueue(d, now);
      && d' == d.(file := d'.file)
      && (result.Ok? ==> result.value.artifact == d.artifact && result.value.queued.requestedAt == Some(now))
  {
    var d1 := Resolve(d, now).1;
    ResolveIsNormal(d, now);
    ResolveIsNormal(d1, now);
  }

  /** The file a successful request leaves behind, whatever the worker did meanwhile. */
  lemma QueueRequestWrites(d: Disk, now: int, task: string, between: seq<Event>, confirmedAt: int) returns (p: Preview)
    requires d.enabled && QueueRequest(d, now, Some(task), between, confirmedAt).0.Enqueued?
    ensures var d' := QueueRequest(d, now, Some(task), between, confirmedAt).1;
      && d'.enabled && d'.timeout == d.timeout && d'.artifact == Run(PrepareQueue(d, now).1, between).artifact
      && d'.file == Written(p)
      && p.status == Queued && p.requestedAt == Some(now) && p.startedAt.None? && p.taskId == Some(task)
  {
    var (result, d1) := PrepareQueue(d, now);
    PrepareKeepsDisk(d, now);
    var d2 := Run(d1, between);
    RunKeepsSettings(d1, between);
    ResolveIsNormal(d2, confirmedAt);
    p := MarkQueued(d2, confirmedAt, Some(task), result.value.artifact, result.value.queued.requestedAt).0;
  }

  /** After a successful request, if nothing is marked after it, the preview is reported queued for exactly
      timeout + 60 seconds, even if the worker had finished it before the request's last write; from then
      on it is settled by the artifact. */
  lemma QueuedSettles(
      d: Disk, now: int, task: string, between: seq<Event>, confirmedAt: int, after: seq<Event>, later: int)
    requires d.enabled && QueueRequest(d, now, Some(task), between, confirmedAt).0.Enqueued? && Quiet(after, later)
    ensures var s := Run(QueueRequest(d, now, Some(task), between, confirmedAt).1, after);
      Resolve(s, later).0.status == if later - now <= d.timeout + 60 then Queued else Settled(s.artifact)
  {
    var p := QueueRequestWrites(d, now, task, between, confirmedAt);
    FileRoundTrip(p);
    QuietAnswer(QueueRequest(d, now, Some(task), between, confirmedAt).1, p, after, later);
  }

  /** A request is refused exactly when the preview is reported pending. */
  lemma RefusedIff(d: Disk, now: int, sent: Option<string>, between: seq<Event>, confirmedAt: int)
    ensures var status := Resolve(d, now).0.status;
      var outcome := QueueRequest(d, now, sent, between, confirmedAt).0;
      if Pending(status) then outcome == AlreadyPending(status)
      else outcome == if sent.Some? then Enqueued(sent.value) else WorkerUnavailable
  {
  }

  /** After a success, if nothing is marked after it, the next request enqueues nothing exactly until the
      job goes stale. */
  lemma OneTaskAtATime(
      d: Disk, now: int, task: string, between: seq<Event>, confirmedAt: int, after: seq<Event>,
      later: int, sent: Option<string>, between': seq<Event>, confirmedAt': int)
    requires d.enabled && QueueRequest(d, now, Some(task), between, confirmedAt).0.Enqueued? && Quiet(after, later)
    ensures var s := Run(QueueRequest(d, now, Some(task), between, confirmedAt).1, after);
      QueueRequest(s, later, sent, between', confirmedAt').0
      == if later - now <= d.timeout + 60 then AlreadyPending(Queued)
         else if sent.Some? then Enqueued(sent.value) else WorkerUnavailable
  {
    QueuedSettles(d, now, task, between, confirmedAt, after, later);
    var s := Run(QueueRequest(d, now, Some(task), between, confirmedAt).1, after);
    RefusedIff(s, later, sent, between', confirmedAt');
  }

  lemma QueuedIsLive(d: Disk, now: int)
    requires d.enabled && PrepareQueue(d, now).0.Ok?
    ensures var (result, d1) := PrepareQueue(d, now);
      var q := result.value.queued;
      && ReadFile(d1.file) == Some(q) && q.requestedAt == Some(now) && Live(q, d1.timeout, now)
      && d1 == d.(file := d1.file)
  {
    PrepareKeepsDisk(d, now);
    FileRoundTrip(PrepareQueue(d, now).0.value.queued);
  }

  /** Without an artifact, a failed enqueue says so; with one, nothing is said and its time is kept. */
  lemma FailedEnqueueSays(d: Disk, now: int, later: int)
    requires d.enabled && QueueRequest(d, now, None, [], now).0.WorkerUnavailable?
    ensures var p := Resolve(QueueRequest(d, now, None, [], now).1, later).0;
      && p.error == (if d.artifact.Some? then None else Some("Unable to enqueue the local demo preview worker task"))
      && (d.artifact.Some? ==> p.generatedAt == d.artifact) && p.requestedAt == Some(now)
  {
    var (result, d1) := PrepareQueue(d, now);
    QueuedIsLive(d, now);
    PrepareKeepsDisk(d, now);
    var q := result.value.queued;
    if d.artifact.Some? {
      FinishedWith(d1, q, now, q.taskId, d.artifact.value, later);
    } else {
      FailingWith(d1, q, now, q.taskId, UNAVAILABLE_MESSAGE, later);
    }
  }

  // ----- The last mark decides -----

  predicate Marks(e: Event) { !e.Resolved? && !e.ArtifactChanged? }

  /** From when a mark counts as pending, if it does. */
  function PendingSince(d: Disk, e: Event): Option<int> {
    match e
    case MarkedRunning(now, _) => Some(now)
    case MarkedQueued(now, task, generatedAt, requestedAt) =>
      MarkQueued(d, now, task, generatedAt, requestedAt).0.requestedAt
    case _ => None
  }

  /** What the request after a mark is told, at a given time. */
  function NextOutcome(d: Disk, mark: Event, later: int, sent: Option<string>): Outcome {
    var since := PendingSince(d, mark);
    if since.Some? && later - since.value <= d.timeout + 60
    then AlreadyPending(if mark.MarkedRunning? then Running else Queued)
    else if sent.Some? then Enqueued(sent.value) else WorkerUnavailable
  }

  lemma MarkWrites(d: Disk, mark: Event) returns (p: Preview)
    requires d.enabled && Marks(mark) && !mark.DirectoryRemoved?
    ensures var d' := Apply(d, mark);
      && d'.enabled && d'.timeout == d.timeout && ReadFile(d'.file) == Some(p) && p.status != Idle
      && forall later :: Live(p, d.timeout, later) <==>
           PendingSince(d, mark).Some? && later - PendingSince(d, mark).value <= d.timeout + 60
    ensures p.status == Running <==> mark.MarkedRunning?
    ensures p.status == Queued <==> mark.MarkedQueued?
  {
    StepKeepsSettings(d, mark);
    match mark
    case MarkedRunning(now, task) => p := MarkRunning(d, now, task).0; FileRoundTrip(p);
    case MarkedQueued(now, task, g, r) => p := MarkQueued(d, now, task, g, r).0; FileRoundTrip(p);
    case MarkedFailed(now, task, m) => p := MarkFailed(d, now, task, m).0; FileRoundTrip(p);
    case MarkedCompleted(now, task, g) => p := MarkCompleted(d, now, task, g).0; FileRoundTrip(p);
  }

  /** Without a file the preview is not pending, however it is polled. */
  lemma {:induction false} QuietMissing(d: Disk, es: seq<Event>, later: int)
    requires d.enabled && d.file.Missing? && Quiet(es, later)
    ensures !Pending(Resolve(Run(d, es), later).0.status)
    decreases |es|
  {
    if es != [] {
      var d' := Apply(d, es[0]);
      if d'.file.Missing? {
        QuietMissing(d', es[1..], later);
      } else {
        var p := IDLE.(status := Completed, generatedAt := d.artifact);
        FileRoundTrip(p);
        QuietAnswer(d', p, es[1..], later);
      }
    }
  }

  /** Whatever happened before, the last mark decides: the next request is refused exactly while a running
      or queued mark is not stale, and enqueues at once after a completed or failed mark and after the
      directory was removed. */
  lemma RequestAfterMark(
      d: Disk, mark: Event, after: seq<Event>, later: int, sent: Option<string>, between: seq<Event>, confirmedAt: int)
    requires d.enabled && Marks(mark) && Quiet(after, later)
    ensures QueueRequest(Run(Apply(d, mark), after), later, sent, between, confirmedAt).0
         == NextOutcome(d, mark, later, sent)
  {
    RefusedIff(Run(Apply(d, mark), after), later, sent, between, confirmedAt);
    if mark.DirectoryRemoved? {
      QuietMissing(Apply(d, mark), after, later);
    } else {
      var p := MarkWrites(d, mark);
      QuietAnswer(Apply(d, mark), p, after, later);
    }
  }

  /** If the broker cannot be reached, the video is left as its artifact says. */
  lemma FailedEnqueueRestores(d: Disk, now: int, between: seq<Event>, confirmedAt: int, later: int)
    requires d.enabled && QueueRequest(d, now, None, between, confirmedAt).0.WorkerUnavailable?
    ensures var d' := QueueRequest(d, now, None, between, confirmedAt).1;
      Resolve(d', later).0.status == Settled(d'.artifact)
  {
    var (result, d1) := PrepareQueue(d, now);
    PrepareKeepsDisk(d, now);
    var d2 := Run(d1, between);
    RunKeepsSettings(d1, between);
    ResolveIsNormal(d2, confirmedAt);
    var task := result.value.queued.taskId;
    var generatedAt := if result.value.artifact.Some? then result.value.artifact.value else 0;
    MarksCannotContradictTheArtifact(d2, confirmedAt, task, UNAVAILABLE_MESSAGE, generatedAt, later);
  }

  // ----- The story of a preview -----

  /** A live state is answered as it is, with the artifact's time if there is one. */
  lemma LiveIs(d: Disk, p: Preview, now: int)
    requires d.enabled && ReadFile(d.file) == Some(p) && Live(p, d.timeout, now)
    ensures Resolve(d, now) == (p.(generatedAt := if d.artifact.Some? then d.artifact else p.generatedAt), d)
  {
  }

  /** A worker that takes up a live preview keeps its request and writes its own start and task. */
  lemma TakenUp(d: Disk, p: Preview, start: int, task: string) returns (q: Preview)
    requires d.enabled && ReadFile(d.file) == Some(p) && Live(p, d.timeout, start) && p.requestedAt.Some?
    ensures var d' := MarkRunning(d, start, task).1;
      && d' == d.(file := d'.file) && ReadFile(d'.file) == Some(q)
      && q == Preview(Running, p.requestedAt, Some(start), q.generatedAt, Some(task), None)
  {
    LiveIs(d, p, start);
    q := MarkRunning(d, start, task).0;
    FileRoundTrip(q);
  }

  /** Finishing a live preview keeps request, start and task, and says nothing of errors. */
  lemma FinishedWith(d: Disk, p: Preview, done: int, task: Option<string>, artifact: int, later: int)
    requires d.enabled && ReadFile(d.file) == Some(p) && Live(p, d.timeout, done) && d.artifact == Some(artifact)
    ensures Resolve(MarkCompleted(d, done, task, artifact).1, later).0
         == Preview(Completed, p.requestedAt, Or(p.startedAt, Some(done)), Some(artifact), Or(task, p.taskId), None)
  {
    LiveIs(d, p, done);
    FileRoundTrip(MarkCompleted(d, done, task, artifact).0);
  }

  /** Failing one without an artifact keeps them too, and the message. */
  lemma FailingWith(d: Disk, p: Preview, done: int, task: Option<string>, message: string, later: int)
    requires d.enabled && ReadFile(d.file) == Some(p) && Live(p, d.timeout, done) && d.artifact.None?
    ensures Resolve(MarkFailed(d, done, task, message).1, later).0
         == Preview(Failed, p.requestedAt, p.startedAt, p.generatedAt, Or(task, p.taskId), Some(message))
  {
    LiveIs(d, p, done);
    FileRoundTrip(MarkFailed(d, done, task, message).0);
  }

  /** Requested, taken up by a worker in time, finished: the preview keeps the time of its request, has the
      times of its start and of its artifact, the worker's task, and no error. */
  lemma RequestedToFinished(
      d: Disk, now: int, sent: string, start: int, task: string, done: int, artifact: int, later: int)
    requires d.enabled && QueueRequest(d, now, Some(sent), [], now).0.Enqueued?
    requires start <= now + d.timeout + 60 && done <= start + d.timeout + 60
    ensures var queued := QueueRequest(d, now, Some(sent), [], now).1;
      var running := MarkRunning(queued, start, task).1.(artifact := Some(artifact));
      Resolve(MarkCompleted(running, done, None, artifact).1, later).0
      == Preview(Completed, Some(now), Some(start), Some(artifact), Some(task), None)
  {
    var p := QueueRequestWrites(d, now, sent, [], now);
    var queued := QueueRequest(d, now, Some(sent), [], now).1;
    FileRoundTrip(p);
    var q := TakenUp(queued, p, start, task);
    FinishedWith(MarkRunning(queued, start, task).1.(artifact := Some(artifact)), q, done, None, artifact, later);
  }

  /** Requested, taken up, failed: it keeps the times and the task, and says why. */
  lemma RequestedToFailed(
      d: Disk, now: int, sent: string, start: int, task: string, done: int, message: string, later: int)
    requires d.enabled && d.artifact.None? && QueueRequest(d, now, Some(sent), [], now).0.Enqueued?
    requires start <= now + d.timeout + 60 && done <= start + d.timeout + 60
    ensures var queued := QueueRequest(d, now, Some(sent), [], now).1;
      var running := MarkRunning(queued, start, task).1;
      var p := Resolve(MarkFailed(running, done, None, message).1, later).0;
      p == Preview(Failed, Some(now), Some(start), p.generatedAt, Some(task), Some(message))
  {
    var p := QueueRequestWrites(d, now, sent, [], now);
    PrepareKeepsDisk(d, now);
    var queued := QueueRequest(d, now, Some(sent), [], now).1;
    FileRoundTrip(p);
    var q := TakenUp(queued, p, start, task);
    FailingWith(MarkRunning(queued, start, task).1, q, done, None, message, later);
  }
}
