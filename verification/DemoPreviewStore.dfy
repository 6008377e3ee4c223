/** The preview functions as they rewrite the state file on disk. */
module DemoPreviewStore {
  import opened Common
  import opened DemoPreview

  class Store {
    const enabled: bool
    const timeout: nat
    var artifact: Option<int>
    var file: File

    ghost function Snapshot(): Disk
      reads this
    {
      Disk(enabled, timeout, artifact, file)
    }

    constructor (enabled: bool, timeout: nat)
      ensures Snapshot() == Disk(enabled, timeout, None, Missing)
    {
      this.enabled, this.timeout, artifact, file := enabled, timeout, None, Missing;
    }

    /** Whoever reads the file next gets back the state that was written. */
    method WriteState(p: Preview)
      modifies this`file
      ensures ReadFile(file) == Some(p)
      ensures Snapshot() == Settle(old(Snapshot()), p).1
    {
      FileRoundTrip(p);
      file := Written(p);
    }

    method ResolveState(now: int) returns (p: Preview)
      modifies this`file
      ensures (p, Snapshot()) == Resolve(old(Snapshot()), now)
    {
      if !enabled { return IDLE; }
      var stored := ReadFile(file);
      if stored.None? {
        if artifact.None? { return IDLE; }
        p := IDLE.(status := Completed, generatedAt := artifact);
        WriteState(p);
        return;
      }
      p := stored.value;
      if Stale(p, timeout, now) {
        p := p.(status := Failed, error := Some(STALE_MESSAGE));
        WriteState(p);
      }
      if p.status == Completed {
        if artifact.None? {
          p := p.(status := Failed, generatedAt := None, error := Some(MISSING_MESSAGE));
          WriteState(p);
          return;
        }
        if p.generatedAt != artifact {
          p := p.(generatedAt := artifact, error := None);
          WriteState(p);
        }
        return;
      }
      if p.status == Failed && artifact.Some? {
        p := p.(status := Completed, generatedAt := artifact, error := None);
        WriteState(p);
        return;
      }
      if artifact.Some? && p.generatedAt != artifact {
        p := p.(generatedAt := artifact);
      }
    }

    method SetRunning(now: int, task: string) returns (p: Preview)
      modifies this`file
      ensures (p, Snapshot()) == MarkRunning(old(Snapshot()), now, task)
    {
      var current := ResolveState(now);
      p := Preview(Running, Or(current.requestedAt, Some(now)), Some(now), current.generatedAt, Some(task), None);
      WriteState(p);
    }

    method SetQueued(now: int, task: Option<string>, generatedAt: Option<int>, requestedAt: Option<int>)
      returns (p: Preview)
      modifies this`file
      ensures (p, Snapshot()) == MarkQueued(old(Snapshot()), now, task, generatedAt, requestedAt)
    {
      var current := ResolveState(now);
      p := Preview(Queued, Or(requestedAt, Or(current.requestedAt, Some(now))), None,
                   Or(generatedAt, current.generatedAt), Or(task, current.taskId), None);
      WriteState(p);
    }

    method SetFailed(now: int, task: Option<string>, message: string) returns (p: Preview)
      modifies this`file
      ensures (p, Snapshot()) == MarkFailed(old(Snapshot()), now, task, message)
    {
      var current := ResolveState(now);
      p := Preview(Failed, current.requestedAt, current.startedAt, current.generatedAt,
                   Or(task, current.taskId), Some(message));
      WriteState(p);
    }

    method SetCompleted(now: int, task: Option<string>, generatedAt: int) returns (p: Preview)
      modifies this`file
      ensures (p, Snapshot()) == MarkCompleted(old(Snapshot()), now, task, generatedAt)
    {
      var current := ResolveState(now);
      p := Preview(Completed, current.requestedAt, Or(current.startedAt, Some(now)), Some(generatedAt),
                   Or(task, current.taskId), None);
      WriteState(p);
    }

    /** The queue request up to the enqueue, holding the queue lock. */
    method PrepareRequest(now: int) returns (result: Result<Ticket, Status>)
      modifies this`file
      ensures (result, Snapshot()) == PrepareQueue(old(Snapshot()), now)
    {
      var current := ResolveState(now);
      if current.status == Queued || current.status == Running { return Err(current.status); }
      var queued := SetQueued(now, None, artifact, Some(now));
      return Ok(Ticket(artifact, queued));
    }

    /** The rest of it, after the broker has answered or failed; a worker may have run meanwhile. */
    method ConfirmRequest(ticket: Ticket, now: int, sent: Option<string>) returns (outcome: Outcome)
      modifies this`file
      ensures (outcome, Snapshot()) == ConfirmQueue(old(Snapshot()), ticket, now, sent)
    {
      if sent.None? {
        if ticket.artifact.Some? {
          var restored := SetCompleted(now, ticket.queued.taskId, ticket.artifact.value);
        } else {
          var failed := SetFailed(now, ticket.queued.taskId, UNAVAILABLE_MESSAGE);
        }
        return WorkerUnavailable;
      }
      var confirmed := SetQueued(now, sent, ticket.artifact, ticket.queued.requestedAt);
      return Enqueued(sent.value);
    }
  }
}
