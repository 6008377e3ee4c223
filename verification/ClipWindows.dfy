/**
 Coach review windows: how a requested window is resolved, stored, read back and handed to the clip
 engine.
 */
module ClipWindows {
  import opened Common
  import opened ClipProposals

  const DEFAULT_PRE_MS := 4000
  const DEFAULT_POST_MS := 6000
  const MAX_REVIEW_WINDOW_MS := 60000

  /** The integer entries of an event's metadata; anything else counts as absent. */
  datatype Metadata = Metadata(start: Option<int>, end: Option<int>, pre: Option<int>, post: Option<int>)

  datatype Row = Row(event: ClipEvent, clipStart: Option<int>, clipEnd: Option<int>, metadata: Metadata)

  function DurationMs(seconds: Option<real>): Option<int> {
    if seconds.None? || seconds.value == 0.0 then None else Some(Truncate(seconds.value * 1000.0))
  }

  function ClampTime(value: int, duration: Option<int>): int {
    var v := Max(0, value);
    if duration.Some? then Min(v, duration.value) else v
  }

  datatype WindowError = OneSided | Empty | EventOutside | TooLong

  function ResolveWindow(time: int, duration: Option<int>, start: Option<int>, end: Option<int>)
    : Result<(int, int), WindowError>
  {
    if start.None? != end.None? then Err(OneSided)
    else
      var a := ClampTime(if start.None? then Max(0, time - DEFAULT_PRE_MS) else start.value, duration);
      var b := ClampTime(if end.None? then time + DEFAULT_POST_MS else end.value, duration);
      if a >= b then Err(Empty)
      else if !(a <= time <= b) then Err(EventOutside)
      else if b - a > MAX_REVIEW_WINDOW_MS then Err(TooLong)
      else Ok((a, b))
  }

  function WindowFromEvent(row: Row, duration: Option<int>): (int, int) {
    if row.clipStart.Some? && row.clipEnd.Some?
    then (ClampTime(row.clipStart.value, duration), ClampTime(row.clipEnd.value, duration))
    else if row.metadata.start.Some? && row.metadata.end.Some?
    then (ClampTime(row.metadata.start.value, duration), ClampTime(row.metadata.end.value, duration))
    else
      var pre := if row.metadata.pre.Some? then row.metadata.pre.value else DEFAULT_PRE_MS;
      var post := if row.metadata.post.Some? then row.metadata.post.value else DEFAULT_POST_MS;
      var start := ClampTime(row.event.time - pre, duration);
      var end := ClampTime(row.event.time + post, duration);
      (start, if end <= start then ClampTime(start + 1000, duration) else end)
  }

  /** The event handed to the clip engine: a stored window overrides the metadata's distances. */
  function ClipEventFromRow(row: Row, duration: Option<int>): ClipEvent {
    if row.clipStart.Some? && row.clipEnd.Some?
    then
      var (start, end) := WindowFromEvent(row, duration);
      row.event.(pre := Some(row.event.time - start), post := Some(end - row.event.time))
    else row.event.(pre := row.metadata.pre, post := row.metadata.post)
  }

  // ----- Accepted windows -----

  predicate InVideo(time: int, duration: Option<int>) {
    0 <= time && (duration.Some? ==> time <= duration.value)
  }

  /** A window a coach may ask for, in so many words. */
  predicate Proper(time: int, duration: Option<int>, a: int, b: int) {
    && 0 <= a <= time <= b && a < b && b - a <= MAX_REVIEW_WINDOW_MS
    && (duration.Some? ==> b <= duration.value)
  }

  /** The default window is accepted for every event time in the video, unless the duration rounds to 0. */
  lemma DefaultAcceptedIff(time: int, duration: Option<int>)
    requires InVideo(time, duration)
    ensures ResolveWindow(time, duration, None, None).Ok? <==> duration != Some(0)
  {
  }

  /** Whatever was asked for, an accepted window is proper. */
  lemma AcceptedIsProper(time: int, duration: Option<int>, start: Option<int>, end: Option<int>)
    requires ResolveWindow(time, duration, start, end).Ok?
    requires duration.Some? ==> duration.value >= 0
    ensures var (a, b) := ResolveWindow(time, duration, start, end).value; Proper(time, duration, a, b)
  {
  }

  /** A requested window is taken as it is exactly when it is proper. */
  lemma TakenAsIsIff(time: int, duration: Option<int>, a: int, b: int)
    requires duration.Some? ==> duration.value >= 0
    ensures ResolveWindow(time, duration, Some(a), Some(b)) == Ok((a, b)) <==> Proper(time, duration, a, b)
  {
  }

  /** Storing an accepted window and reading it back is exact. */
  lemma ReadBackIsExact(row: Row, duration: Option<int>, start: Option<int>, end: Option<int>)
    requires duration.Some? ==> duration.value >= 0
    requires ResolveWindow(row.event.time, duration, start, end).Ok?
    ensures var window := ResolveWindow(row.event.time, duration, start, end).value;
      WindowFromEvent(row.(clipStart := Some(window.0), clipEnd := Some(window.1)), duration) == window
  {
    AcceptedIsProper(row.event.time, duration, start, end);
  }

  /** Refusals: exactly one side given, an empty window, an event outside it, more than a minute. */
  lemma RefusedIff(time: int, duration: Option<int>, start: Option<int>, end: Option<int>)
    ensures ResolveWindow(time, duration, start, end) == Err(OneSided) <==> start.Some? != end.Some?
    ensures start.Some? && end.Some? && duration.None? && start.value >= 0 && end.value >= 0 ==>
      var a, b := start.value, end.value;
      ResolveWindow(time, duration, start, end)
      == if a >= b then Err(Empty)
         else if time < a || time > b then Err(EventOutside)
         else if b - a > 60000 then Err(TooLong) else Ok((a, b))
  {
  }

  /** Without a request the window is four seconds before and six after, cut at the edges of the video. */
  lemma DefaultWindowIs(time: int, duration: Option<int>)
    requires InVideo(time, duration) && duration != Some(0)
    ensures ResolveWindow(time, duration, None, None)
         == Ok((if time < 4000 then 0 else time - 4000,
                if duration.Some? && duration.value < time + 6000 then duration.value else time + 6000))
  {
  }

  /** A row without a stored window falls back on its metadata: a window there, or else distances, or else
      the default ones. */
  lemma FallbackWindow(row: Row)
    requires row.clipStart.None? || row.clipEnd.None?
    ensures var m, t := row.metadata, row.event.time;
      var pre, post := if m.pre.Some? then m.pre.value else 4000, if m.post.Some? then m.post.value else 6000;
      if m.start.Some? && m.end.Some?
      then WindowFromEvent(row, None) == (Max(0, m.start.value), Max(0, m.end.value))
      else Max(0, t - pre) < Max(0, t + post) ==> WindowFromEvent(row, None) == (Max(0, t - pre), Max(0, t + post))
    ensures ClipEventFromRow(row, None) == row.event.(pre := row.metadata.pre, post := row.metadata.post)
  {
  }

  /** Distances that leave no window fall back on one second, within the video. */
  lemma NarrowWindow(row: Row, duration: Option<int>)
    requires row.clipStart.None? && row.metadata == Metadata(None, None, Some(0), Some(0))
    requires InVideo(row.event.time, duration)
    ensures var t := row.event.time;
      WindowFromEvent(row, duration) == (t, if duration.Some? then Min(t + 1000, duration.value) else t + 1000)
  {
  }

  /** A duration is whole milliseconds; none and 0 count as unknown. */
  lemma DurationMsIs(seconds: Option<real>)
    ensures DurationMs(seconds).None? <==> seconds.None? || seconds.value == 0.0
    ensures seconds.Some? && seconds.value > 0.0 ==>
      var ms := DurationMs(seconds).value;
      ms as real <= seconds.value * 1000.0 < ms as real + 1.0
  {
  }

  // ----- From the review window to the clip proposal -----

  predicate ModelSized(ms: int) { MIN_WINDOW_MS <= ms <= MAX_MODEL_WINDOW_MS }

  /** The engine proposes exactly the stored window when and only when each side is 1 to 15 seconds, or
      is shorter because it ends at the edge of the video. */
  lemma ProposalIsWindowIff(row: Row, duration: Option<int>, a: int, b: int)
    requires row.clipStart == Some(a) && row.clipEnd == Some(b) && Proper(row.event.time, duration, a, b)
    ensures Window(ClipEventFromRow(row, duration), duration) == Some((a, b)) <==>
      && (ModelSized(row.event.time - a) || (a == 0 && row.event.time < MIN_WINDOW_MS))
      && (ModelSized(b - row.event.time) || (duration == Some(b) && b - row.event.time < MIN_WINDOW_MS))
  {
    assert WindowFromEvent(row, duration) == (a, b);
  }

  /** End to end for a tagged video of known positive length: request, store, propose. */
  lemma RequestToProposal(row: Row, seconds: real, start: Option<int>, end: Option<int>)
    requires seconds > 0.0
    requires ResolveWindow(row.event.time, DurationMs(Some(seconds)), start, end).Ok?
    requires var (a, b) := ResolveWindow(row.event.time, DurationMs(Some(seconds)), start, end).value;
      ModelSized(row.event.time - a) && ModelSized(b - row.event.time)
    ensures var duration := DurationMs(Some(seconds));
      var (a, b) := ResolveWindow(row.event.time, duration, start, end).value;
      && EngineDuration(Some(seconds)) == duration
      && Window(ClipEventFromRow(row.(clipStart := Some(a), clipEnd := Some(b)), duration), duration) == Some((a, b))
  {
    var duration := DurationMs(Some(seconds));
    AcceptedIsProper(row.event.time, duration, start, end);
    var (a, b) := ResolveWindow(row.event.time, duration, start, end).value;
    ProposalIsWindowIff(row.(clipStart := Some(a), clipEnd := Some(b)), duration, a, b);
  }
}
