/**
 The clip engine: one proposal per event still in the review queue, ranked and cut to a limit.
 Times are milliseconds; ranks, confidences and durations are real numbers.
 */
module ClipProposals {
  import opened Common
  import opened Sorting

  const MIN_WINDOW_MS := 1000
  const MAX_MODEL_WINDOW_MS := 15000

  datatype Kind = ShotAttempt | ShotMade | Rebound | Pass | OtherKind(name: string)

  datatype Review = NeedsReview | MachineOnly | Approved | Rejected

  datatype ClipEvent = ClipEvent(
    id: nat, kind: Kind, time: int, confidence: Option<real>, review: Review, pre: Option<int>, post: Option<int>)

  datatype Proposal = Proposal(event: nat, kind: Kind, startMs: int, endMs: int, rank: real, review: Review)

  // ----- Windows -----

  function Truncate(x: real): int {
    if x >= 0.0 then x.Floor else 0 - (0.0 - x).Floor
  }

  function EngineDuration(seconds: Option<real>): (d: Option<int>)
    ensures d.Some? ==> d.value >= 0
  {
    if seconds.None? || seconds.value <= 0.0 then None else Some(Truncate(seconds.value * 1000.0))
  }

  function Center(time: int, duration: Option<int>): int {
    var c := Max(0, time);
    if duration.Some? then Min(c, duration.value) else c
  }

  function DefaultWindow(kind: Kind): (int, int) {
    match kind
    case ShotAttempt => (4000, 6000)
    case ShotMade => (4000, 7000)
    case Rebound => (3000, 5000)
    case Pass => (2000, 4000)
    case OtherKind(_) => (3000, 5000)
  }

  function Override(value: Option<int>, default: int): int {
    if value.None? then default else Max(MIN_WINDOW_MS, Min(MAX_MODEL_WINDOW_MS, value.value))
  }

  /** The clip around an event, or nothing when no window is left. */
  function Window(e: ClipEvent, duration: Option<int>): Option<(int, int)> {
    var center := Center(e.time, duration);
    var pre := Override(e.pre, DefaultWindow(e.kind).0);
    var post := Override(e.post, DefaultWindow(e.kind).1);
    var start := Max(0, center - pre);
    var end := if duration.Some? then Min(duration.value, center + post) else center + post;
    var start' := if duration.Some? && end <= start then Max(0, duration.value - MIN_WINDOW_MS) else start;
    var end' := if duration.Some? && end <= start then duration.value else end;
    if end' <= start' then None else Some((start', end'))
  }

  /** Every window lies in the video, contains the clamped event time and is at most 30 s wide; an
      event loses its window exactly when the duration rounds to 0 ms. */
  lemma WindowShape(e: ClipEvent, duration: Option<int>)
    requires duration.Some? ==> duration.value >= 0
    ensures Window(e, duration).None? <==> duration == Some(0)
    ensures Window(e, duration).Some? ==>
      var (start, end) := Window(e, duration).value;
      && 0 <= start <= Center(e.time, duration) <= end
      && start < end && end - start <= 2 * MAX_MODEL_WINDOW_MS
      && (duration.Some? ==> end <= duration.value)
  {
  }

  // ----- Ranks -----

  function Weight(kind: Kind): real {
    match kind
    case ShotMade => 0.98
    case ShotAttempt => 0.92
    case Rebound => 0.72
    case Pass => 0.42
    case OtherKind(_) => 0.35
  }

  function Bonus(review: Review): real {
    match review
    case NeedsReview => 0.04
    case MachineOnly => 0.02
    case _ => 0.0
  }

  function Bounded(confidence: Option<real>): real {
    if confidence.None? || confidence.value < 0.0 then 0.0
    else if confidence.value > 1.0 then 1.0 else confidence.value
  }

  /** Nearest integer, ties to even. */
  function RoundEven(x: real): int {
    var f := x.Floor;
    var frac := x - f as real;
    if frac < 0.5 then f else if frac > 0.5 then f + 1 else if f % 2 == 0 then f else f + 1
  }

  function Score(e: ClipEvent): real {
    var raw := Weight(e.kind) * 0.4 + Bounded(e.confidence) * 0.56 + Bonus(e.review);
    if raw < 1.0 then raw else 1.0
  }

  function Rank(e: ClipEvent): real {
    RoundEven(Score(e) * 10000.0) as real / 10000.0
  }

  lemma RoundEvenMonotone(x: real, y: real)
    requires x <= y
    ensures RoundEven(x) <= RoundEven(y)
  {
  }

  /** Ranks lie in [0, 1]; more confidence or a weightier kind never lowers one. */
  lemma RankOrder(a: ClipEvent, b: ClipEvent)
    requires a.review == b.review && Weight(a.kind) <= Weight(b.kind) && Bounded(a.confidence) <= Bounded(b.confidence)
    ensures 0.0 <= Rank(a) <= Rank(b) <= 1.0
  {
    RoundEvenMonotone(Score(a) * 10000.0, Score(b) * 10000.0);
    RoundEvenMonotone(0.0, Score(a) * 10000.0);
    RoundEvenMonotone(Score(b) * 10000.0, 10000.0);
    assert RoundEven(0.0) == 0;
    assert RoundEven(10000.0) == 10000;
  }

  // ----- Proposals -----

  predicate Eligible(e: ClipEvent, includeRejected: bool) {
    e.review == NeedsReview || e.review == MachineOnly || (includeRejected && e.review == Rejected)
  }

  function Propose(e: ClipEvent, duration: Option<int>): Option<Proposal> {
    match Window(e, duration)
    case None => None
    case Some((start, end)) => Some(Proposal(e.id, e.kind, start, end, Rank(e), e.review))
  }

  function ProposalsOf(e: ClipEvent, duration: Option<int>, includeRejected: bool): seq<Proposal> {
    if Eligible(e, includeRejected) && Propose(e, duration).Some? then [Propose(e, duration).value] else []
  }

  lemma CollectNext(events: seq<ClipEvent>, i: nat, duration: Option<int>, includeRejected: bool)
    requires i < |events|
    ensures Collect(events[..i + 1], duration, includeRejected)
         == Collect(events[..i], duration, includeRejected) + ProposalsOf(events[i], duration, includeRejected)
  {
    assert events[..i + 1][..i] == events[..i];
  }

  /** The proposals in event order, before ranking. */
  function Collect(events: seq<ClipEvent>, duration: Option<int>, includeRejected: bool): seq<Proposal> {
    if events == [] then []
    else Collect(events[..|events| - 1], duration, includeRejected)
         + ProposalsOf(events[|events| - 1], duration, includeRejected)
  }

  /** The sort key: higher rank, then earlier start, then smaller event id. */
  predicate Before(a: Proposal, b: Proposal) {
    || a.rank > b.rank
    || (a.rank == b.rank && a.startMs < b.startMs)
    || (a.rank == b.rank && a.startMs == b.startMs && a.event < b.event)
  }

  lemma BeforeIsAnOrder()
    ensures StrictWeak(Before)
  {
  }

  lemma RankingSorts(ps: seq<Proposal>)
    ensures Sorted(Before, Sort(Before, ps)) && multiset(Sort(Before, ps)) == multiset(ps)
    ensures |Sort(Before, ps)| == |ps|
  {
    BeforeIsAnOrder();
    SortSorts(Before, ps);
    SortContents(Before, ps);
    assert |multiset(Sort(Before, ps))| == |multiset(ps)|;
  }

  /** The queue the engine returns: the first `limit` of the ranked proposals. */
  function Queue(events: seq<ClipEvent>, duration: Option<int>, limit: int, includeRejected: bool): seq<Proposal> {
    var ranked := Sort(Before, Collect(events, duration, includeRejected));
    if limit <= 0 then [] else ranked[..Min(limit, |ranked|)]
  }

  /** Place the window around the event; it is empty when it ends no later than it starts. */
  method PlaceWindow(e: ClipEvent, duration: Option<int>) returns (start: int, end: int)
    ensures Window(e, duration) == if end <= start then None else Some((start, end))
  {
    var center := Center(e.time, duration);
    var pre := Override(e.pre, DefaultWindow(e.kind).0);
    var post := Override(e.post, DefaultWindow(e.kind).1);
    start, end := Max(0, center - pre), center + post;
    if duration.Some? {
      end := Min(duration.value, end);
      if end <= start {
        end := duration.value;
        start := Max(0, duration.value - MIN_WINDOW_MS);
      }
    }
  }

  method BuildClipProposals(events: seq<ClipEvent>, seconds: Option<real>, limit: int, includeRejected: bool)
    returns (queue: seq<Proposal>)
    ensures queue == Queue(events, EngineDuration(seconds), limit, includeRejected)
  {
    if limit <= 0 { return []; }
    var duration := EngineDuration(seconds);
    var proposals := [];
    var i := 0;
    while i < |events|
      invariant i <= |events| && proposals == Collect(events[..i], duration, includeRejected)
    {
      var e := events[i];
      CollectNext(events, i, duration, includeRejected);
      i := i + 1;
      if !Eligible(e, includeRejected) {
        assert ProposalsOf(e, duration, includeRejected) == [];
        continue;
      }
      var start, end := PlaceWindow(e, duration);
      if end <= start {
        assert ProposalsOf(e, duration, includeRejected) == [];
        continue;
      }
      var proposal := Proposal(e.id, e.kind, start, end, Rank(e), e.review);
      assert ProposalsOf(e, duration, includeRejected) == [proposal];
      proposals := proposals + [proposal];
    }
    assert events[..i] == events;
    var ranked := Sort(Before, proposals);
    queue := if limit < |ranked| then ranked[..limit] else ranked;
  }

  // ----- What the queue contains -----

  /** One proposal per eligible event that keeps a window, and nothing else. */
  lemma {:induction false} CollectContents(
      events: seq<ClipEvent>, duration: Option<int>, includeRejected: bool, p: Proposal)
    ensures p in Collect(events, duration, includeRejected) <==>
      exists i :: 0 <= i < |events| && Eligible(events[i], includeRejected) && Propose(events[i], duration) == Some(p)
  {
    if events != [] {
      var n := |events| - 1;
      CollectContents(events[..n], duration, includeRejected, p);
      assert p in Collect(events, duration, includeRejected) <==>
        p in Collect(events[..n], duration, includeRejected) || p in ProposalsOf(events[n], duration, includeRejected);
      forall i | 0 <= i < n ensures events[..n][i] == events[i] { }
    }
  }

  /** Unless the duration rounds to 0, every eligible event has its proposal. */
  lemma {:induction false} CollectCount(events: seq<ClipEvent>, duration: Option<int>, includeRejected: bool)
    requires duration.Some? ==> duration.value > 0
    ensures |Collect(events, duration, includeRejected)| == EligibleCount(events, includeRejected)
  {
    if events != [] {
      CollectCount(events[..|events| - 1], duration, includeRejected);
      WindowShape(events[|events| - 1], duration);
    }
  }

  function EligibleCount(events: seq<ClipEvent>, includeRejected: bool): nat {
    if events == [] then 0
    else EligibleCount(events[..|events| - 1], includeRejected)
         + (if Eligible(events[|events| - 1], includeRejected) then 1 else 0)
  }

  ghost predicate DistinctIds(events: seq<ClipEvent>) {
    forall i, j :: 0 <= i < j < |events| ==> events[i].id != events[j].id
  }

  ghost predicate DistinctEvents(ps: seq<Proposal>) {
    forall i, j :: 0 <= i < j < |ps| ==> ps[i].event != ps[j].event
  }

  lemma {:induction false} CollectDistinct(events: seq<ClipEvent>, duration: Option<int>, includeRejected: bool)
    requires DistinctIds(events)
    ensures DistinctEvents(Collect(events, duration, includeRejected))
  {
    if events != [] {
      var n := |events| - 1;
      var ps := Collect(events[..n], duration, includeRejected);
      CollectDistinct(events[..n], duration, includeRejected);
      var last := ProposalsOf(events[n], duration, includeRejected);
      assert Collect(events, duration, includeRejected) == ps + last;
      assert |last| <= 1 && (|last| == 1 ==> last[0].event == events[n].id);
      forall i | 0 <= i < |ps| ensures ps[i].event != events[n].id {
        CollectContents(events[..n], duration, includeRejected, ps[i]);
        var k :| 0 <= k < n && Propose(events[..n][k], duration) == Some(ps[i]);
        assert events[..n][k] == events[k];
      }
    }
  }

  /** Ranked and cut: what is returned is in order, each element is one of the proposals, and every
      proposal left out ranks no better than anything returned. */
  lemma QueueIsBestFirst(events: seq<ClipEvent>, duration: Option<int>, limit: int, includeRejected: bool)
    returns (rest: seq<Proposal>)
    requires limit > 0
    ensures var q := Queue(events, duration, limit, includeRejected);
      var all := Collect(events, duration, includeRejected);
      && Sorted(Before, q) && |q| == Min(limit, |all|)
      && multiset(q) + multiset(rest) == multiset(all)
      && forall i, j :: 0 <= i < |q| && 0 <= j < |rest| ==> !Before(rest[j], q[i])
  {
    var all := Collect(events, duration, includeRejected);
    var ranked := Sort(Before, all);
    RankingSorts(all);
    var n := Min(limit, |ranked|);
    CutSorted(Before, ranked, n);
    rest := ranked[n..];
  }

  // ----- The tables behind the windows and ranks -----

  /** Without overrides, far from the edges, the window is the kind's own. */
  lemma DefaultWindows(e: ClipEvent)
    requires e.pre.None? && e.post.None? && e.time >= 4000
    ensures Window(e, None) == match e.kind
                               case ShotAttempt => Some((e.time - 4000, e.time + 6000))
                               case ShotMade => Some((e.time - 4000, e.time + 7000))
                               case Rebound => Some((e.time - 3000, e.time + 5000))
                               case Pass => Some((e.time - 2000, e.time + 4000))
                               case OtherKind(_) => Some((e.time - 3000, e.time + 5000))
  {
  }

  /** With overrides it is theirs, each held between 1 and 15 seconds. */
  lemma OverriddenWindow(e: ClipEvent)
    requires e.pre.Some? && e.post.Some? && e.time >= 15000
    ensures Window(e, None) == Some((e.time - Held(e.pre.value), e.time + Held(e.post.value)))
  {
  }

  function Held(ms: int): int { if ms < 1000 then 1000 else if ms > 15000 then 15000 else ms }

  /** The edges of the video cut the window, and an event outside is moved to the edge first. */
  lemma WindowAtTheEdges(e: ClipEvent, duration: int)
    requires duration >= 1000 && e.pre.None? && e.post.None?
    ensures e.time <= 0 && e.kind == ShotMade && duration >= 7000 ==> Window(e, Some(duration)) == Some((0, 7000))
    ensures e.time >= duration && e.kind == Pass && duration >= 2000 ==>
      Window(e, Some(duration)) == Some((duration - 2000, duration))
  {
  }

  /** Conversion to an integer cuts towards 0. */
  lemma TruncateIs(x: real)
    ensures x >= 0.0 ==> Truncate(x) as real <= x < Truncate(x) as real + 1.0
    ensures x <= 0.0 ==> Truncate(x) as real - 1.0 < x <= Truncate(x) as real
  {
  }

  /** A duration is whole milliseconds, rounded down; none, 0 or a negative one counts as unknown. */
  lemma EngineDurationIs(seconds: Option<real>)
    ensures EngineDuration(seconds).Some? <==> seconds.Some? && seconds.value > 0.0
    ensures EngineDuration(seconds).Some? ==>
      var ms := EngineDuration(seconds).value;
      ms as real <= seconds.value * 1000.0 < ms as real + 1.0
  {
  }

  /** A rank is 0.4 of the kind's weight plus 0.56 of the confidence plus the review's bonus, at most 1,
      rounded to four digits. */
  lemma RankIs(e: ClipEvent)
    ensures var weight := match e.kind
                          case ShotMade => 0.98
                          case ShotAttempt => 0.92
                          case Rebound => 0.72
                          case Pass => 0.42
                          case OtherKind(_) => 0.35;
      var confidence := if e.confidence.None? || e.confidence.value < 0.0 then 0.0
                        else if e.confidence.value > 1.0 then 1.0 else e.confidence.value;
      var bonus := if e.review == NeedsReview then 0.04 else if e.review == MachineOnly then 0.02 else 0.0;
      var sum := weight * 0.4 + confidence * 0.56 + bonus;
      var exact := if sum > 1.0 then 1.0 else sum;
      -0.00005 <= Rank(e) - exact <= 0.00005 && Rank(e) * 10000.0 == (Rank(e) * 10000.0).Floor as real
  {
    var n := RoundEven(Score(e) * 10000.0);
    RoundEvenIsNearest(Score(e) * 10000.0);
    assert Rank(e) * 10000.0 == n as real;
  }

  lemma RoundEvenIsNearest(x: real)
    ensures -0.5 <= RoundEven(x) as real - x <= 0.5
    ensures RoundEven(x) as real - x == 0.5 || RoundEven(x) as real - x == -0.5 ==> RoundEven(x) % 2 == 0
  {
  }

  /** Events waiting for review are proposed, and rejected ones on demand; a proposal carries its event's
      id, kind and review, its window and its rank. */
  lemma ProposalIs(e: ClipEvent, duration: Option<int>, includeRejected: bool)
    ensures var ps := ProposalsOf(e, duration, includeRejected);
      var wanted := e.review == NeedsReview || e.review == MachineOnly || (e.review == Rejected && includeRejected);
      ps == if wanted && Window(e, duration).Some?
            then [Proposal(e.id, e.kind, Window(e, duration).value.0, Window(e, duration).value.1, Rank(e), e.review)]
            else []
  {
  }

  /** Along the queue ranks never rise; at equal ranks starts never fall, and at equal starts ids. */
  lemma QueueOrder(events: seq<ClipEvent>, duration: Option<int>, limit: int, includeRejected: bool)
    ensures var q := Queue(events, duration, limit, includeRejected);
      && |q| == (if limit <= 0 then 0 else Min(limit, |Collect(events, duration, includeRejected)|))
      && forall i, j :: 0 <= i < j < |q| ==>
           && q[i].rank >= q[j].rank
           && (q[i].rank == q[j].rank ==> q[i].startMs <= q[j].startMs)
           && (q[i].rank == q[j].rank && q[i].startMs == q[j].startMs ==> q[i].event <= q[j].event)
  {
    if limit > 0 {
      var q := Queue(events, duration, limit, includeRejected);
      var rest := QueueIsBestFirst(events, duration, limit, includeRejected);
      forall i, j | 0 <= i < j < |q|
        ensures && q[i].rank >= q[j].rank
                && (q[i].rank == q[j].rank ==> q[i].startMs <= q[j].startMs)
                && (q[i].rank == q[j].rank && q[i].startMs == q[j].startMs ==> q[i].event <= q[j].event)
      {
        assert !Before(q[j], q[i]);
      }
    }
  }

  // ----- The queue does not depend on the order of the events -----

  /** Deterministic: any two listings of the same events, each id once, give the same queue. */
  lemma QueueIgnoresEventOrder(
      events: seq<ClipEvent>, events': seq<ClipEvent>, duration: Option<int>, limit: int, includeRejected: bool)
    requires DistinctIds(events) && DistinctIds(events')
    requires forall e :: e in events <==> e in events'
    ensures Queue(events, duration, limit, includeRejected) == Queue(events', duration, limit, includeRejected)
  {
    var ps, ps' := Collect(events, duration, includeRejected), Collect(events', duration, includeRejected);
    CollectDistinct(events, duration, includeRejected);
    CollectDistinct(events', duration, includeRejected);
    BeforeIsAnOrder();
    SortStrictly(Before, ps);
    SortStrictly(Before, ps');
    forall p ensures p in ps <==> p in ps' {
      CollectContents(events, duration, includeRejected, p);
      CollectContents(events', duration, includeRejected, p);
      if p in ps {
        var i :| 0 <= i < |events| && Eligible(events[i], includeRejected) && Propose(events[i], duration) == Some(p);
        assert events[i] in events';
      }
      if p in ps' {
        var i :| && 0 <= i < |events'|
                 && Eligible(events'[i], includeRejected) && Propose(events'[i], duration) == Some(p);
        assert events'[i] in events;
      }
    }
    StrictlySortedUnique(Before, Sort(Before, ps), Sort(Before, ps'));
  }
}
