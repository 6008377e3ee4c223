/**
 The session-version counter under concurrent handlers. The increment is a read in one statement
 and an absolute write at commit, with no row lock in between, so the two halves are separate steps.
 */
module VersionRace {

  datatype Counter = Counter(
    version: nat,             // users.session_version
    seen: map<nat, nat>,     // what each open transaction read
    issued: set<nat>)         // versions carried by tokens minted so far

  datatype Step = Read(tx: nat) | CommitBump(tx: nat) | Mint

  function Next(c: Counter, s: Step): Counter {
    match s
    case Read(tx) => if tx in c.seen then c else c.(seen := c.seen[tx := c.version])
    case CommitBump(tx) => if tx !in c.seen then c else c.(version := c.seen[tx] + 1, seen := c.seen - {tx})
    case Mint => c.(issued := c.issued + {c.version})
  }

  function Run(c: Counter, steps: seq<Step>): Counter
    decreases |steps|
  {
    if steps == [] then c else Run(Next(c, steps[0]), steps[1..])
  }

  /** No token minted so far carries a version above the counter. */
  ghost predicate Ahead(c: Counter) {
    forall v :: v in c.issued ==> v <= c.version
  }

  /** A bump does its job when it raises the counter above what it was and above every minted token. */
  ghost predicate Invalidates(c: Counter, tx: nat)
    requires tx in c.seen
  {
    var v' := Next(c, CommitBump(tx)).version;
    v' > c.version && forall v :: v in c.issued ==> v < v'
  }

  /** A transaction keeps what it read first, and ends when it commits. */
  lemma TransactionsReadOnce(c: Counter, tx: nat)
    ensures tx in c.seen ==> Next(c, Read(tx)) == c
    ensures tx !in Next(c, CommitBump(tx)).seen
  {
  }

  // ----- When bumps do their job -----

  /** Nobody has read a version above the stored one. */
  ghost predicate ReadsBehind(c: Counter) {
    forall tx :: tx in c.seen ==> c.seen[tx] <= c.version
  }

  /** A bump commits only if the version it read is still the stored one. */
  predicate Current(c: Counter, s: Step) {
    s.CommitBump? && s.tx in c.seen ==> c.seen[s.tx] == c.version
  }

  ghost predicate EffectiveStep(c: Counter, s: Step) {
    s.CommitBump? && s.tx in c.seen ==> Invalidates(c, s.tx)
  }

  predicate AllCurrent(c: Counter, steps: seq<Step>)
    decreases |steps|
  {
    steps == [] || (Current(c, steps[0]) && AllCurrent(Next(c, steps[0]), steps[1..]))
  }

  /** Every bump of the run does its job. */
  ghost predicate AllEffective(c: Counter, steps: seq<Step>)
    decreases |steps|
  {
    steps == [] || (EffectiveStep(c, steps[0]) && AllEffective(Next(c, steps[0]), steps[1..]))
  }

  lemma CurrentStep(c: Counter, s: Step)
    requires Ahead(c) && ReadsBehind(c)
    ensures EffectiveStep(c, s) <==> Current(c, s)
    ensures Current(c, s) ==> Ahead(Next(c, s)) && ReadsBehind(Next(c, s)) && c.version <= Next(c, s).version
  {
  }

  /** Every bump of a run does its job exactly when every bump commits on a read that is still current,
      which each transaction could check by locking the row and reading it again. */
  lemma {:induction false} BumpsInvalidateIff(c: Counter, steps: seq<Step>)
    requires Ahead(c) && ReadsBehind(c)
    ensures AllEffective(c, steps) <==> AllCurrent(c, steps)
    decreases |steps|
  {
    if steps != [] {
      CurrentStep(c, steps[0]);
      if Current(c, steps[0]) { BumpsInvalidateIff(Next(c, steps[0]), steps[1..]); }
    }
  }

  /** Such a run keeps the counter ahead of all minted tokens and never lowers it. */
  lemma {:induction false} SerialBumpsStayAhead(c: Counter, steps: seq<Step>)
    requires Ahead(c) && ReadsBehind(c) && AllCurrent(c, steps)
    ensures Ahead(Run(c, steps)) && ReadsBehind(Run(c, steps)) && c.version <= Run(c, steps).version
    decreases |steps|
  {
    if steps != [] {
      CurrentStep(c, steps[0]);
      SerialBumpsStayAhead(Next(c, steps[0]), steps[1..]);
    }
  }

  /** The hypothesis is needed: two overlapping bumps leave a version that a token minted between
      their commits already carries, so the second bump revokes nothing by version. */
  lemma OverlappingBumpsLoseOne()
    ensures var c := Run(Counter(1, map[], {}), [Read(0), Read(1), CommitBump(0), Mint, CommitBump(1)]);
      c.version == 2 && 2 in c.issued
  {
    var c2 := Next(Next(Counter(1, map[], {}), Read(0)), Read(1));
    var c4 := Next(Next(c2, CommitBump(0)), Mint);
    assert Run(c4, [CommitBump(1)]) == Next(c4, CommitBump(1));
    assert Run(c2, [CommitBump(0), Mint, CommitBump(1)]) == Run(c4, [CommitBump(1)]);
  }

  /** And a bump that overlaps two others lowers the counter, reviving a token the second one ended. */
  lemma OverlappedBumpLowersTheVersion()
    ensures var before := Run(Counter(1, map[], {}), [Read(0), Read(1), CommitBump(1), Mint, Read(2), CommitBump(2)]);
      && before.version == 3 && before.issued == {2} && 0 in before.seen
      && Next(before, CommitBump(0)).version == 2
  {
    var c2 := Next(Next(Counter(1, map[], {}), Read(0)), Read(1));
    var c4 := Next(Next(c2, CommitBump(1)), Mint);
    var c6 := Next(Next(c4, Read(2)), CommitBump(2));
    assert Run(c4, [Read(2), CommitBump(2)]) == c6;
    assert Run(c2, [CommitBump(1), Mint, Read(2), CommitBump(2)]) == Run(c4, [Read(2), CommitBump(2)]);
  }

  /** One outdated bump spoils later ones: after it has lowered the counter below a minted version, even
      a bump on a current read leaves that token valid. */
  lemma OutdatedBumpSpoilsLaterOnes()
    ensures var c := Run(Counter(1, map[], {}),
                         [Read(0), Read(1), CommitBump(1), Read(2), CommitBump(2), Mint, CommitBump(0), Read(3)]);
      && 3 in c.seen && Current(c, CommitBump(3)) && !Invalidates(c, 3)
      && 3 in c.issued && Next(c, CommitBump(3)).version == 3
  {
    var c2 := Next(Next(Counter(1, map[], {}), Read(0)), Read(1));
    var c4 := Next(Next(c2, CommitBump(1)), Read(2));
    var c6 := Next(Next(c4, CommitBump(2)), Mint);
    var c8 := Next(Next(c6, CommitBump(0)), Read(3));
    assert c6.version == 3 && c6.issued == {3} && c6.seen[0] == 1;
    assert c8.version == 2 && c8.seen[3] == 2;
    assert Run(c6, [CommitBump(0), Read(3)]) == c8;
    assert Run(c4, [CommitBump(2), Mint, CommitBump(0), Read(3)]) == Run(c6, [CommitBump(0), Read(3)]);
    assert Run(c2, [CommitBump(1), Read(2), CommitBump(2), Mint, CommitBump(0), Read(3)])
        == Run(c4, [CommitBump(2), Mint, CommitBump(0), Read(3)]);
  }
}
