/**
 Time-based one-time codes: truncation (section 5.3 of RFC 4226), the verification window and replay
 check (section 5.2 of RFC 6238), and the steps that use them: setup, confirm, login and disable.
 The keyed hash is a parameter.
 */
module Totp {
  import opened Common
  import opened Base64Url
  import opened BigEndian
  import opened DecimalText

  const VERIFY_WINDOW := 1

  /** A SHA-1 digest. */
  type Digest = d: seq<Byte> | |d| == 20 witness seq(20, _ => 0)

  // ----- Codes -----

  /** Four digest bytes at the offset named by the last nibble, top bit cleared. */
  function DynamicTruncate(d: Digest): (code: nat)
    ensures code < 0x8000_0000
  {
    var offset := d[19] % 16;
    var b0: int, b1: int, b2: int := d[offset], d[offset + 1], d[offset + 2];
    (b0 * 0x100_0000 + b1 * 0x1_0000 + b2 * 0x100 + d[offset + 3]) % 0x8000_0000
  }

  function Hotp(d: Digest, digits: nat): string {
    ZeroFill(DynamicTruncate(d) % Pow10(digits), digits)
  }

  /** Truncation reads the four bytes at the offset as one big-endian number without its top bit. */
  lemma TruncationIs(d: Digest)
    ensures var o := d[19] % 16;
      DynamicTruncate(d) == FromBigEndian(d[o..o + 4]) % 0x8000_0000
  {
    var o := d[19] % 16;
    FourBytes(d[o..o + 4]);
  }

  /** A code has exactly the configured number of digits, and its value is the big-endian number at the
      offset, without its top bit, modulo 10^digits. */
  lemma HotpShape(d: Digest, digits: nat)
    requires digits > 0
    ensures |Hotp(d, digits)| == digits && AllDigits(Hotp(d, digits))
    ensures var o := d[19] % 16;
      DigitsValue(Hotp(d, digits)) == FromBigEndian(d[o..o + 4]) % 0x8000_0000 % Pow10(digits)
  {
    TruncationIs(d);
    ZeroFillWidth(DynamicTruncate(d) % Pow10(digits), digits);
    ZeroFillValue(DynamicTruncate(d) % Pow10(digits), digits);
  }

  /** The worked example of section 5.4 of RFC 4226. */
  lemma RfcExample()
    ensures var d: Digest := [0x1f, 0x86, 0x98, 0x69, 0x0e, 0x02, 0xca, 0x16, 0x61, 0x85,
                              0x50, 0xef, 0x7f, 0x19, 0xda, 0x8e, 0x94, 0x5b, 0x55, 0x5a];
      DynamicTruncate(d) == 0x50ef7f19 && Hotp(d, 6) == "872921"
  {
    assert Pow10(6) == 1000000;
    assert 0x50ef7f19 % 1000000 == 872921;
    assert Digits(8) == "8";
    assert Digits(87) == "87";
    assert Digits(872) == "872";
    assert Digits(8729) == "8729";
    assert Digits(87292) == "87292";
    assert Digits(872921) == "872921";
  }

  // ----- Verification -----

  predicate WellFormedCode(code: string, digits: nat) {
    code != "" && AllDigits(code) && |code| == digits
  }

  /** `hotp` is the code of each counter under the user's secret. */
  predicate Matches(hotp: nat -> string, counter: int, code: string) {
    counter >= 0 && hotp(counter) == code
  }

  /** The earliest counter of the window whose code was submitted. */
  function FirstMatch(hotp: nat -> string, code: string, lo: int, hi: int): Option<int>
    decreases hi - lo
  {
    if lo > hi then None
    else if Matches(hotp, lo, code) then Some(lo)
    else FirstMatch(hotp, code, lo + 1, hi)
  }

  lemma {:induction false} FirstMatchIsFirst(hotp: nat -> string, code: string, lo: int, hi: int)
    ensures FirstMatch(hotp, code, lo, hi).None? <==> forall k :: lo <= k <= hi ==> !Matches(hotp, k, code)
    ensures FirstMatch(hotp, code, lo, hi).Some? ==>
      var m := FirstMatch(hotp, code, lo, hi).value;
      lo <= m <= hi && Matches(hotp, m, code) && forall k :: lo <= k < m ==> !Matches(hotp, k, code)
    decreases hi - lo
  {
    if lo <= hi && !Matches(hotp, lo, code) { FirstMatchIsFirst(hotp, code, lo + 1, hi); }
  }

  /** A negative counter cannot be packed for hashing, which ends the request with an error. */
  datatype Verification = Accepted(counter: int) | Rejected | CounterError

  function Verify(hotp: nat -> string, digits: nat, code: string, clock: nat, lastCounter: Option<int>): Verification {
    if !WellFormedCode(code, digits) then Rejected
    else if clock < VERIFY_WINDOW then CounterError
    else match FirstMatch(hotp, code, clock - VERIFY_WINDOW, clock + VERIFY_WINDOW)
      case None => Rejected
      case Some(m) => if lastCounter.Some? && m <= lastCounter.value then Rejected else Accepted(m)
  }

  /** Accepted counters are within one step of the clock's, carry the code and are newer than the last one. */
  lemma AcceptedCounter(hotp: nat -> string, digits: nat, code: string, clock: nat, lastCounter: Option<int>)
    requires Verify(hotp, digits, code, clock, lastCounter).Accepted?
    ensures var m := Verify(hotp, digits, code, clock, lastCounter).counter;
      && clock - 1 <= m <= clock + 1
      && Matches(hotp, m, code)
      && (lastCounter.Some? ==> lastCounter.value < m)
  {
    FirstMatchIsFirst(hotp, code, clock - VERIFY_WINDOW, clock + VERIFY_WINDOW);
  }

  /** The current code is accepted unless a code of this or a later counter was used, or the previous
      counter happens to have the same code. */
  lemma CurrentCodeAccepted(hotp: nat -> string, digits: nat, clock: nat, lastCounter: Option<int>)
    requires WellFormedCode(hotp(clock), digits) && clock >= VERIFY_WINDOW
    ensures Verify(hotp, digits, hotp(clock), clock, lastCounter) == Accepted(clock) <==>
      (lastCounter.Some? ==> lastCounter.value < clock) && hotp(clock - 1) != hotp(clock)
  {
    FirstMatchIsFirst(hotp, hotp(clock), clock - VERIFY_WINDOW, clock + VERIFY_WINDOW);
  }

  /** A code is accepted exactly if it has the right number of digits, belongs to a counter within one step
      of the clock and to no earlier one of those, and that counter is newer than the last one used. */
  lemma AcceptedIff(hotp: nat -> string, digits: nat, code: string, clock: nat, lastCounter: Option<int>, m: int)
    ensures Verify(hotp, digits, code, clock, lastCounter) == Accepted(m) <==>
      && |code| == digits && |code| > 0 && (forall i :: 0 <= i < |code| ==> '0' <= code[i] <= '9')
      && 1 <= clock && clock - 1 <= m <= clock + 1
      && hotp(m) == code && (forall k :: clock - 1 <= k < m ==> hotp(k) != code)
      && (lastCounter.Some? ==> lastCounter.value < m)
  {
    FirstMatchIsFirst(hotp, code, clock - VERIFY_WINDOW, clock + VERIFY_WINDOW);
    forall k | 0 <= k && clock - 1 <= k ensures Matches(hotp, k, code) <==> hotp(k) == code { }
  }

  /** The window's codes are computed first, then scanned; the first hit decides. */
  method VerifyTotpCode(
      hotp: nat -> string, digits: nat, code: string, step: nat, at: nat, lastCounter: Option<int>)
    returns (result: Verification)
    requires step > 0
    ensures result == Verify(hotp, digits, code, at / step, lastCounter)
  {
    if code == "" || !AllDigits(code) || |code| != digits { return Rejected; }
    var base := at / step;
    var expected: seq<(int, string)> := [];
    for delta := 0 - VERIFY_WINDOW to VERIFY_WINDOW + 1
      invariant |expected| == delta + VERIFY_WINDOW
      invariant |expected| > 0 ==> base >= VERIFY_WINDOW
      invariant forall i :: 0 <= i < |expected| ==>
        expected[i].0 == base - VERIFY_WINDOW + i && expected[i].1 == hotp(base - VERIFY_WINDOW + i)
    {
      if base + delta < 0 { return CounterError; }
      expected := expected + [(base + delta, hotp(base + delta))];
    }
    var i := 0;
    while i < |expected|
      invariant i <= |expected|
      invariant FirstMatch(hotp, code, base - VERIFY_WINDOW, base + VERIFY_WINDOW)
             == FirstMatch(hotp, code, base - VERIFY_WINDOW + i, base + VERIFY_WINDOW)
    {
      if expected[i].1 == code {
        if lastCounter.Some? && expected[i].0 <= lastCounter.value { return Rejected; }
        return Accepted(expected[i].0);
      }
      i := i + 1;
    }
    return Rejected;
  }

  // ----- The enrollment record -----

  /** The configured step and width, and the keyed hash: secret and counter to digest. */
  datatype Config = Config(step: nat, digits: nat, hmac: (nat, nat) -> Digest) {
    predicate Valid() { step > 0 && digits > 0 }
  }

  function CodesOf(c: Config, secret: nat): nat -> string {
    (counter: nat) => Hotp(c.hmac(secret, counter), c.digits)
  }

  /** A user's enrollment. `secret` counts the secrets set up so far; `lastUsedAt` is the stored time. */
  datatype Record = Record(enrolled: bool, secret: nat, confirmed: bool, disabled: bool, lastUsedAt: Option<int>)

  datatype Acceptance = Acceptance(secret: nat, counter: int, at: nat)

  datatype State = State(record: Record, accepted: seq<Acceptance>)

  datatype Event =
    | Setup
    | Confirm(code: string, at: nat)
    | LogIn(code: string, at: nat)
    | Disable(code: string, passwordOk: bool, recoveryOk: bool, at: nat)

  function LastCounter(c: Config, r: Record): Option<int>
    requires c.Valid()
  {
    if r.lastUsedAt.None? then None else Some(r.lastUsedAt.value / c.step)
  }

  function Check(c: Config, s: State, code: string, at: nat): Verification
    requires c.Valid()
  {
    Verify(CodesOf(c, s.record.secret), c.digits, code, at / c.step, LastCounter(c, s.record))
  }

  predicate Active(r: Record) { r.enrolled && r.confirmed && !r.disabled }

  function Apply(c: Config, s: State, e: Event): State
    requires c.Valid()
  {
    var r := s.record;
    match e
    case Setup => if Active(r) then s else s.(record := Record(true, r.secret + 1, false, false, None))
    case Confirm(code, at) =>
      if !r.enrolled || r.disabled || !Check(c, s, code, at).Accepted? then s
      else
        var m := Check(c, s, code, at).counter;
        State(r.(confirmed := true, lastUsedAt := Some(m * c.step)), s.accepted + [Acceptance(r.secret, m, at)])
    case LogIn(code, at) =>
      if !Active(r) || !Check(c, s, code, at).Accepted? then s
      else
        var m := Check(c, s, code, at).counter;
        State(r.(lastUsedAt := Some(m * c.step)), s.accepted + [Acceptance(r.secret, m, at)])
    case Disable(code, passwordOk, recoveryOk, at) =>
      if !passwordOk || !Active(r) then s
      else match Check(c, s, code, at)
        case Accepted(m) => State(r.(disabled := true), s.accepted + [Acceptance(r.secret, m, at)])
        case Rejected => if recoveryOk then s.(record := r.(disabled := true)) else s
        case CounterError => s
  }

  function Run(c: Config, s: State, es: seq<Event>): State
    requires c.Valid()
    decreases |es|
  {
    if es == [] then s else Run(c, Apply(c, s, es[0]), es[1..])
  }

  predicate Initial(s: State) {
    s == State(Record(false, 0, false, false, None), [])
  }

  /** The code of a counter is that of the keyed hash of the secret and the counter. */
  lemma CodeOfCounter(c: Config, secret: nat, counter: nat)
    ensures CodesOf(c, secret)(counter) == Hotp(c.hmac(secret, counter), c.digits)
  {
  }

  /** The code an event brings, if it is checked and accepted: by a confirm on an enrollment that is not
      disabled, by a login on an active one, by a disable on an active one with the right password. */
  ghost function Accepts(c: Config, s: State, e: Event): Option<int>
    requires c.Valid()
  {
    var r := s.record;
    if e.Setup? || !r.enrolled || r.disabled || (!e.Confirm? && !r.confirmed) || (e.Disable? && !e.passwordOk) then None
    else
      var last := if r.lastUsedAt.None? then None else Some(r.lastUsedAt.value / c.step);
      var result := Verify(CodesOf(c, r.secret), c.digits, e.code, e.at / c.step, last);
      if result.Accepted? then Some(result.counter) else None
  }

  /** Field by field, what an event does to the record. A setup takes effect unless the enrollment is
      active, and starts over with a new secret. */
  lemma RecordMoves(c: Config, s: State, e: Event)
    requires c.Valid()
    ensures var s', r, taken := Apply(c, s, e), s.record, Accepts(c, s, e);
      var startsOver := e.Setup? && !(r.enrolled && r.confirmed && !r.disabled);
      && s'.record.enrolled == (r.enrolled || startsOver)
      && s'.record.secret == (if startsOver then r.secret + 1 else r.secret)
      && s'.record.confirmed == (if startsOver then false else r.confirmed || (e.Confirm? && taken.Some?))
      && s'.record.lastUsedAt == (if startsOver then None
                                  else if taken.Some? && !e.Disable? then Some(taken.value * c.step) else r.lastUsedAt)
      && s'.accepted == s.accepted + (if taken.Some? then [Acceptance(r.secret, taken.value, e.at)] else [])
  {
  }

  /** An enrollment becomes disabled exactly by the right password with an accepted code or, if the code was
      looked at and refused, a recovery code; setting up again enables it. */
  lemma DisabledIff(c: Config, s: State, e: Event)
    requires c.Valid()
    ensures var s', r := Apply(c, s, e), s.record;
      s'.record.disabled <==>
        || (r.disabled && !e.Setup?)
        || (&& e.Disable? && r.enrolled && r.confirmed && !r.disabled && e.passwordOk
            && (Accepts(c, s, e).Some? || (e.recoveryOk && Check(c, s, e.code, e.at) == Rejected)))
  {
  }

  // ----- Counters only go up -----

  ghost predicate Increasing(accepted: seq<Acceptance>) {
    forall i, j :: 0 <= i < j < |accepted| && accepted[i].secret == accepted[j].secret ==>
      accepted[i].counter < accepted[j].counter
  }

  ghost predicate NearClock(c: Config, accepted: seq<Acceptance>)
    requires c.Valid()
  {
    forall i :: 0 <= i < |accepted| ==>
      accepted[i].at / c.step - 1 <= accepted[i].counter <= accepted[i].at / c.step + 1
  }

  /** What the record remembers covers every acceptance under its secret, as long as it can accept more. */
  ghost predicate Remembered(c: Config, s: State)
    requires c.Valid()
  {
    forall i :: 0 <= i < |s.accepted| ==>
      && s.accepted[i].secret <= s.record.secret
      && (s.accepted[i].secret == s.record.secret && !s.record.disabled ==>
            LastCounter(c, s.record).Some? && s.accepted[i].counter <= LastCounter(c, s.record).value)
  }

  ghost predicate Inv(c: Config, s: State)
    requires c.Valid()
  {
    Increasing(s.accepted) && NearClock(c, s.accepted) && Remembered(c, s)
  }

  /** Storing a counter as a time and dividing it back is exact. */
  lemma StoredCounter(m: int, step: nat)
    requires step > 0
    ensures (m * step) / step == m
  {
    DivideSplit(m, step, 0);
  }

  lemma StepKeepsInv(c: Config, s: State, e: Event)
    requires c.Valid() && Inv(c, s)
    ensures Inv(c, Apply(c, s, e))
  {
    if !e.Setup? && Check(c, s, e.code, e.at).Accepted? {
      var m := Check(c, s, e.code, e.at).counter;
      AcceptedCounter(CodesOf(c, s.record.secret), c.digits, e.code, e.at / c.step, LastCounter(c, s.record));
      StoredCounter(m, c.step);
      assert LastCounter(c, s.record.(lastUsedAt := Some(m * c.step))) == Some(m);
    }
  }

  lemma {:induction false} RunKeepsInv(c: Config, s: State, es: seq<Event>)
    requires c.Valid() && Inv(c, s)
    ensures Inv(c, Run(c, s, es))
    decreases |es|
  {
    if es != [] {
      StepKeepsInv(c, s, es[0]);
      RunKeepsInv(c, Apply(c, s, es[0]), es[1..]);
    }
  }

  /** In every run, between two setups the counters accepted by login, confirm and disable strictly
      increase and lie within one step of the clock. */
  lemma CountersIncrease(c: Config, s: State, es: seq<Event>)
    requires c.Valid() && Initial(s)
    ensures Increasing(Run(c, s, es).accepted) && NearClock(c, Run(c, s, es).accepted)
  {
    RunKeepsInv(c, s, es);
  }

  // ----- The handlers -----

  class Enrollment {
    var record: Record
    ghost var accepted: seq<Acceptance>

    ghost function Snapshot(): State
      reads this
    {
      State(record, accepted)
    }

    constructor ()
      ensures Initial(Snapshot())
    {
      record := Record(false, 0, false, false, None);
      accepted := [];
    }

    method SetupTotp() returns (ok: bool)
      modifies this
      ensures forall c: Config :: c.Valid() ==> Snapshot() == Apply(c, old(Snapshot()), Setup)
      ensures ok == !Active(old(record))
    {
      ok := !(record.enrolled && record.confirmed && !record.disabled);
      if ok { record := Record(true, record.secret + 1, false, false, None); }
    }

    method CheckCode(c: Config, code: string, at: nat) returns (result: Verification)
      requires c.Valid()
      ensures result == Check(c, Snapshot(), code, at)
    {
      var last: Option<int> := None;
      if record.lastUsedAt.Some? { last := Some(record.lastUsedAt.value / c.step); }
      result := VerifyTotpCode(CodesOf(c, record.secret), c.digits, code, c.step, at, last);
    }

    method ConfirmTotp(c: Config, code: string, at: nat) returns (ok: bool)
      requires c.Valid()
      modifies this
      ensures Snapshot() == Apply(c, old(Snapshot()), Confirm(code, at))
      ensures ok == (old(record).enrolled && !old(record).disabled && Check(c, old(Snapshot()), code, at).Accepted?)
    {
      if !record.enrolled || record.disabled { return false; }
      var result := CheckCode(c, code, at);
      if !result.Accepted? { return false; }
      accepted := accepted + [Acceptance(record.secret, result.counter, at)];
      record := record.(confirmed := true, lastUsedAt := Some(result.counter * c.step));
      return true;
    }

    /** `recoveryOk` says whether an unused recovery code matches; one is tried only when the code fails. */
    method RequireForLogin(c: Config, code: string, recoveryOk: bool, at: nat) returns (ok: bool)
      requires c.Valid()
      modifies this
      ensures Snapshot() == Apply(c, old(Snapshot()), LogIn(code, at))
      ensures var check := Check(c, old(Snapshot()), code, at);
        ok == (!Active(old(record)) || check.Accepted? || (check.Rejected? && code != "" && recoveryOk))
    {
      if !(record.enrolled && record.confirmed && !record.disabled) { return true; }
      if code == "" { return false; }
      var result := CheckCode(c, code, at);
      if !result.Accepted? { return result.Rejected? && recoveryOk; }
      accepted := accepted + [Acceptance(record.secret, result.counter, at)];
      record := record.(lastUsedAt := Some(result.counter * c.step));
      return true;
    }

    method DisableTotp(c: Config, code: string, passwordOk: bool, recoveryOk: bool, at: nat) returns (ok: bool)
      requires c.Valid()
      modifies this
      ensures Snapshot() == Apply(c, old(Snapshot()), Disable(code, passwordOk, recoveryOk, at))
      ensures var check := Check(c, old(Snapshot()), code, at);
        ok == (passwordOk && Active(old(record)) && (check.Accepted? || (check.Rejected? && recoveryOk)))
    {
      if !passwordOk { return false; }
      if !record.enrolled || !record.confirmed || record.disabled { return false; }
      var result := CheckCode(c, code, at);
      if result.CounterError? || (result.Rejected? && !recoveryOk) { return false; }
      if result.Accepted? { accepted := accepted + [Acceptance(record.secret, result.counter, at)]; }
      record := record.(disabled := true);
      return true;
    }
  }
}
