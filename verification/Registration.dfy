/** Registration attempts and sequences of one server (core/registration.c:379-629, 638-826, 1018-1081,
    2055-2081). The clock, the outcome of sending and of reading the Server object are parameters. */
module Registration {
  import opened Bytes
  import opened Coap

  const IMPLEMENTATION_LIMIT: nat := 254

  datatype Status = Deregistered | HoldOff | Pending | Registered | Failed

  /** The retry resources of the Server object, absent where the object does not have them. */
  datatype Retry = Retry(attempts: Option<uint64>, attemptDelay: Option<uint64>,
                         sequences: Option<uint64>, sequenceDelay: Option<uint64>)

  /** The part of `lwm2m_server_t` that registration uses, and how many register requests were sent since the
      counters were last reset. */
  datatype State = State(status: Status, attempt: uint8, sequence: uint8, registration: int, sent: nat)

  datatype Reply = Created | Continue | Refused

  datatype Event =
    /** `registration_start`; the delay is what the Server object holds, nothing if it could not be read or if
        another ordered server goes first. */
    | Start(restartFailed: bool, now: int, delay: Option<uint64>)
    /** `registration_step`; `accepted` when `prv_register` gets its request out. */
    | Step(now: int, accepted: bool)
    /** The register request is answered, or given up (`Refused`); the flags say whether the limits could be read, and
        `beyond` is what the doubling shift yields where C leaves it undefined. */
    | Answer(reply: Reply, now: int, attemptsRead: bool, sequencesRead: bool, beyond: int)
    /** The server is deregistered or configured anew. */
    | Forget

  // ----- limits -------------------------------------------------------------------------------

  function Limit(raw: Option<uint64>, default_: uint64): (n: nat)
    requires default_ <= IMPLEMENTATION_LIMIT
    ensures n <= IMPLEMENTATION_LIMIT
  {
    var n := if raw.Some? then raw.value else default_;
    if n > IMPLEMENTATION_LIMIT then IMPLEMENTATION_LIMIT else n
  }

  /** `prv_getRegistrationAttemptLimit` */
  function AttemptLimit(r: Retry): (n: nat)
    ensures n <= IMPLEMENTATION_LIMIT
  {
    Limit(r.attempts, 5)
  }

  function AttemptDelay(r: Retry): uint64 {
    if r.attemptDelay.Some? then r.attemptDelay.value else 60
  }

  /** `prv_getRegistrationSequenceLimit` */
  function SequenceLimit(r: Retry): (n: nat)
    ensures n <= IMPLEMENTATION_LIMIT
  {
    Limit(r.sequences, 1)
  }

  function SequenceDelay(r: Retry): uint64 {
    if r.sequenceDelay.Some? then r.sequenceDelay.value else 86400
  }

  // ----- arithmetic of the C code -------------------------------------------------------------

  const INT_BITS: nat := 32

  /** `1 << k` in an `int`, which is undefined once the bit no longer fits below the sign. */
  function ShiftOne(k: nat, beyond: int): int
  {
    if k < INT_BITS - 1 then Pow2(k) else beyond
  }

  /** A sum of a time and an unsigned 64-bit delay, converted back to a signed 64-bit time. */
  function Later(now: int, delay: int): int
  {
    var sum := (now + delay) % 0x1_0000_0000_0000_0000;
    if sum > INT64_MAX then sum - 0x1_0000_0000_0000_0000 else sum
  }

  lemma {:induction false} LaterIsSum(now: int64, delay: nat)
    ensures Later(now, delay) == now + delay <==> now + delay <= INT64_MAX
  {
  }

  // ----- transitions --------------------------------------------------------------------------

  /** `registration_start`, for one server. */
  function Started(s: State, restartFailed: bool, now: int, delay: Option<uint64>): State
  {
    if s.status.Deregistered? || (restartFailed && s.status.Failed?) then
      var reset := s.(attempt := 0, sequence := 0, sent := 0);
      if delay.None? then reset else reset.(registration := Later(now, delay.value), status := HoldOff)
    else s
  }

  /** `registration_step` and the end of `prv_register`; the counters have eight bits. */
  function Stepped(s: State, now: int, accepted: bool): State
  {
    if s.status.HoldOff? && s.registration - now <= 0 && accepted then
      s.(sequence := if s.attempt == 0 then (s.sequence + 1) % 256 else s.sequence,
         attempt := (s.attempt + 1) % 256, status := Pending, sent := s.sent + 1)
    else s
  }

  /** `prv_handleRegistrationSequenceFailure` */
  function SequenceFailed(r: Retry, s: State, now: int, read: bool): State
  {
    if !read || s.sequence >= SequenceLimit(r) then s.(status := Failed)
    else s.(registration := Later(now, SequenceDelay(r)), status := HoldOff, attempt := 0)
  }

  /** `prv_handleRegistrationAttemptFailure` */
  function AttemptFailed(r: Retry, s: State, now: int, attemptsRead: bool, sequencesRead: bool, beyond: int): State
    requires s.attempt > 0
  {
    if !attemptsRead then s.(status := Failed)
    else if s.attempt >= AttemptLimit(r) then SequenceFailed(r, s, now, sequencesRead)
    else s.(registration := Later(now, AttemptDelay(r) * ShiftOne(s.attempt - 1, beyond)), status := HoldOff)
  }

  /** `prv_handleRegistrationReply` */
  function Answered(r: Retry, s: State, reply: Reply, now: int, attemptsRead: bool, sequencesRead: bool, beyond: int): State
    requires s.status.Pending? ==> s.attempt > 0
  {
    if !s.status.Pending? then s
    else
      var timed := if now >= 0 then s.(registration := now) else s;
      match reply
      case Continue => timed
      case Created => timed.(status := Registered)
      case Refused => AttemptFailed(r, timed, now, attemptsRead, sequencesRead, beyond)
  }

  function Next(r: Retry, s: State, e: Event): State
    requires s.status.Pending? ==> s.attempt > 0
  {
    match e
    case Start(restartFailed, now, delay) => Started(s, restartFailed, now, delay)
    case Step(now, accepted) => Stepped(s, now, accepted)
    case Answer(reply, now, attemptsRead, sequencesRead, beyond) => Answered(r, s, reply, now, attemptsRead, sequencesRead, beyond)
    case Forget => s.(status := Deregistered)
  }

  // ----- what every run keeps -----------------------------------------------------------------

  function AtLeastOne(n: nat): (m: nat)
    ensures m >= 1 && m >= n && (m == n || m == 1)
  {
    if n == 0 then 1 else n
  }

  /** Register requests in a sequence of attempts. */
  function PerSequence(r: Retry): nat {
    AtLeastOne(AttemptLimit(r))
  }

  function Sequences(r: Retry): nat {
    AtLeastOne(SequenceLimit(r))
  }

  /** The requests that the counters stand for. */
  function Counted(r: Retry, s: State): int
  {
    if s.attempt == 0 then s.sequence * PerSequence(r) else (s.sequence - 1) * PerSequence(r) + s.attempt
  }

  /** The counters tell exactly how many requests were sent, and stay within the limits. */
  predicate Valid(r: Retry, s: State) {
    && s.sent == Counted(r, s)
    && s.attempt <= PerSequence(r) && s.sequence <= Sequences(r)
    && (s.attempt > 0 ==> s.sequence > 0)
    && (s.status.Pending? ==> s.attempt > 0)
    && (s.status.HoldOff? ==> if s.attempt == 0 then s.sequence < Sequences(r) else s.attempt < PerSequence(r))
  }

  lemma {:induction false} SequenceStep(k: nat, m: nat)
    ensures (k + 1 - 1) * m + 1 == k * m + 1
    ensures k > 0 ==> (k - 1) * m + m == k * m
  {
    if k > 0 {
      assert (k - 1) * m + m == (k - 1 + 1) * m;
    }
  }

  lemma {:induction false} NextKeepsValid(r: Retry, s: State, e: Event)
    requires Valid(r, s)
    ensures Valid(r, Next(r, s, e))
  {
    SequenceStep(s.sequence, PerSequence(r));
  }

  lemma {:induction false} SentIsBounded(r: Retry, s: State)
    requires Valid(r, s)
    ensures 0 <= s.sent <= Sequences(r) * PerSequence(r)
  {
    var m := PerSequence(r);
    SequenceStep(s.sequence, m);
    ProductMonotone(s.sequence, Sequences(r), m);
  }

  lemma {:induction false} ProductMonotone(a: nat, b: nat, m: nat)
    requires a <= b
    ensures a * m <= b * m
  {
    assert b * m == a * m + (b - a) * m;
  }

  /** A refusal ends the registration exactly when the last request was used up, or a limit could not be read. */
  lemma {:induction false} RefusalIsFinal(r: Retry, s: State, now: int, attemptsRead: bool, sequencesRead: bool, beyond: int)
    requires Valid(r, s) && s.status.Pending?
    ensures var after := Answered(r, s, Refused, now, attemptsRead, sequencesRead, beyond);
            after.status.Failed? <==> !attemptsRead || (s.attempt == PerSequence(r) && !sequencesRead)
                                      || s.sent == Sequences(r) * PerSequence(r)
    ensures var after := Answered(r, s, Refused, now, attemptsRead, sequencesRead, beyond); after.status.Failed? || after.status.HoldOff?
  {
    var m := PerSequence(r);
    SequenceStep(s.sequence, m);
    SequenceStep(Sequences(r), m);
    ProductMonotone(s.sequence, Sequences(r), m);
    if s.sequence < Sequences(r) {
      ProductMonotone(s.sequence + 1, Sequences(r), m);
    }
  }

  // ----- runs ---------------------------------------------------------------------------------

  const Initial: State := State(Deregistered, 0, 0, 0, 0)

  /** The state after a run. */
  function After(r: Retry, events: seq<Event>): (s: State)
    ensures Valid(r, s)
  {
    if events == [] then Initial
    else
      var s := After(r, events[..|events| - 1]);
      NextKeepsValid(r, s, events[|events| - 1]);
      Next(r, s, events[|events| - 1])
  }

  /** Register requests the tail of a run sends. */
  function SentIn(r: Retry, s: State, events: seq<Event>): nat
    requires Valid(r, s)
    decreases |events|
  {
    if events == [] then 0
    else
      NextKeepsValid(r, s, events[0]);
      var next := Next(r, s, events[0]);
      (if events[0].Step? && s.status.HoldOff? && next.status.Pending? then 1 else 0) + SentIn(r, next, events[1..])
  }

  /** Is this event a start that begins the registration anew? */
  predicate Restarts(s: State, e: Event) {
    e.Start? && (s.status.Deregistered? || (e.restartFailed && s.status.Failed?))
  }

  /** A stretch of a run in which the registration does not begin anew. */
  predicate OneRegistration(r: Retry, s: State, events: seq<Event>)
    requires Valid(r, s)
    decreases |events|
  {
    events == [] ||
      (NextKeepsValid(r, s, events[0]); !Restarts(s, events[0]) && OneRegistration(r, Next(r, s, events[0]), events[1..]))
  }

  /** Without a restart every request counts against what remains. */
  lemma {:induction false} SentCounts(r: Retry, s: State, events: seq<Event>)
    requires Valid(r, s) && OneRegistration(r, s, events)
    ensures s.sent + SentIn(r, s, events) <= Sequences(r) * PerSequence(r)
    decreases |events|
  {
    if events == [] {
      SentIsBounded(r, s);
    } else {
      NextKeepsValid(r, s, events[0]);
      SentCounts(r, Next(r, s, events[0]), events[1..]);
      hide Valid;
    }
  }

  /** Between a start and the next one a server sends at most max(1, attempts) * max(1, sequences) register
      requests, whatever the answers, and its eight-bit counters never wrap. */
  lemma {:induction false} RegistrationTerminates(r: Retry, before: seq<Event>, start: Event, run: seq<Event>)
    requires Restarts(After(r, before), start)
    requires OneRegistration(r, After(r, before + [start]), run)
    ensures SentIn(r, After(r, before + [start]), run) <= AtLeastOne(AttemptLimit(r)) * AtLeastOne(SequenceLimit(r))
    ensures var s := After(r, before); s.attempt < 255 && s.sequence < 255
  {
    assert (before + [start])[..|before|] == before;
    assert After(r, before + [start]) == Next(r, After(r, before), start);
    SentCounts(r, After(r, before + [start]), run);
  }

  /** A request is answered with Created at this event. */
  predicate CreatedAt(r: Retry, events: seq<Event>, i: nat)
    requires i < |events|
  {
    events[i].Answer? && events[i].reply.Created? && After(r, events[..i]).status.Pending?
  }

  /** A request gets out at this event. */
  predicate SentAt(r: Retry, events: seq<Event>, i: nat)
    requires i < |events|
  {
    var s := After(r, events[..i]);
    events[i].Step? && events[i].accepted && s.status.HoldOff? && s.registration <= events[i].now
  }

  /** Nothing settles the request: the server is not forgotten, and no answer but Continue comes. */
  predicate Unsettled(e: Event) {
    !e.Forget? && (e.Answer? ==> e.reply.Continue?)
  }

  /** A server is registered exactly when a request of it was answered with Created and it was not forgotten since. */
  lemma {:induction false} RegisteredExactly(r: Retry, events: seq<Event>)
    ensures After(r, events).status.Registered? <==>
              exists i :: 0 <= i < |events| && CreatedAt(r, events, i) && forall j :: i < j < |events| ==> !events[j].Forget?
  {
    if events != [] {
      var before := events[..|events| - 1];
      RegisteredExactly(r, before);
      StatusStep(r, events);
      forall i | 0 <= i < |before| ensures CreatedAt(r, before, i) <==> CreatedAt(r, events, i) {
        assert before[..i] == events[..i];
      }
      hide After, CreatedAt, SentAt, Unsettled;
      assert forall i :: 0 <= i < |before| ==> before[i] == events[i];
    }
  }

  /** A server waits for an answer exactly when a request of it got out and nothing settled it since. */
  lemma {:induction false} PendingExactly(r: Retry, events: seq<Event>)
    ensures After(r, events).status.Pending? <==>
              exists i :: 0 <= i < |events| && SentAt(r, events, i) && forall j :: i < j < |events| ==> Unsettled(events[j])
  {
    if events != [] {
      var before := events[..|events| - 1];
      PendingExactly(r, before);
      StatusStep(r, events);
      forall i | 0 <= i < |before| ensures SentAt(r, before, i) <==> SentAt(r, events, i) {
        assert before[..i] == events[..i];
      }
      hide After, CreatedAt, SentAt, Unsettled;
      assert forall i :: 0 <= i < |before| ==> before[i] == events[i];
    }
  }

  lemma {:induction false} StatusStep(r: Retry, events: seq<Event>)
    requires events != []
    ensures var (n, s, next) := (|events| - 1, After(r, events[..|events| - 1]), After(r, events));
            && (next.status.Registered? <==> CreatedAt(r, events, n) || (s.status.Registered? && !events[n].Forget?))
            && (next.status.Pending? <==> SentAt(r, events, n) || (s.status.Pending? && Unsettled(events[n])))
  {
  }

  /** From then on the time of the registration is that of the answer, if the clock could be read. */
  lemma {:induction false} RegisteredSince(r: Retry, events: seq<Event>, i: nat)
    requires i < |events| && CreatedAt(r, events, i) && forall j :: i < j < |events| ==> !events[j].Forget?
    ensures var (s, before) := (After(r, events), After(r, events[..i]));
            && s.status.Registered?
            && s.registration == (if events[i].now >= 0 then events[i].now else before.registration)
            && s.attempt == before.attempt && s.sequence == before.sequence && s.sent == before.sent
    decreases |events|
  {
    var n := |events| - 1;
    if i < n {
      assert events[..n][..i] == events[..i] && events[..n][i] == events[i];
      RegisteredSince(r, events[..n], i);
      assert After(r, events) == Next(r, After(r, events[..n]), events[n]);
      hide After;
    } else {
      assert After(r, events) == Next(r, After(r, events[..n]), events[n]);
      hide After;
    }
  }

  /** An answer that is not final leaves the request waiting, and takes down when it came. */
  lemma {:induction false} ContinueWaits(r: Retry, s: State, now: int, attemptsRead: bool, sequencesRead: bool, beyond: int)
    requires Valid(r, s) && s.status.Pending?
    ensures var after := Answered(r, s, Continue, now, attemptsRead, sequencesRead, beyond);
            after.registration == (if now >= 0 then now else s.registration) && after.(registration := s.registration) == s
  {
  }

  /** After a start the first request leaves exactly when the delay is over. */
  lemma {:induction false} FirstRequest(s: State, restartFailed: bool, now: int64, delay: uint64)
    requires Restarts(s, Start(restartFailed, now, Some(delay))) && now + delay <= INT64_MAX
    ensures var held := Started(s, restartFailed, now, Some(delay));
            forall later: int, accepted: bool :: Stepped(held, later, accepted).status.Pending? <==> accepted && later >= now + delay
  {
    LaterIsSum(now, delay);
    hide Later;
  }

  /** Without retry resources there are five attempts, a minute, two, four and eight apart, in one sequence; and no
      resource allows more than 254 of either. */
  lemma {:induction false} Defaults(r: Retry)
    ensures r.attempts.None? ==> PerSequence(r) == 5
    ensures r.sequences.None? ==> Sequences(r) == 1
    ensures r.attempts.Some? && r.attempts.value >= 1 ==> PerSequence(r) == Min(r.attempts.value, 254)
    ensures r.sequences.Some? && r.sequences.value >= 1 ==> Sequences(r) == Min(r.sequences.value, 254)
    ensures r.attemptDelay.None? && r.attempts.None? ==>
              forall s: State :: 1 <= s.attempt <= 4 ==> Backoff(r, s) == [60, 120, 240, 480][s.attempt - 1]
    ensures r.sequenceDelay.None? ==> forall s: State :: 0 < s.attempt == PerSequence(r) ==> Backoff(r, s) == 24 * 60 * 60
  {
    assert Pow2(0) == 1 && Pow2(1) == 2 && Pow2(2) == 4 && Pow2(3) == 8;
  }

  /** The back-off that is meant: it doubles with every attempt of a sequence, and a new sequence waits for its own
      delay. */
  function Backoff(r: Retry, s: State): nat
    requires s.attempt > 0
  {
    if s.attempt < AttemptLimit(r) then AttemptDelay(r) * Pow2(s.attempt - 1) else SequenceDelay(r)
  }

  /** After a refusal the next request leaves exactly when the back-off is over. */
  ghost predicate BackoffKept(r: Retry, s: State, now: int64, beyond: int)
    requires Valid(r, s) && s.status.Pending?
  {
    var held := Answered(r, s, Refused, now, true, true, beyond);
    held.status.HoldOff? ==>
      forall later: int, accepted: bool ::
        Stepped(held, later, accepted).status.Pending? <==> accepted && later >= now + Backoff(r, s)
  }

  /** Does the computation of the back-off stay within its types? The 31st attempt is the last to be doubled in an
      `int`. */
  predicate BackoffFits(r: Retry, s: State, now: int64)
    requires s.attempt > 0
  {
    && (s.attempt < AttemptLimit(r) && AttemptDelay(r) > 0 ==> s.attempt < INT_BITS)
    && now + Backoff(r, s) <= INT64_MAX
  }

  /** A back-off is kept, whatever an undefined shift may yield, exactly when its computation stays within its types:
      up to attempt 31, and before the end of time. */
  lemma {:induction false} BackoffIsKept(r: Retry, s: State, now: int64)
    requires Valid(r, s) && s.status.Pending? && Answered(r, s, Refused, now, true, true, 0).status.HoldOff?
    ensures (forall beyond: int :: BackoffKept(r, s, now, beyond)) <==> BackoffFits(r, s, now)
  {
    LaterIsSum(now, Backoff(r, s));
    LaterIsSum(now, 0);
    forall beyond: int
      ensures var held := Answered(r, s, Refused, now, true, true, beyond);
              held.status.HoldOff? && (BackoffKept(r, s, now, beyond) <==> held.registration == now + Backoff(r, s))
    {
      KeptIsDeadline(r, s, now, beyond);
    }
    hide BackoffKept, Later, Valid;
    if s.attempt < AttemptLimit(r) && AttemptDelay(r) > 0 && s.attempt >= INT_BITS {
      assert AttemptDelay(r) * Pow2(s.attempt - 1) > 0;
      assert !BackoffKept(r, s, now, 0);
    }
    if !BackoffFits(r, s, now) {
      assert !BackoffKept(r, s, now, 0);
    }
  }

  lemma {:induction false} KeptIsDeadline(r: Retry, s: State, now: int64, beyond: int)
    requires Valid(r, s) && s.status.Pending? && Answered(r, s, Refused, now, true, true, 0).status.HoldOff?
    ensures var held := Answered(r, s, Refused, now, true, true, beyond);
            held.status.HoldOff? && (BackoffKept(r, s, now, beyond) <==> held.registration == now + Backoff(r, s))
  {
    var held := Answered(r, s, Refused, now, true, true, beyond);
    hide Backoff, Later, Valid;
    if BackoffKept(r, s, now, beyond) {
      assert Stepped(held, held.registration, true).status.Pending?;
      assert Stepped(held, now + Backoff(r, s), true).status.Pending?;
    }
  }

  // ----- the server, updated in place ---------------------------------------------------------

  class Server {
    var status: Status
    var attempt: uint8
    var sequence: uint8
    var registration: int
    ghost var sent: nat

    ghost function St(): State
      reads this
    {
      State(status, attempt, sequence, registration, sent)
    }

    constructor ()
      ensures St() == Initial
    {
      status, attempt, sequence, registration, sent := Deregistered, 0, 0, 0, 0;
    }

    /** `registration_start` */
    method Start(restartFailed: bool, now: int, delay: Option<uint64>)
      modifies this
      ensures St() == Started(old(St()), restartFailed, now, delay)
    {
      if status == Deregistered || (restartFailed && status == Failed) {
        attempt := 0;
        sequence := 0;
        sent := 0;
        if delay.Some? {
          registration := Later(now, delay.value);
          status := HoldOff;
        }
      }
    }

    /** The state change of `prv_register` once its request is out. */
    method Register()
      modifies this
      ensures sequence == if old(attempt) == 0 then (old(sequence) + 1) % 256 else old(sequence)
      ensures attempt == (old(attempt) + 1) % 256 && status == Pending && sent == old(sent) + 1 && registration == old(registration)
    {
      if attempt == 0 {
        sequence := (sequence + 1) % 256;
      }
      attempt := (attempt + 1) % 256;
      status := Pending;
      sent := sent + 1;
    }

    /** `registration_step` */
    method Step(now: int, accepted: bool)
      modifies this
      ensures St() == Stepped(old(St()), now, accepted)
    {
      if status == HoldOff {
        var interval := registration - now;
        if 0 >= interval && accepted {
          Register();
        }
      }
    }

    /** `prv_handleRegistrationReply` */
    method HandleReply(r: Retry, reply: Reply, now: int, attemptsRead: bool, sequencesRead: bool, beyond: int)
      requires Valid(r, St())
      modifies this
      ensures St() == Answered(r, old(St()), reply, now, attemptsRead, sequencesRead, beyond)
      ensures Valid(r, St())
    {
      NextKeepsValid(r, St(), Answer(reply, now, attemptsRead, sequencesRead, beyond));
      if status == Pending {
        if now >= 0 {
          registration := now;
        }
        if reply == Continue {
          return;
        }
        if reply == Created {
          status := Registered;
        } else {
          HandleAttemptFailure(r, now, attemptsRead, sequencesRead, beyond);
        }
      }
    }

    /** `prv_handleRegistrationAttemptFailure` with the sequence failure it may lead to. */
    method HandleAttemptFailure(r: Retry, now: int, attemptsRead: bool, sequencesRead: bool, beyond: int)
      requires attempt > 0
      modifies this
      ensures St() == AttemptFailed(r, old(St()), now, attemptsRead, sequencesRead, beyond)
    {
      if !attemptsRead {
        status := Failed;
      } else if attempt >= AttemptLimit(r) {
        if sequencesRead && sequence < SequenceLimit(r) {
          registration := Later(now, SequenceDelay(r));
          status := HoldOff;
          attempt := 0;
        } else {
          status := Failed;
        }
      } else {
        registration := Later(now, AttemptDelay(r) * ShiftOne(attempt - 1, beyond));
        status := HoldOff;
      }
    }
  }
}
