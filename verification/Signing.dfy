/** Signing calls: up to three attempts, one circuit breaker and one metrics log for the process. */
module Signing {
  import opened Common
  import opened SigningMetrics

  const RETRY_MAX_ATTEMPTS: nat := 3
  const CIRCUIT_BREAKER_THRESHOLD: nat := 5
  const CIRCUIT_BREAKER_COOLDOWN: real := 60.0

  datatype Outcome = Answered | Raised(policyDenial: bool, retriable: bool)

  datatype Attempt = Attempt(startedAt: real, outcome: Outcome)

  /** What each of the three attempts would meet, whether or not it is made. */
  type Attempts = s: seq<Attempt> | |s| == 3 witness [Attempt(0.0, Answered), Attempt(0.0, Answered), Attempt(0.0, Answered)]

  /** A health endpoint reads the breaker too, and that read may reset it. */
  datatype Event =
    | Read(at: real)
    | Call(checkedAt: real, attempts: Attempts, failedAt: real)

  function Begin(e: Event): real { if e.Read? then e.at else e.checkedAt }

  datatype Breaker = Breaker(failures: nat, trippedAt: Option<real>)

  const CLOSED := Breaker(0, None)

  predicate CoolingDown(b: Breaker, now: real) {
    b.trippedAt.Some? && now - b.trippedAt.value < CIRCUIT_BREAKER_COOLDOWN
  }

  function AfterRead(b: Breaker, now: real): Breaker {
    if b.trippedAt.Some? && !CoolingDown(b, now) then CLOSED else b
  }

  function AfterFailure(b: Breaker, now: real): Breaker {
    Breaker(b.failures + 1,
            if b.failures + 1 >= CIRCUIT_BREAKER_THRESHOLD && b.trippedAt.None? then Some(now) else b.trippedAt)
  }

  /** An attempt is followed by another only after a transient error that is not a policy denial. */
  predicate Retries(a: Attempt) { a.outcome.Raised? && !a.outcome.policyDenial && a.outcome.retriable }

  function Made(attempts: Attempts, k: nat): (n: nat)
    requires 1 <= k <= RETRY_MAX_ATTEMPTS
    ensures k <= n <= RETRY_MAX_ATTEMPTS
    ensures forall j :: k - 1 <= j < n - 1 ==> Retries(attempts[j])
    ensures n == RETRY_MAX_ATTEMPTS || !Retries(attempts[n - 1])
    decreases RETRY_MAX_ATTEMPTS - k
  {
    if k < RETRY_MAX_ATTEMPTS && Retries(attempts[k - 1]) then Made(attempts, k + 1) else k
  }

  function Ended(attempts: Attempts): Kind {
    match attempts[Made(attempts, 1) - 1].outcome
    case Answered => Success
    case Raised(denial, _) => if denial then PolicyDenied else Error
  }

  function Verdict(b: Breaker, e: Event): Kind
    requires e.Call?
  {
    if CoolingDown(b, e.checkedAt) then CircuitOpen else Ended(e.attempts)
  }

  /** The starting times of the calls that really reach the signing service. */
  function Issued(b: Breaker, e: Event): (starts: seq<real>)
    ensures |starts| <= 3
  {
    if e.Read? || CoolingDown(b, e.checkedAt) then []
    else seq(Made(e.attempts, 1), j requires 0 <= j < Made(e.attempts, 1) => e.attempts[j].startedAt)
  }

  function Step(b: Breaker, e: Event): Breaker {
    match e
    case Read(now) => AfterRead(b, now)
    case Call(now, attempts, failedAt) =>
      if CoolingDown(b, now) then b
      else
        match Ended(attempts)
        case Success => CLOSED
        case Error => AfterFailure(AfterRead(b, now), failedAt)
        case PolicyDenied => AfterRead(b, now)
        case CircuitOpen => b
  }

  /** The breaker after the first `n` events. */
  function After(es: seq<Event>, n: nat): Breaker
    requires n <= |es|
  {
    if n == 0 then CLOSED else Step(After(es, n - 1), es[n - 1])
  }

  lemma Unfold(es: seq<Event>, n: nat)
    requires n <= |es|
    ensures After(es, n) == if n == 0 then CLOSED else Step(After(es, n - 1), es[n - 1])
  {
  }

  // ------------------------------------------------------------------ the log

  /** What the log of a run records: outcomes of calls, and each time a read saw the cooldown over. */
  datatype Entry = Expired | Rejected | Succeeded | Denied | Failed(at: real)

  function Expiry(b: Breaker, now: real): seq<Entry> {
    if b.trippedAt.Some? && now >= b.trippedAt.value + CIRCUIT_BREAKER_COOLDOWN then [Expired] else []
  }

  function Entries(b: Breaker, e: Event): seq<Entry> {
    match e
    case Read(now) => Expiry(b, now)
    case Call(now, attempts, failedAt) =>
      match Verdict(b, e)
      case CircuitOpen => [Rejected]
      case Success => Expiry(b, now) + [Succeeded]
      case PolicyDenied => Expiry(b, now) + [Denied]
      case Error => Expiry(b, now) + [Failed(failedAt)]
  }

  function Log(es: seq<Event>, n: nat): seq<Entry>
    requires n <= |es|
  {
    if n == 0 then [] else Log(es, n - 1) + Entries(After(es, n - 1), es[n - 1])
  }

  /** Times of the failed calls since the last success or observed expiry. */
  function Streak(log: seq<Entry>): seq<real> {
    if log == [] then []
    else
      var before := log[..|log| - 1];
      match log[|log| - 1]
      case Failed(at) => Streak(before) + [at]
      case Expired => []
      case Succeeded => []
      case Rejected => Streak(before)
      case Denied => Streak(before)
  }

  function FromStreak(streak: seq<real>): Breaker {
    Breaker(|streak|,
            if |streak| >= CIRCUIT_BREAKER_THRESHOLD then Some(streak[CIRCUIT_BREAKER_THRESHOLD - 1]) else None)
  }

  lemma {:induction false} StreakAfter(log: seq<Entry>, e: Entry)
    ensures Streak(log + [e]) == (match e
                                  case Failed(at) => Streak(log) + [at]
                                  case Expired => []
                                  case Succeeded => []
                                  case Rejected => Streak(log)
                                  case Denied => Streak(log))
  {
    assert (log + [e])[..|log|] == log;
  }

  lemma {:induction false} StepMatches(b: Breaker, log: seq<Entry>, e: Event)
    requires b == FromStreak(Streak(log)) && |Streak(log)| <= CIRCUIT_BREAKER_THRESHOLD
    ensures var streak := Streak(log + Entries(b, e));
            Step(b, e) == FromStreak(streak) && |streak| <= CIRCUIT_BREAKER_THRESHOLD
  {
    hide Streak;
    var now := Begin(e);
    StreakAfter(log, Expired);
    assert log + [] == log;
    if e.Call? {
      var read := log + Expiry(b, now);
      var last := Entries(b, e)[|Entries(b, e)| - 1];
      StreakAfter(read, last);
      Associative(log, Expiry(b, now), [last]);
      StreakAfter(log, last);
    }
  }

  /** On every run the counter and the trip time are those of the log's current streak of failures. */
  lemma {:induction false} BreakerMatchesLog(es: seq<Event>, n: nat)
    requires n <= |es|
    ensures var streak := Streak(Log(es, n));
            && After(es, n) == FromStreak(streak)
            && |streak| <= CIRCUIT_BREAKER_THRESHOLD
            && (After(es, n).trippedAt.Some? <==> After(es, n).failures >= CIRCUIT_BREAKER_THRESHOLD)
  {
    hide After, Step, Log, Streak, Entries;
    Unfold(es, n);
    UnfoldLog(es, n);
    if n == 0 {
      assert Streak([]) == [] by { NoStreak(); }
    } else {
      BreakerMatchesLog(es, n - 1);
      StepMatches(After(es, n - 1), Log(es, n - 1), es[n - 1]);
    }
  }

  lemma UnfoldLog(es: seq<Event>, n: nat)
    requires n <= |es|
    ensures Log(es, n) == if n == 0 then [] else Log(es, n - 1) + Entries(After(es, n - 1), es[n - 1])
  {
  }

  lemma NoStreak()
    ensures Streak([]) == []
  {
  }

  /** A call is turned away exactly when five failures stand in a row and the fifth is under 60 s old. */
  lemma {:induction false} RejectedExactly(es: seq<Event>, i: nat)
    requires i < |es| && es[i].Call?
    ensures var streak := Streak(Log(es, i));
            && (Issued(After(es, i), es[i]) == [] <==>
                  |streak| == CIRCUIT_BREAKER_THRESHOLD && es[i].checkedAt < streak[CIRCUIT_BREAKER_THRESHOLD - 1] + CIRCUIT_BREAKER_COOLDOWN)
            && (Issued(After(es, i), es[i]) == [] <==> Verdict(After(es, i), es[i]) == CircuitOpen)
  {
    hide After, Log, Streak;
    BreakerMatchesLog(es, i);
  }

  /** How a call ended, read off its last attempt: the number of requests issued says which one that was. */
  predicate EndsAs(b: Breaker, e: Event, k: Kind) {
    && e.Call?
    && var n := |Issued(b, e)|;
       match k
       case CircuitOpen => n == 0
       case Success => n > 0 && e.attempts[n - 1].outcome.Answered?
       case PolicyDenied => n > 0 && e.attempts[n - 1].outcome.Raised? && e.attempts[n - 1].outcome.policyDenial
       case Error => n > 0 && e.attempts[n - 1].outcome.Raised? && !e.attempts[n - 1].outcome.policyDenial
  }

  lemma VerdictIsEnding(b: Breaker, e: Event, k: Kind)
    ensures EndsAs(b, e, k) <==> e.Call? && Verdict(b, e) == k
  {
  }

  /** A read or a check of the breaker that sees a trip at least 60 s old. */
  predicate SeesExpiry(b: Breaker, now: real) { b.trippedAt.Some? && now >= b.trippedAt.value + 60.0 }

  /**
   What one call of any run does, told by its attempts alone.  Turned away, it issues nothing and
   changes nothing.  Otherwise it issues one to three requests, all but the last of them met by a
   transient error that is no policy denial; the last one decides: an answer closes the breaker, a
   denial leaves what the check left, any other error counts one and trips at the fifth.
   */
  lemma {:induction false} CallExactly(es: seq<Event>, i: nat)
    requires i < |es| && es[i].Call?
    ensures var b, c, e, n := After(es, i), After(es, i + 1), es[i], |Issued(After(es, i), es[i])|;
            var checked := if SeesExpiry(b, e.checkedAt) then Breaker(0, None) else b;
            && (n == 0 <==> b.trippedAt.Some? && e.checkedAt < b.trippedAt.value + 60.0)
            && (n == 0 ==> c == b && Verdict(b, e) == CircuitOpen)
            && (forall j :: 0 <= j < n ==> Issued(b, e)[j] == e.attempts[j].startedAt)
            && (forall j :: 0 <= j < n - 1 ==> e.attempts[j].outcome == Raised(false, true))
            && (n == 3 || n == 0 || e.attempts[n - 1].outcome != Raised(false, true))
            && (n > 0 ==>
                  match e.attempts[n - 1].outcome
                  case Answered => c == Breaker(0, None) && Verdict(b, e) == Success
                  case Raised(true, _) => c == checked && Verdict(b, e) == PolicyDenied
                  case Raised(false, _) =>
                    && c == Breaker(checked.failures + 1, if checked.failures + 1 == 5 then Some(e.failedAt) else None)
                    && checked.failures < 5 && Verdict(b, e) == Error)
  {
    hide After, Log, Streak;
    BreakerMatchesLog(es, i);
    Unfold(es, i + 1);
    CallStep(After(es, i), es[i]);
  }

  lemma {:induction false} CallStep(b: Breaker, e: Event)
    requires e.Call? && b.failures <= 5 && (b.trippedAt.Some? <==> b.failures >= 5)
    ensures var c, n := Step(b, e), |Issued(b, e)|;
            var checked := if SeesExpiry(b, e.checkedAt) then Breaker(0, None) else b;
            && (n == 0 <==> b.trippedAt.Some? && e.checkedAt < b.trippedAt.value + 60.0)
            && (n == 0 ==> c == b && Verdict(b, e) == CircuitOpen)
            && (forall j :: 0 <= j < n ==> Issued(b, e)[j] == e.attempts[j].startedAt)
            && (forall j :: 0 <= j < n - 1 ==> e.attempts[j].outcome == Raised(false, true))
            && (n == 3 || n == 0 || e.attempts[n - 1].outcome != Raised(false, true))
            && (n > 0 ==>
                  match e.attempts[n - 1].outcome
                  case Answered => c == Breaker(0, None) && Verdict(b, e) == Success
                  case Raised(true, _) => c == checked && Verdict(b, e) == PolicyDenied
                  case Raised(false, _) =>
                    && c == Breaker(checked.failures + 1, if checked.failures + 1 == 5 then Some(e.failedAt) else None)
                    && checked.failures < 5 && Verdict(b, e) == Error)
  {
    hide Made;
    var n := Made(e.attempts, 1);
    assert forall j :: 0 <= j < n - 1 ==> Retries(e.attempts[j]);
  }

  /** Call `i` reached the service, and its last attempt met an error that is no policy denial. */
  predicate FailsAt(es: seq<Event>, i: nat)
    requires i < |es|
  {
    EndsAs(After(es, i), es[i], Error)
  }

  /** Event `i` ends every streak before it: an answered call, or a read or check that sees the cooldown over. */
  predicate ClearsAt(es: seq<Event>, i: nat)
    requires i < |es|
  {
    SeesExpiry(After(es, i), Begin(es[i])) || EndsAs(After(es, i), es[i], Success)
  }

  /** Something clears after event `i` and before event `n`. */
  predicate ClearedAfter(es: seq<Event>, i: nat, n: nat)
    requires n <= |es|
  {
    exists j :: i < j < n && ClearsAt(es, j)
  }

  /** `calls` are, in order, exactly the failed calls before event `n` with nothing that clears after them. */
  predicate IsStreak(es: seq<Event>, n: nat, calls: seq<nat>)
    requires n <= |es|
  {
    && (forall j, k :: 0 <= j < k < |calls| ==> calls[j] < calls[k])
    && (forall i :: i in calls ==> i < n)
    && (forall i: nat :: i < n ==> (i in calls <==> FailsAt(es, i) && !ClearedAfter(es, i, n)))
  }

  lemma {:induction false} CounterStep(b: Breaker, e: Event)
    ensures var c := Step(b, e);
            var base := if SeesExpiry(b, Begin(e)) || EndsAs(b, e, Success) then 0 else b.failures;
            c.failures == base + if EndsAs(b, e, Error) then 1 else 0
    ensures !(EndsAs(b, e, Error) && EndsAs(b, e, Success))
  {
    VerdictIsEnding(b, e, Success);
    VerdictIsEnding(b, e, Error);
    hide EndsAs, Made;
  }

  lemma {:induction false} ClearedStep(es: seq<Event>, i: nat, n: nat)
    requires i + 1 < n <= |es|
    ensures ClearedAfter(es, i, n) <==> ClearedAfter(es, i, n - 1) || ClearsAt(es, n - 1)
  {
    hide ClearsAt;
    if ClearedAfter(es, i, n - 1) {
      var j :| i < j < n - 1 && ClearsAt(es, j);
    }
  }

  lemma NotYetCleared(es: seq<Event>, n: nat)
    requires 0 < n <= |es|
    ensures !ClearedAfter(es, n - 1, n)
  {
  }

  lemma {:induction false} StreakStep(es: seq<Event>, n: nat, before: seq<nat>, calls: seq<nat>)
    requires 0 < n <= |es| && IsStreak(es, n - 1, before)
    requires calls == (if ClearsAt(es, n - 1) then [] else before) + (if FailsAt(es, n - 1) then [n - 1] else [])
    ensures IsStreak(es, n, calls)
  {
    hide FailsAt, ClearsAt, ClearedAfter;
    var kept, last := if ClearsAt(es, n - 1) then [] else before, if FailsAt(es, n - 1) then [n - 1] else [];
    assert forall i: nat :: i in calls <==> i in kept || i in last;
    assert forall j :: 0 <= j < |kept| ==> kept[j] in before;
    assert !ClearedAfter(es, n - 1, n) by { NotYetCleared(es, n); }
    forall i: nat | i < n ensures i in calls <==> FailsAt(es, i) && !ClearedAfter(es, i, n) {
      if i < n - 1 {
        ClearedStep(es, i, n);
      }
    }
  }

  /** The counter is the number of distinct failed calls since the last clearing event, one each whatever their attempts. */
  lemma {:induction false} CounterCountsCalls(es: seq<Event>, n: nat) returns (calls: seq<nat>)
    requires n <= |es|
    ensures IsStreak(es, n, calls) && |calls| == After(es, n).failures
    ensures n > 0 ==> After(es, n).failures <= After(es, n - 1).failures + 1
  {
    hide After, Step, EndsAs, SeesExpiry, IsStreak;
    Unfold(es, n);
    if n == 0 {
      calls := [];
      assert IsStreak(es, 0, []) by { NoCalls(es); }
    } else {
      var before := CounterCountsCalls(es, n - 1);
      CounterStep(After(es, n - 1), es[n - 1]);
      calls := (if ClearsAt(es, n - 1) then [] else before) + (if FailsAt(es, n - 1) then [n - 1] else []);
      StreakStep(es, n, before, calls);
    }
  }

  lemma NoCalls(es: seq<Event>)
    ensures IsStreak(es, 0, [])
  {
  }

  /** Event `i` trips the breaker at time `t`. */
  predicate TripsAt(es: seq<Event>, i: nat, t: real)
    requires i < |es|
  {
    After(es, i + 1).trippedAt == Some(t) && After(es, i).trippedAt != Some(t)
  }

  /** A trip takes five failed calls in a row: distinct, the last of them the tripping one, with no success or expiry in between. */
  lemma {:induction false} TripTakesFiveCalls(es: seq<Event>, i: nat, t: real) returns (calls: seq<nat>)
    requires i < |es| && TripsAt(es, i, t)
    ensures |calls| == 5 && IsStreak(es, i + 1, calls)
    ensures calls[|calls| - 1] == i && t == es[i].failedAt
  {
    hide After, Step, EndsAs, SeesExpiry, Log, Streak;
    BreakerMatchesLog(es, i + 1);
    calls := CounterCountsCalls(es, i + 1);
    Unfold(es, i + 1);
    TripStep(After(es, i), es[i], t);
    assert FailsAt(es, i) && !ClearedAfter(es, i, i + 1);
    assert i in calls && calls[|calls| - 1] in calls;
  }

  lemma {:induction false} TripStep(b: Breaker, e: Event, t: real)
    requires Step(b, e).trippedAt == Some(t) && b.trippedAt != Some(t)
    ensures EndsAs(b, e, Error) && t == e.failedAt
  {
    VerdictIsEnding(b, e, Error);
    hide EndsAs;
  }

  // ------------------------------------------------------------------ the cooldown

  /** Within one event: the check, then the attempts made, then the failure's own reading of the clock. */
  predicate Ordered(e: Event) {
    e.Call? ==>
      && e.checkedAt <= e.failedAt
      && forall j :: 0 <= j < Made(e.attempts, 1) ==> e.checkedAt <= e.attempts[j].startedAt <= e.failedAt
  }

  predicate Clocked(es: seq<Event>) {
    && (forall i :: 0 <= i < |es| ==> Ordered(es[i]))
    && (forall i, j :: 0 <= i < j < |es| ==> Begin(es[i]) <= Begin(es[j]) && (es[i].Call? ==> es[i].failedAt <= Begin(es[j])))
  }

  lemma {:induction false} TripHolds(es: seq<Event>, i: nat, j: nat, t: real)
    requires i < j <= |es| && Clocked(es) && TripsAt(es, i, t)
    ensures After(es, j).trippedAt == Some(t) || Begin(es[j - 1]) >= t + CIRCUIT_BREAKER_COOLDOWN
    decreases j
  {
    hide After, Made;
    Unfold(es, j);
    if j > i + 1 {
      TripHolds(es, i, j - 1, t);
    }
  }

  /** From a trip until 60 s later no call reaches the signing service. */
  lemma {:induction false} SilentWhileCoolingDown(es: seq<Event>, i: nat, j: nat, t: real, started: real)
    requires i < j < |es| && Clocked(es) && TripsAt(es, i, t)
    requires started in Issued(After(es, j), es[j])
    ensures started >= t + 60.0
  {
    hide After, Made;
    TripHolds(es, i, j, t);
    assert started >= es[j].checkedAt;
  }

  // ------------------------------------------------------------------ the metrics of a run

  /** What event `i` does to the metrics: a call records its verdict, a health read asks for a summary. */
  datatype Clock = Clock(loggedAt: real, countAt: real, asked: Option<real>)

  function MetricsOf(es: seq<Event>, clocks: seq<Clock>, n: nat): (ops: seq<Operation>)
    requires n <= |es| && |clocks| == |es|
    ensures |ops| == n
  {
    if n == 0 then []
    else
      var e, c := es[n - 1], clocks[n - 1];
      MetricsOf(es, clocks, n - 1) +
      [if e.Read? then Summarize(c.loggedAt, c.countAt, c.asked)
       else Operation.Record(SigningEvent(c.loggedAt, Verdict(After(es, n - 1), e)))]
  }

  /** The calls among the first `n` events that ended in a given way and were logged since `cutoff`. */
  function CallsEnding(es: seq<Event>, clocks: seq<Clock>, n: nat, k: Kind, cutoff: real): nat
    requires n <= |es| && |clocks| == |es|
  {
    if n == 0 then 0
    else
      var e := es[n - 1];
      CallsEnding(es, clocks, n - 1, k, cutoff) +
      if EndsAs(After(es, n - 1), e, k) && clocks[n - 1].loggedAt >= cutoff then 1 else 0
  }

  lemma {:induction false} RecordedCountsCalls(es: seq<Event>, clocks: seq<Clock>, n: nat, k: Kind, cutoff: real)
    requires n <= |es| && |clocks| == |es|
    ensures Count(Recorded(MetricsOf(es, clocks, n), n), k, cutoff) == CallsEnding(es, clocks, n, k, cutoff)
  {
    hide After, Step, Verdict, Recorded, Count, EndsAs;
    if n == 0 {
      NothingRecorded(k, cutoff);
    } else {
      VerdictIsEnding(After(es, n - 1), es[n - 1], k);
      RecordedCountsCalls(es, clocks, n - 1, k, cutoff);
      RecordedMore(MetricsOf(es, clocks, n - 1), MetricsOf(es, clocks, n)[n - 1], k, cutoff);
    }
  }

  lemma NothingRecorded(k: Kind, cutoff: real)
    ensures Count(Recorded([], 0), k, cutoff) == 0
  {
  }

  lemma {:induction false} RecordedMore(ops: seq<Operation>, op: Operation, k: Kind, cutoff: real)
    ensures Count(Recorded(ops + [op], |ops| + 1), k, cutoff) == Count(Recorded(ops, |ops|), k, cutoff) +
            if op.Record? && op.event.result == k && op.event.timestamp >= cutoff then 1 else 0
  {
    RecordedPrefix(ops, ops + [op], |ops|);
    hide Count;
    if op.Record? {
      CountOneMore(Recorded(ops, |ops|), op.event, k, cutoff);
    }
  }

  lemma {:induction false} RecordedPrefix(ops: seq<Operation>, longer: seq<Operation>, n: nat)
    requires n <= |ops| <= |longer| && ops == longer[..|ops|]
    ensures Recorded(ops, n) == Recorded(longer, n)
  {
    if n > 0 {
      RecordedPrefix(ops, longer, n - 1);
    }
  }

  lemma {:induction false} CountOneMore(events: seq<SigningEvent>, ev: SigningEvent, k: Kind, cutoff: real)
    ensures Count(events + [ev], k, cutoff) == Count(events, k, cutoff) + if ev.result == k && ev.timestamp >= cutoff then 1 else 0
  {
    assert (events + [ev])[..|events|] == events;
  }

  /**
   What a health read answers, over any run of calls and reads: for each verdict the number of calls
   that ended so within the window, each call counted once however many attempts it made.
   */
  lemma {:induction false} SummaryCountsCalls(es: seq<Event>, clocks: seq<Clock>, i: nat)
    requires i < |es| && |clocks| == |es| && es[i].Read?
    requires ReadsInOrder(MetricsOf(es, clocks, |es|)) && (clocks[i].asked.Some? ==> clocks[i].asked.value <= 86400.0)
    ensures var ops, cutoff := MetricsOf(es, clocks, |es|), clocks[i].countAt - if clocks[i].asked in {None, Some(0.0)} then 86400.0 else clocks[i].asked.value;
            && ops[i] == Summarize(clocks[i].loggedAt, clocks[i].countAt, clocks[i].asked)
            && Answer(ops, i) == Summary(CallsEnding(es, clocks, i + 1, Success, cutoff), CallsEnding(es, clocks, i + 1, PolicyDenied, cutoff),
                                         CallsEnding(es, clocks, i + 1, Error, cutoff), CallsEnding(es, clocks, i + 1, CircuitOpen, cutoff))
  {
    hide After, Verdict, CallsEnding, Count, Recorded, Deque, ReadsInOrder;
    var ops, cutoff := MetricsOf(es, clocks, |es|), clocks[i].countAt - if clocks[i].asked in {None, Some(0.0)} then 86400.0 else clocks[i].asked.value;
    MetricsPrefix(es, clocks, i + 1, |es|);
    assert ops[i] == MetricsOf(es, clocks, i + 1)[i];
    SummaryAgreesWithLog(ops, i);
    RecordedPrefix(MetricsOf(es, clocks, i + 1), ops, i + 1);
    RecordedCountsCalls(es, clocks, i + 1, Success, cutoff);
    RecordedCountsCalls(es, clocks, i + 1, PolicyDenied, cutoff);
    RecordedCountsCalls(es, clocks, i + 1, Error, cutoff);
    RecordedCountsCalls(es, clocks, i + 1, CircuitOpen, cutoff);
  }

  lemma {:induction false} MetricsPrefix(es: seq<Event>, clocks: seq<Clock>, n: nat, m: nat)
    requires n <= m <= |es| && |clocks| == |es|
    ensures MetricsOf(es, clocks, n) == MetricsOf(es, clocks, m)[..n]
  {
    hide After, Verdict;
    if n < m {
      MetricsPrefix(es, clocks, n, m - 1);
    }
  }

  // ------------------------------------------------------------------ the classes

  class SigningCircuitBreaker {
    var consecutiveFailures: nat
    var trippedAt: Option<real>

    constructor ()
      ensures View() == CLOSED
    {
      consecutiveFailures, trippedAt := 0, None;
    }

    function View(): Breaker
      reads this
    {
      Breaker(consecutiveFailures, trippedAt)
    }

    method IsOpen(now: real) returns (open: bool)
      modifies this
      ensures View() == AfterRead(old(View()), now)
      ensures open == CoolingDown(old(View()), now)
    {
      if trippedAt.None? { return false; }
      var elapsed := now - trippedAt.value;
      if elapsed >= CIRCUIT_BREAKER_COOLDOWN {
        trippedAt := None;
        consecutiveFailures := 0;
        return false;
      }
      return true;
    }

    method RecordSuccess()
      modifies this
      ensures View() == CLOSED
    {
      consecutiveFailures := 0;
      if trippedAt.Some? {
        trippedAt := None;
      }
    }

    method RecordFailure(now: real)
      modifies this
      ensures View() == AfterFailure(old(View()), now)
    {
      consecutiveFailures := consecutiveFailures + 1;
      if consecutiveFailures >= CIRCUIT_BREAKER_THRESHOLD && trippedAt.None? {
        trippedAt := Some(now);
      }
    }
  }

  class PrivyWalletSigner {
    const breaker: SigningCircuitBreaker
    const metrics: Metrics

    constructor (breaker: SigningCircuitBreaker, metrics: Metrics)
      ensures this.breaker == breaker && this.metrics == metrics
    {
      this.breaker, this.metrics := breaker, metrics;
    }

    /** `slept` is the total back-off: nothing, 1 s, or 1 s and then 2 s. */
    method CallRpc(call: Event, loggedAt: real) returns (verdict: Kind, issued: seq<real>, slept: nat)
      requires call.Call?
      modifies breaker, metrics
      ensures breaker.View() == Step(old(breaker.View()), call)
      ensures verdict == Verdict(old(breaker.View()), call)
      ensures issued == Issued(old(breaker.View()), call)
      ensures metrics.events == old(metrics.events) + [SigningEvent(loggedAt, verdict)]
      ensures |issued| <= RETRY_MAX_ATTEMPTS && slept == (if |issued| <= 1 then 0 else if |issued| == 2 then 1 else 3)
    {
      issued, slept := [], 0;
      var open := breaker.IsOpen(call.checkedAt);
      if open {
        metrics.Record(loggedAt, CircuitOpen);
        return CircuitOpen, issued, slept;
      }
      var attempt, backoff := 1, 1;
      while attempt <= RETRY_MAX_ATTEMPTS
        invariant 1 <= attempt <= RETRY_MAX_ATTEMPTS
        invariant Made(call.attempts, 1) == Made(call.attempts, attempt)
        invariant issued == seq(attempt - 1, j requires 0 <= j < attempt - 1 => call.attempts[j].startedAt)
        invariant slept + 1 == backoff == (if attempt == 1 then 1 else if attempt == 2 then 2 else 4)
        invariant breaker.View() == AfterRead(old(breaker.View()), call.checkedAt)
        invariant metrics.events == old(metrics.events)
        decreases RETRY_MAX_ATTEMPTS - attempt
      {
        var a := call.attempts[attempt - 1];
        issued := issued + [a.startedAt];
        if a.outcome.Answered? {
          metrics.Record(loggedAt, Success);
          breaker.RecordSuccess();
          return Success, issued, slept;
        }
        if a.outcome.policyDenial {
          metrics.Record(loggedAt, PolicyDenied);
          return PolicyDenied, issued, slept;
        }
        if a.outcome.retriable && attempt < RETRY_MAX_ATTEMPTS {
          slept := slept + backoff;
          backoff := backoff * 2;
          attempt := attempt + 1;
        } else {
          breaker.RecordFailure(call.failedAt);
          metrics.Record(loggedAt, Error);
          return Error, issued, slept;
        }
      }
      // The loop only ends by returning.
      assert false;
    }
  }
}
