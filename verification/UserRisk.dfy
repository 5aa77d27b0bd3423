/** One user's risk row: peak and tracked balance, trades of the day, failures in a row, and the pause they cause. */
module UserRisk {
  import opened Common

  const RISK_MAX_DRAWDOWN_PCT: real := 20.0
  const RISK_MAX_DAILY_TRADES: nat := 20
  const RISK_CIRCUIT_BREAKER_FAILURES: nat := 3

  /** Calendar days are counted from some fixed one. */
  type Day = int

  datatype Row = Row(peak: real, current: real, trades: nat, tradeDay: Option<Day>, failures: nat)

  datatype State = State(row: Option<Row>, paused: bool)

  datatype Action =
    | CheckDrawdown(balance: real)
    | Deposit(amount: real)
    | Withdrawal(before: real, after: real)
    | CheckDaily
    | RecordTrade
    | RecordFailure
    | RecordSuccess

  datatype Event = Event(day: Day, action: Action)

  // ------------------------------------------------------------------ each action on the row

  function DrawdownPct(peak: real, current: real): real
    requires peak != 0.0
  {
    (peak - current) / peak * 100.0
  }

  /** The insert-if-missing that precedes every counter update; an existing row is left as it is. */
  function Ensured(row: Option<Row>, peak: real, current: real, day: Day): Row {
    if row.Some? then row.value else Row(peak, current, 0, Some(day), 0)
  }

  predicate Breaches(row: Option<Row>, balance: real) {
    row.Some? && row.value.peak > 0.0 && balance <= row.value.peak && DrawdownPct(row.value.peak, balance) >= RISK_MAX_DRAWDOWN_PCT
  }

  function Checked(row: Option<Row>, balance: real, day: Day): Row {
    if row.None? || row.value.peak <= 0.0 then Ensured(row, balance, balance, day)
    else row.value.(current := balance, peak := if balance > row.value.peak then balance else row.value.peak)
  }

  function Deposited(r: Row, amount: real): Row { r.(peak := r.peak + amount, current := r.current + amount) }

  function Prorated(x: real, before: real, after: real): real
    requires before != 0.0
  {
    x * (after / before)
  }

  function Withdrawn(r: Row, before: real, after: real): Row {
    if before <= 0.0 then r else r.(peak := Prorated(r.peak, before, after), current := after)
  }

  function Traded(row: Option<Row>, day: Day): Row {
    var r := Ensured(row, 0.0, 0.0, day);
    r.(trades := if r.tradeDay == Some(day) then r.trades + 1 else 1, tradeDay := Some(day), failures := 0)
  }

  /** Reading the daily limit starts a new day's count. */
  function Rolled(r: Row, day: Day): Row {
    if r.tradeDay.None? || r.tradeDay.value < day then r.(trades := 0, tradeDay := Some(day)) else r
  }

  predicate UnderLimit(row: Option<Row>, day: Day) {
    row.None? || row.value.tradeDay.None? || row.value.tradeDay.value < day || row.value.trades < RISK_MAX_DAILY_TRADES
  }

  function Failed(row: Option<Row>, day: Day): Row {
    var r := Ensured(row, 0.0, 0.0, day);
    r.(failures := r.failures + 1)
  }

  function Step(s: State, e: Event): State {
    match e.action
    case CheckDrawdown(balance) => State(Some(Checked(s.row, balance, e.day)), s.paused || Breaches(s.row, balance))
    case Deposit(amount) =>
      if s.row.None? then s else s.(row := Some(Deposited(s.row.value, amount)))
    case Withdrawal(before, after) =>
      if s.row.None? then s else s.(row := Some(Withdrawn(s.row.value, before, after)))
    case CheckDaily =>
      if s.row.None? then s else s.(row := Some(Rolled(s.row.value, e.day)))
    case RecordTrade => s.(row := Some(Traded(s.row, e.day)))
    case RecordFailure =>
      var r := Failed(s.row, e.day);
      State(Some(r), s.paused || r.failures >= RISK_CIRCUIT_BREAKER_FAILURES)
    case RecordSuccess => s.(row := Some(Ensured(s.row, 0.0, 0.0, e.day).(failures := 0)))
  }

  function After(s: State, es: seq<Event>, n: nat): State
    requires n <= |es|
  {
    if n == 0 then s else Step(After(s, es, n - 1), es[n - 1])
  }

  const NEW_USER := State(None, false)

  // ------------------------------------------------------------------ balances

  predicate Ordered(row: Option<Row>) {
    row.Some? ==> row.value.peak >= row.value.current >= 0.0
  }

  /** Cash flows that match the tracked balance: no negative amounts, and withdrawals start from it. */
  predicate Matches(s: State, a: Action) {
    match a
    case CheckDrawdown(balance) => balance >= 0.0
    case Deposit(amount) => amount >= 0.0
    case Withdrawal(before, after) => after >= 0.0 && (s.row.Some? ==> before == s.row.value.current)
    case _ => true
  }

  predicate AllMatch(s: State, es: seq<Event>) {
    forall i :: 0 <= i < |es| ==> Matches(After(s, es, i), es[i].action)
  }

  lemma ProratedSelf(before: real, after: real)
    requires before > 0.0
    ensures Prorated(before, before, after) == after
  {
  }

  lemma {:induction false} ProratedOrder(x: real, y: real, before: real, after: real)
    requires x >= y && before > 0.0 && after >= 0.0
    ensures Prorated(x, before, after) >= Prorated(y, before, after)
    ensures x > y && after > 0.0 ==> Prorated(x, before, after) > Prorated(y, before, after)
    ensures after == 0.0 ==> Prorated(x, before, after) == 0.0
  {
    assert after / before >= 0.0;
    assert after > 0.0 ==> after / before > 0.0;
  }

  lemma {:induction false} ProratedLinear(x: real, y: real, before: real, after: real)
    requires before > 0.0
    ensures Prorated(5.0 * (x - y), before, after) == 5.0 * (Prorated(x, before, after) - Prorated(y, before, after))
  {
    assert 5.0 * (x - y) * (after / before) == 5.0 * (x * (after / before) - y * (after / before));
  }

  lemma Scaled(x: real, y: real, ratio: real)
    requires x >= y && ratio >= 0.0
    ensures x * ratio >= y * ratio
  {
  }

  lemma StrictlyScaled(x: real, y: real, ratio: real)
    requires x > y && ratio > 0.0
    ensures x * ratio > y * ratio
  {
  }

  lemma Nothing(s: State, es: seq<Event>)
    ensures After(s, es, 0) == s
  {
  }

  lemma Unfold(s: State, es: seq<Event>, n: nat)
    requires 0 < n <= |es|
    ensures After(s, es, n) == Step(After(s, es, n - 1), es[n - 1])
  {
  }

  lemma {:induction false} OrderedKept(s: State, e: Event)
    requires Ordered(s.row) && Matches(s, e.action)
    ensures Ordered(Step(s, e).row)
  {
    hide Prorated;
    if e.action.Withdrawal? && s.row.Some? && e.action.before > 0.0 {
      var r := s.row.value;
      ProratedSelf(r.current, e.action.after);
      ProratedOrder(r.peak, r.current, r.current, e.action.after);
    }
  }

  /** On every run with matching cash flows: peak >= tracked balance >= 0. */
  lemma {:induction false} BalancesStayOrdered(s: State, es: seq<Event>, n: nat)
    requires n <= |es| && Ordered(s.row) && AllMatch(s, es)
    ensures Ordered(After(s, es, n).row)
  {
    hide After, Step, Ordered, Matches, AllMatch;
    if n == 0 {
      assert After(s, es, 0) == s by { Nothing(s, es); }
    } else {
      BalancesStayOrdered(s, es, n - 1);
      MatchesAt(s, es, n - 1);
      Unfold(s, es, n);
      OrderedKept(After(s, es, n - 1), es[n - 1]);
    }
  }

  lemma MatchesAt(s: State, es: seq<Event>, n: nat)
    requires n < |es| && AllMatch(s, es)
    ensures Matches(After(s, es, n), es[n].action)
  {
  }

  /** For a withdrawal that does not start from the tracked balance, the order survives exactly under this condition. */
  lemma {:induction false} WithdrawalKeepsOrderExactly(r: Row, before: real, after: real)
    requires r.peak >= 0.0 && before > 0.0 && after >= 0.0
    ensures Ordered(Some(Withdrawn(r, before, after))) <==> r.peak >= before || after == 0.0
  {
    hide Prorated;
    ProratedSelf(before, after);
    if r.peak >= before {
      ProratedOrder(r.peak, before, before, after);
    } else {
      ProratedOrder(before, r.peak, before, after);
      ProratedOrder(r.peak, 0.0, before, after);
    }
  }

  // ------------------------------------------------------------------ drawdown under cash flows

  lemma {:induction false} PctMeans(peak: real, current: real)
    requires peak > 0.0
    ensures DrawdownPct(peak, current) >= RISK_MAX_DRAWDOWN_PCT <==> 5.0 * (peak - current) >= peak
  {
    var q := (peak - current) / peak;
    assert q * peak == peak - current;
    if q >= 0.2 {
      Scaled(q, 0.2, peak);
    } else {
      StrictlyScaled(0.2, q, peak);
    }
  }

  /** A check pauses the user exactly when the row has a positive peak and the balance is at most four fifths of it. */
  lemma {:induction false} ChecksPauseExactly(s: State, balance: real, day: Day)
    ensures var t := Step(s, Event(day, CheckDrawdown(balance)));
            t.paused <==> s.paused || (s.row.Some? && s.row.value.peak > 0.0 && 5.0 * balance <= 4.0 * s.row.value.peak)
  {
    hide DrawdownPct;
    if s.row.Some? && s.row.value.peak > 0.0 {
      PctMeans(s.row.value.peak, balance);
    }
  }

  /** A check tracks the balance and keeps the larger peak, where there is a peak; it creates a missing row at the balance and leaves a row without a peak alone. */
  lemma {:induction false} CheckTracksBalance(s: State, balance: real, day: Day)
    ensures var t := Step(s, Event(day, CheckDrawdown(balance)));
            && t.row.Some?
            && (HasPeak(s.row) ==>
                  && t.row.value.current == balance && t.row.value.peak >= balance && t.row.value.peak >= s.row.value.peak
                  && t.row.value.peak in {balance, s.row.value.peak}
                  && t.row.value.(current := s.row.value.current, peak := s.row.value.peak) == s.row.value)
            && (s.row.Some? && !HasPeak(s.row) ==> t.row == s.row)
            && (s.row.None? ==> t.row.value.current == t.row.value.peak == balance)
  {
  }

  /** A deposit moves balance and peak by its amount; a withdrawal leaves `after`, with the peak in the proportion of the two balances. */
  lemma {:induction false} FlowsExactly(s: State, day: Day, amount: real, before: real, after: real)
    requires s.row.Some? && before > 0.0
    ensures var r, d, w := s.row.value, Step(s, Event(day, Deposit(amount))).row.value, Step(s, Event(day, Withdrawal(before, after))).row.value;
            && d.current - r.current == d.peak - r.peak == amount
            && w.current == after && w.peak * before == r.peak * after
    ensures forall rest :: rest <= 0.0 ==> Step(s, Event(day, Withdrawal(rest, after))) == s
  {
    var peak := s.row.value.peak;
    assert Prorated(peak, before, after) * before == peak * after by {
      assert after / before * before == after;
      assert peak * (after / before) * before == peak * (after / before * before);
    }
    hide Prorated;
  }

  /** A matching withdrawal leaves the drawdown percentage what it was. */
  lemma {:induction false} WithdrawalKeepsDrawdown(r: Row, after: real)
    requires r.peak > 0.0 && r.current > 0.0 && after > 0.0
    ensures var w := Withdrawn(r, r.current, after);
            w.peak > 0.0 && DrawdownPct(w.peak, w.current) == DrawdownPct(r.peak, r.current)
  {
    var ratio := after / r.current;
    assert ratio > 0.0 && r.current * ratio == after;
    SameQuotient(r.peak - r.current, r.peak, ratio);
    assert (r.peak - r.current) * ratio == r.peak * ratio - after;
  }

  lemma {:induction false} SameQuotient(x: real, y: real, ratio: real)
    requires y > 0.0 && ratio > 0.0
    ensures y * ratio > 0.0 && (x * ratio) / (y * ratio) == x / y
  {
    var q := x / y;
    assert x == q * y;
    assert x * ratio == q * (y * ratio);
  }

  /** A deposit never raises it. */
  lemma {:induction false} DepositNeverRaisesDrawdown(r: Row, amount: real)
    requires r.peak > 0.0 && r.peak >= r.current && amount >= 0.0
    ensures DrawdownPct(r.peak + amount, r.current + amount) <= DrawdownPct(r.peak, r.current)
  {
    var gap := r.peak - r.current;
    assert (r.peak + amount) - (r.current + amount) == gap;
    var q, p := gap / r.peak, gap / (r.peak + amount);
    assert q * r.peak == gap && p * (r.peak + amount) == gap;
    if p > q {
      Scaled(p, q, r.peak + amount);
      StrictlyScaled(p, q, r.peak);
      assert p >= 0.0;
      Scaled(p, 0.0, amount);
      assert p * (r.peak + amount) == p * r.peak + p * amount;
    }
  }

  predicate IsFlow(a: Action) { a.Deposit? || a.Withdrawal? }

  predicate Calm(s: State) { s.row.Some? ==> !Breaches(s.row, s.row.value.current) }

  lemma {:induction false} CalmMeans(s: State)
    ensures Ordered(s.row) ==> (Calm(s) <==> (s.row.Some? && s.row.value.peak > 0.0 ==> 5.0 * (s.row.value.peak - s.row.value.current) < s.row.value.peak))
  {
    hide DrawdownPct;
    if s.row.Some? && s.row.value.peak > 0.0 {
      PctMeans(s.row.value.peak, s.row.value.current);
    }
  }

  lemma {:induction false} FlowKeepsCalm(s: State, e: Event)
    requires Ordered(s.row) && Matches(s, e.action) && IsFlow(e.action) && Calm(s)
    ensures Calm(Step(s, e)) && Step(s, e).paused == s.paused
  {
    OrderedKept(s, e);
    CalmMeans(s);
    CalmMeans(Step(s, e));
    hide Prorated, DrawdownPct, Calm;
    if s.row.Some? && e.action.Withdrawal? && e.action.before > 0.0 {
      var r, after := s.row.value, e.action.after;
      ProratedSelf(r.current, after);
      ProratedOrder(r.peak, 5.0 * (r.peak - r.current), r.current, after);
      ProratedLinear(r.peak, r.current, r.current, after);
    }
  }

  /**
   Deposits and withdrawals alone never cause a drawdown pause: where a check of the tracked
   balance would have passed before any number of them, it passes after them.
   */
  lemma {:induction false} FlowsNeverPause(s: State, es: seq<Event>, n: nat)
    requires n <= |es| && Ordered(s.row) && AllMatch(s, es) && Calm(s)
    requires forall i :: 0 <= i < |es| ==> IsFlow(es[i].action)
    ensures Calm(After(s, es, n)) && After(s, es, n).paused == s.paused
  {
    hide After, Step, Ordered, Matches, Calm, IsFlow, AllMatch;
    if n == 0 {
      assert After(s, es, 0) == s by { Nothing(s, es); }
    } else {
      FlowsNeverPause(s, es, n - 1);
      BalancesStayOrdered(s, es, n - 1);
      MatchesAt(s, es, n - 1);
      Unfold(s, es, n);
      FlowKeepsCalm(After(s, es, n - 1), es[n - 1]);
    }
  }

  /** Between cash flows the peak is the high-water mark of the balances seen. */
  lemma {:induction false} PeakIsHighWaterMark(s: State, es: seq<Event>, n: nat)
    requires n <= |es| && s.row.Some? && s.row.value.peak > 0.0
    requires forall i :: 0 <= i < |es| ==> es[i].action.CheckDrawdown?
    ensures var t := After(s, es, n);
            && t.row.Some? && t.row.value.peak >= s.row.value.peak
            && (forall i :: 0 <= i < n ==> es[i].action.balance <= t.row.value.peak)
            && (t.row.value.peak == s.row.value.peak || exists i :: 0 <= i < n && es[i].action.balance == t.row.value.peak)
  {
    if n > 0 {
      PeakIsHighWaterMark(s, es, n - 1);
      var before, after := After(s, es, n - 1).row.value, After(s, es, n).row.value;
      assert after.peak == before.peak || es[n - 1].action.balance == after.peak;
    }
  }

  // ------------------------------------------------------------------ when a peak is ever set

  /** Actions that insert a missing row. */
  predicate Creates(a: Action) { a.CheckDrawdown? || a.RecordTrade? || a.RecordFailure? || a.RecordSuccess? }

  predicate Created(es: seq<Event>, n: nat)
    requires n <= |es|
  {
    exists i :: 0 <= i < n && Creates(es[i].action)
  }

  /** The two ways to a positive peak: a check that creates the row, or a deposit into one. */
  predicate Sets(es: seq<Event>, i: nat)
    requires i < |es|
  {
    match es[i].action
    case CheckDrawdown(balance) => balance > 0.0 && !Created(es, i)
    case Deposit(amount) => amount > 0.0 && Created(es, i)
    case _ => false
  }

  /** The one way to lose it: a withdrawal of everything. */
  predicate Empties(a: Action) { a.Withdrawal? && a.before > 0.0 && a.after == 0.0 }

  predicate EmptiedAfter(es: seq<Event>, i: nat, n: nat)
    requires n <= |es|
  {
    exists j :: i < j < n && Empties(es[j].action)
  }

  predicate Keeps(es: seq<Event>, i: nat, n: nat)
    requires i < n <= |es|
  {
    Sets(es, i) && !EmptiedAfter(es, i, n)
  }

  predicate SomeKeeps(es: seq<Event>, n: nat)
    requires n <= |es|
  {
    exists i :: 0 <= i < n && Keeps(es, i, n)
  }

  /** Balances and amounts are not negative. */
  predicate NonNegative(a: Action) {
    match a
    case CheckDrawdown(balance) => balance >= 0.0
    case Deposit(amount) => amount >= 0.0
    case Withdrawal(_, after) => after >= 0.0
    case _ => true
  }

  predicate HasPeak(row: Option<Row>) { row.Some? && row.value.peak > 0.0 }

  lemma {:induction false} PeakStep(s: State, e: Event)
    requires NonNegative(e.action) && (s.row.Some? ==> s.row.value.peak >= 0.0)
    ensures var t := Step(s, e);
            && (t.row.Some? <==> s.row.Some? || Creates(e.action))
            && (t.row.Some? ==> t.row.value.peak >= 0.0)
            && (HasPeak(t.row) <==>
                  || (HasPeak(s.row) && !Empties(e.action))
                  || (e.action.CheckDrawdown? && e.action.balance > 0.0 && s.row.None?)
                  || (e.action.Deposit? && e.action.amount > 0.0 && s.row.Some?))
  {
    if e.action.Withdrawal? && s.row.Some? && e.action.before > 0.0 {
      ProratedOrder(s.row.value.peak, 0.0, e.action.before, e.action.after);
      assert Prorated(0.0, e.action.before, e.action.after) == 0.0;
    }
    hide Prorated;
  }

  lemma {:induction false} EmptiedStep(es: seq<Event>, i: nat, n: nat)
    requires i + 1 < n <= |es|
    ensures EmptiedAfter(es, i, n) <==> EmptiedAfter(es, i, n - 1) || Empties(es[n - 1].action)
  {
    hide Empties;
    if EmptiedAfter(es, i, n - 1) {
      var j :| i < j < n - 1 && Empties(es[j].action);
    }
  }

  lemma {:induction false} KeepsStep(es: seq<Event>, n: nat)
    requires 0 < n <= |es|
    ensures SomeKeeps(es, n) <==> (SomeKeeps(es, n - 1) && !Empties(es[n - 1].action)) || Sets(es, n - 1)
  {
    hide Sets, Empties, EmptiedAfter;
    NotYetEmptied(es, n);
    if SomeKeeps(es, n) {
      var i :| 0 <= i < n && Keeps(es, i, n);
      if i < n - 1 {
        EmptiedStep(es, i, n);
        assert Keeps(es, i, n - 1);
      }
    }
    if SomeKeeps(es, n - 1) && !Empties(es[n - 1].action) {
      var i :| 0 <= i < n - 1 && Keeps(es, i, n - 1);
      EmptiedStep(es, i, n);
      assert Keeps(es, i, n);
    }
    assert Sets(es, n - 1) ==> Keeps(es, n - 1, n);
  }

  lemma NotYetEmptied(es: seq<Event>, n: nat)
    requires 0 < n <= |es|
    ensures !EmptiedAfter(es, n - 1, n)
  {
  }

  lemma CreatedStep(es: seq<Event>, n: nat)
    requires 0 < n <= |es|
    ensures Created(es, n) <==> Created(es, n - 1) || Creates(es[n - 1].action)
  {
  }

  /**
   From a new user on, the peak is positive exactly when a check of a positive balance created the
   row, or a deposit came after its creation, and no withdrawal has taken everything since.
   */
  lemma {:induction false} PeakIsSetExactly(es: seq<Event>, n: nat)
    requires n <= |es| && forall i :: 0 <= i < |es| ==> NonNegative(es[i].action)
    ensures var row := After(NEW_USER, es, n).row;
            && (row.Some? <==> Created(es, n))
            && (row.Some? ==> row.value.peak >= 0.0)
            && (HasPeak(row) <==> exists i :: 0 <= i < n && Sets(es, i) && !EmptiedAfter(es, i, n))
  {
    PeakOnRun(es, n);
    hide After, Sets, EmptiedAfter, Created, HasPeak;
    if SomeKeeps(es, n) {
      var i :| 0 <= i < n && Keeps(es, i, n);
    }
    forall i | 0 <= i < n && Sets(es, i) && !EmptiedAfter(es, i, n) ensures SomeKeeps(es, n) {
      assert Keeps(es, i, n);
    }
  }

  lemma {:induction false} PeakOnRun(es: seq<Event>, n: nat)
    requires n <= |es| && forall i :: 0 <= i < |es| ==> NonNegative(es[i].action)
    ensures var row := After(NEW_USER, es, n).row;
            && (row.Some? <==> Created(es, n))
            && (row.Some? ==> row.value.peak >= 0.0)
            && (HasPeak(row) <==> SomeKeeps(es, n))
  {
    hide Step, After, NonNegative, SomeKeeps;
    if n == 0 {
      Nothing(NEW_USER, es);
      assert !SomeKeeps(es, 0) by { NothingKeeps(es); }
    } else {
      PeakOnRun(es, n - 1);
      Unfold(NEW_USER, es, n);
      PeakStep(After(NEW_USER, es, n - 1), es[n - 1]);
      KeepsStep(es, n);
      CreatedStep(es, n);
      hide Created, Creates, Empties, HasPeak;
    }
  }

  lemma NothingKeeps(es: seq<Event>)
    ensures !SomeKeeps(es, 0)
  {
  }

  /**
   Without deposits the action that creates the row decides: the peak is positive exactly when that
   was a check of a positive balance and no withdrawal has taken everything since.
   */
  lemma {:induction false} FirstActionDecides(es: seq<Event>, n: nat, c: nat)
    requires c < n <= |es| && forall i :: 0 <= i < |es| ==> NonNegative(es[i].action) && !es[i].action.Deposit?
    requires Creates(es[c].action) && !Created(es, c)
    ensures var row := After(NEW_USER, es, n).row;
            && row.Some?
            && (HasPeak(row) <==> es[c].action.CheckDrawdown? && es[c].action.balance > 0.0 && !EmptiedAfter(es, c, n))
  {
    PeakIsSetExactly(es, n);
    hide After, EmptiedAfter, HasPeak, NonNegative;
    assert Created(es, n);
    forall i | 0 <= i < n ensures Sets(es, i) ==> i == c {
      assert i > c ==> Created(es, i);
      assert i < c ==> !Creates(es[i].action);
    }
    assert Sets(es, c) <==> es[c].action.CheckDrawdown? && es[c].action.balance > 0.0;
  }

  /** An account first checked while empty, or emptied once, has peak 0, and later checks leave it so. */
  lemma {:induction false} EmptyAccountHasNoPeak(day: Day, full: real, later: real)
    requires full > 0.0
    ensures After(NEW_USER, [Event(day, CheckDrawdown(0.0)), Event(day, CheckDrawdown(later))], 2).row
         == Some(Row(0.0, 0.0, 0, Some(day), 0))
    ensures After(NEW_USER, [Event(day, CheckDrawdown(full)), Event(day, Withdrawal(full, 0.0)), Event(day, CheckDrawdown(later))], 3).row
         == Some(Row(0.0, 0.0, 0, Some(day), 0))
  {
    var es := [Event(day, CheckDrawdown(0.0)), Event(day, CheckDrawdown(later))];
    var fs := [Event(day, CheckDrawdown(full)), Event(day, Withdrawal(full, 0.0)), Event(day, CheckDrawdown(later))];
    assert Prorated(full, full, 0.0) == 0.0;
    hide After, Prorated;
    Nothing(NEW_USER, es);
    Unfold(NEW_USER, es, 1);
    Unfold(NEW_USER, es, 2);
    Nothing(NEW_USER, fs);
    Unfold(NEW_USER, fs, 1);
    Unfold(NEW_USER, fs, 2);
    Unfold(NEW_USER, fs, 3);
  }

  /** A trade recorded before the first check leaves a peak of 0 that the check does not set. */
  lemma {:induction false} TradeFirstLeavesNoPeak(day: Day, balance: real)
    ensures var es := [Event(day, RecordTrade), Event(day, CheckDrawdown(balance))];
            After(NEW_USER, es, 2).row == Some(Row(0.0, 0.0, 1, Some(day), 0)) && !After(NEW_USER, es, 2).paused
  {
    var es := [Event(day, RecordTrade), Event(day, CheckDrawdown(balance))];
    Nothing(NEW_USER, es);
    Unfold(NEW_USER, es, 1);
  }

  /**
   A row first created by a counter has peak 0, and no check ever gives it another: until a
   deposit comes, no balance whatever pauses the user for drawdown.
   */
  lemma {:induction false} DormantUntilDeposit(s: State, es: seq<Event>, n: nat)
    requires n <= |es| && s.row.Some? && s.row.value.peak == 0.0
    requires forall i :: 0 <= i < |es| ==> !es[i].action.Deposit?
    ensures var t := After(s, es, n);
            && t.row.Some? && t.row.value.peak == 0.0
            && (n > 0 && es[n - 1].action.CheckDrawdown? ==> t.paused == After(s, es, n - 1).paused)
  {
    if n > 0 {
      DormantUntilDeposit(s, es, n - 1);
      var r := After(s, es, n - 1).row.value;
      if es[n - 1].action.Withdrawal? && es[n - 1].action.before > 0.0 {
        assert Prorated(r.peak, es[n - 1].action.before, es[n - 1].action.after) == 0.0;
      }
    }
  }

  // ------------------------------------------------------------------ counters and the log

  function TradesOn(es: seq<Event>, n: nat, day: Day): nat
    requires n <= |es|
  {
    if n == 0 then 0 else TradesOn(es, n - 1, day) + if es[n - 1].action.RecordTrade? && es[n - 1].day == day then 1 else 0
  }

  /** Failures since the last recorded trade or success. */
  function FailuresInARow(es: seq<Event>, n: nat): nat
    requires n <= |es|
  {
    if n == 0 then 0
    else match es[n - 1].action
      case RecordFailure => FailuresInARow(es, n - 1) + 1
      case RecordTrade => 0
      case RecordSuccess => 0
      case _ => FailuresInARow(es, n - 1)
  }

  predicate DaysInOrder(es: seq<Event>) {
    forall i, j :: 0 <= i < j < |es| ==> es[i].day <= es[j].day
  }

  function CountFor(row: Option<Row>, day: Day): nat {
    if row.Some? && row.value.tradeDay == Some(day) then row.value.trades else 0
  }

  predicate NotAfter(row: Option<Row>, day: Day) {
    row.Some? && row.value.tradeDay.Some? ==> row.value.tradeDay.value <= day
  }

  lemma CountStep(s: State, e: Event, today: Day)
    requires e.day <= today && NotAfter(s.row, e.day)
    ensures NotAfter(Step(s, e).row, e.day)
    ensures CountFor(Step(s, e).row, today) == CountFor(s.row, today) + if e.action.RecordTrade? && e.day == today then 1 else 0
  {
  }

  /** The stored daily count is the number of trades recorded that day, whenever the day is not over. */
  lemma {:induction false} DailyCountMatchesLog(es: seq<Event>, n: nat, today: Day)
    requires n <= |es| && DaysInOrder(es)
    requires n > 0 ==> es[n - 1].day <= today
    ensures CountFor(After(NEW_USER, es, n).row, today) == TradesOn(es, n, today)
    ensures n > 0 ==> NotAfter(After(NEW_USER, es, n).row, es[n - 1].day)
  {
    if n > 0 {
      var e := es[n - 1];
      DailyCountMatchesLog(es, n - 1, today);
      hide Step, CountFor;
      CountStep(After(NEW_USER, es, n - 1), e, today);
    }
  }

  /** A daily check leaves the row on its own day or a later one, with no trades yet when that day is new, and touches nothing else. */
  lemma {:induction false} DailyCheckOpensDay(s: State, day: Day)
    ensures var t := Step(s, Event(day, CheckDaily));
            && t.paused == s.paused && (s.row.None? <==> t.row.None?)
            && (s.row.Some? ==>
                  var r, q := s.row.value, t.row.value;
                  && q.tradeDay.Some? && q.tradeDay.value >= day
                  && ((q.tradeDay == r.tradeDay && q.trades == r.trades) || (q.tradeDay == Some(day) && q.trades == 0))
                  && q.(trades := r.trades, tradeDay := r.tradeDay) == r)
  {
  }

  /** The daily check passes exactly when fewer than 20 trades were recorded that day. */
  lemma {:induction false} UnderLimitExactly(es: seq<Event>, n: nat, today: Day)
    requires n <= |es| && DaysInOrder(es)
    requires n > 0 ==> es[n - 1].day <= today
    ensures UnderLimit(After(NEW_USER, es, n).row, today) <==> TradesOn(es, n, today) < 20
  {
    DailyCountMatchesLog(es, n, today);
  }

  /** The failure counter is the log's, and a recorded failure pauses exactly when it is the third or later in a row. */
  lemma {:induction false} FailuresMatchLog(es: seq<Event>, n: nat)
    requires n <= |es|
    ensures var row := After(NEW_USER, es, n).row;
            FailuresInARow(es, n) == if row.Some? then row.value.failures else 0
    ensures n > 0 && es[n - 1].action.RecordFailure? ==>
              (After(NEW_USER, es, n).paused <==> After(NEW_USER, es, n - 1).paused || FailuresInARow(es, n) >= 3)
  {
    if n > 0 {
      FailuresMatchLog(es, n - 1);
    }
  }

  /** Event `i` of a new user's run stops trading: a check at four fifths of the peak or less, or a third failure in a row. */
  predicate StopsAt(es: seq<Event>, i: nat)
    requires i < |es|
  {
    var row := After(NEW_USER, es, i).row;
    match es[i].action
    case CheckDrawdown(balance) => row.Some? && row.value.peak > 0.0 && 5.0 * balance <= 4.0 * row.value.peak
    case RecordFailure => FailuresInARow(es, i) + 1 >= 3
    case _ => false
  }

  /** The pause on any run from a new user on: exactly when some event stopped trading. */
  lemma {:induction false} PausedExactly(es: seq<Event>, n: nat)
    requires n <= |es|
    ensures After(NEW_USER, es, n).paused <==> exists i :: 0 <= i < n && StopsAt(es, i)
  {
    if n > 0 {
      PausedExactly(es, n - 1);
      PauseStep(es, n - 1);
      hide StopsAt, After, Step;
    }
  }

  lemma {:induction false} PauseStep(es: seq<Event>, i: nat)
    requires i < |es|
    ensures After(NEW_USER, es, i + 1).paused <==> After(NEW_USER, es, i).paused || StopsAt(es, i)
  {
    var s := After(NEW_USER, es, i);
    Unfold(NEW_USER, es, i + 1);
    FailuresMatchLog(es, i);
    hide After, FailuresInARow;
    if es[i].action.CheckDrawdown? {
      ChecksPauseExactly(s, es[i].action.balance, es[i].day);
    }
    hide Breaches;
  }

  // ------------------------------------------------------------------ the manager

  /** One user's rows of the two tables. */
  class UserRiskManager {
    var row: Option<Row>
    var paused: bool

    constructor ()
      ensures View() == NEW_USER
    {
      row, paused := None, false;
    }

    function View(): State
      reads this
    {
      State(row, paused)
    }

    method UpsertRiskRow(peak: real, current: real, day: Day)
      modifies this`row
      ensures row == Some(Ensured(old(row), peak, current, day))
    {
      if row.None? {
        row := Some(Row(peak, current, 0, Some(day), 0));
      }
    }

    method CheckBalance(balance: real, day: Day) returns (ok: bool)
      modifies this
      ensures View() == Step(old(View()), Event(day, CheckDrawdown(balance)))
      ensures ok == !Breaches(old(row), balance)
    {
      if row.None? || row.value.peak <= 0.0 {
        UpsertRiskRow(balance, balance, day);
        return true;
      }
      var peak := row.value.peak;
      row := Some(row.value.(current := balance));
      if balance > peak {
        row := Some(row.value.(peak := balance));
        return true;
      }
      if peak > 0.0 {
        var drawdownPct := ((peak - balance) / peak) * 100.0;
        if drawdownPct >= RISK_MAX_DRAWDOWN_PCT {
          paused := true;
          return false;
        }
      }
      return true;
    }

    method UpdatePeakOnDeposit(amount: real, day: Day)
      modifies this
      ensures View() == Step(old(View()), Event(day, Deposit(amount)))
    {
      if row.Some? {
        row := Some(row.value.(peak := row.value.peak + amount, current := row.value.current + amount));
      }
    }

    method UpdatePeakOnWithdrawal(before: real, after: real, day: Day)
      modifies this
      ensures View() == Step(old(View()), Event(day, Withdrawal(before, after)))
    {
      if before <= 0.0 { return; }
      var ratio := after / before;
      if row.Some? {
        assert row.value.peak * ratio == Prorated(row.value.peak, before, after);
        row := Some(row.value.(peak := row.value.peak * ratio, current := after));
      }
    }

    method CheckDailyTradeLimit(today: Day) returns (ok: bool)
      modifies this
      ensures View() == Step(old(View()), Event(today, CheckDaily))
      ensures ok == UnderLimit(old(row), today)
    {
      if row.None? { return true; }
      var tradeDay := row.value.tradeDay;
      if tradeDay.None? || tradeDay.value < today {
        row := Some(row.value.(trades := 0, tradeDay := Some(today)));
        return true;
      }
      return row.value.trades < RISK_MAX_DAILY_TRADES;
    }

    method RecordOneTrade(today: Day)
      modifies this
      ensures View() == Step(old(View()), Event(today, RecordTrade))
    {
      UpsertRiskRow(0.0, 0.0, today);
      var count := if row.value.tradeDay == Some(today) then row.value.trades + 1 else 1;
      row := Some(row.value.(trades := count, tradeDay := Some(today), failures := 0));
    }

    method RecordOneFailure(today: Day) returns (ok: bool)
      modifies this
      ensures View() == Step(old(View()), Event(today, RecordFailure))
      ensures ok == (row.Some? && row.value.failures < RISK_CIRCUIT_BREAKER_FAILURES)
    {
      UpsertRiskRow(0.0, 0.0, today);
      row := Some(row.value.(failures := row.value.failures + 1));
      if row.value.failures >= RISK_CIRCUIT_BREAKER_FAILURES {
        paused := true;
        return false;
      }
      return true;
    }

    method RecordOneSuccess(today: Day)
      modifies this
      ensures View() == Step(old(View()), Event(today, RecordSuccess))
    {
      UpsertRiskRow(0.0, 0.0, today);
      row := Some(row.value.(failures := 0));
    }
  }
}
