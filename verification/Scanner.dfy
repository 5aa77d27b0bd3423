/**
 The autonomous trading loop for one user, step by step: the scan copies the user's strategy row,
 checks its gates later, and opens later still, while the monitor, the user and other parts of the
 service go on changing the tables.
 */
module Scanner {
  import opened Common
  import UserRisk

  type Day = UserRisk.Day

  const SYSTEM_MIN_COOLDOWN_MINUTES: int := 5
  const SYSTEM_MAX_POSITIONS: int := 3

  datatype Config = Config(
    enabled: bool, maxConcurrent: int, cooldownMinutes: int, lastClose: Option<real>, cooldownAtClose: Option<int>)

  const DEFAULTS := Config(false, 2, 30, None, None)

  /** The four pre-flight checks, in their order; the scan awaits the database between them. */
  datatype Gate = CooldownGate | AccountGate | PositionGate | DailyGate

  /** Where the scan is with this user; `row` is the copy taken at its start. */
  datatype Scan = Idle | At(gate: Gate, row: Config) | Cleared(row: Config)

  /**
   The user's strategy row, its pause (kept with the risk row), the account pause, the open
   positions, the scan, and whether the monitor has committed a close it has not stamped yet.
   */
  datatype State = State(
    config: Option<Config>, risk: UserRisk.State, accountPaused: bool, open: nat, scan: Scan, stamping: bool)

  datatype Outcome = Opened | NotEntered | Broken

  datatype Action =
    | Pick
    | Check
    | Enter(outcome: Outcome)
    | CommitClose
    | StampClose(ok: bool)
    | ExitFailed
    | SaveStrategy(enabled: bool, maxConcurrent: int, cooldownMinutes: int)
    | PauseStrategy
    | ResumeStrategy
    | SetAccountPause(paused: bool)
    | OtherOpen
    | OtherClose

  datatype Event = Event(at: real, day: Day, action: Action)

  const START := State(None, UserRisk.NEW_USER, false, 0, Idle, false)

  // ------------------------------------------------------------------ the gates

  function Max(x: int, y: int): int { if x >= y then x else y }

  function Cap(row: Config): int { if row.maxConcurrent <= SYSTEM_MAX_POSITIONS then row.maxConcurrent else SYSTEM_MAX_POSITIONS }

  /** The end of the cooldown that follows a close. */
  function CooldownEnd(closedAt: real, minutes: int): real {
    closedAt + 60.0 * Max(minutes, SYSTEM_MIN_COOLDOWN_MINUTES) as real
  }

  predicate CooldownElapsed(row: Config, now: real) {
    row.lastClose.None? ||
    now >= CooldownEnd(row.lastClose.value, if row.cooldownAtClose.Some? then row.cooldownAtClose.value else row.cooldownMinutes)
  }

  /** Whether the scan gets past a gate, judged on the state the gate finds. */
  predicate Passes(s: State, gate: Gate, row: Config, now: real, day: Day) {
    match gate
    case CooldownGate => CooldownElapsed(row, now)
    case AccountGate => !s.accountPaused
    case PositionGate => s.open < Cap(row)
    case DailyGate => UserRisk.UnderLimit(s.risk.row, day)
  }

  function Beyond(gate: Gate, row: Config): Scan {
    match gate
    case CooldownGate => At(AccountGate, row)
    case AccountGate => At(PositionGate, row)
    case PositionGate => At(DailyGate, row)
    case DailyGate => Cleared(row)
  }

  // ------------------------------------------------------------------ the machine

  function WithRisk(s: State, day: Day, action: UserRisk.Action): State {
    s.(risk := UserRisk.Step(s.risk, UserRisk.Event(day, action)))
  }

  /** Recording a failure may pause the strategy, which creates its row when there is none. */
  function WithFailure(s: State, day: Day): State {
    var t := WithRisk(s, day, UserRisk.RecordFailure);
    if t.risk.paused && t.config.None? then t.(config := Some(DEFAULTS)) else t
  }

  function Stamped(c: Config, now: real): Config {
    c.(lastClose := Some(now), cooldownAtClose := Some(c.cooldownMinutes))
  }

  function OrDefaults(config: Option<Config>): Config { if config.Some? then config.value else DEFAULTS }

  function Step(s: State, e: Event): State {
    match e.action
    case Pick =>
      if s.scan.Idle? && s.config.Some? && s.config.value.enabled && !s.risk.paused
      then s.(scan := At(CooldownGate, s.config.value)) else s
    case Check =>
      if !s.scan.At? then s
      else
        var t := if s.scan.gate.DailyGate? then WithRisk(s, e.day, UserRisk.CheckDaily) else s;
        t.(scan := if Passes(s, s.scan.gate, s.scan.row, e.at, e.day) then Beyond(s.scan.gate, s.scan.row) else Idle)
    case Enter(outcome) =>
      if !s.scan.Cleared? then s
      else
        (match outcome
         case Opened => WithRisk(s, e.day, UserRisk.RecordTrade).(open := s.open + 1, scan := Idle)
         case NotEntered => s.(scan := Idle)
         case Broken => WithFailure(s, e.day).(scan := Idle))
    case CommitClose => if s.open == 0 || s.stamping then s else s.(open := s.open - 1, stamping := true)
    case StampClose(ok) =>
      if !s.stamping then s
      else s.(stamping := false, config := if ok && s.config.Some? then Some(Stamped(s.config.value, e.at)) else s.config)
    case ExitFailed => WithFailure(s, e.day)
    case SaveStrategy(enabled, maxConcurrent, cooldownMinutes) =>
      s.(config := Some(OrDefaults(s.config).(enabled := enabled, maxConcurrent := maxConcurrent, cooldownMinutes := cooldownMinutes)))
    case PauseStrategy =>
      s.(config := Some(OrDefaults(s.config).(enabled := false)), risk := s.risk.(paused := true))
    case ResumeStrategy =>
      s.(config := Some(OrDefaults(s.config).(enabled := true)), risk := s.risk.(paused := false))
    case SetAccountPause(paused) => s.(accountPaused := paused)
    case OtherOpen => s.(open := s.open + 1)
    case OtherClose => if s.open == 0 then s else s.(open := s.open - 1)
  }

  function After(es: seq<Event>, n: nat): State
    requires n <= |es|
  {
    if n == 0 then START else Step(After(es, n - 1), es[n - 1])
  }

  lemma Unfold(es: seq<Event>, n: nat)
    requires 0 < n <= |es|
    ensures After(es, n) == Step(After(es, n - 1), es[n - 1])
  {
  }

  /** Event `i` is an autonomous open. */
  predicate Opens(es: seq<Event>, i: nat)
    requires i < |es|
  {
    es[i].action == Enter(Opened) && After(es, i).scan.Cleared?
  }

  predicate Clocked(es: seq<Event>) {
    forall i, j :: 0 <= i < j < |es| ==> es[i].at <= es[j].at && es[i].day <= es[j].day
  }

  // ------------------------------------------------------------------ the log

  /** Event `i` takes a position out of the open ones and owes the row a stamp. */
  predicate Commits(es: seq<Event>, i: nat)
    requires i < |es|
  {
    es[i].action.CommitClose? && After(es, i).open > 0 && !After(es, i).stamping
  }

  /** Event `i` is the stamp owed, and it reaches a row. */
  predicate Stamps(es: seq<Event>, i: nat)
    requires i < |es|
  {
    es[i].action == StampClose(true) && After(es, i).stamping && After(es, i).config.Some?
  }

  /** Event `i` is the stamp owed, and it is lost: the statement failed, or there is no row. */
  predicate Loses(es: seq<Event>, i: nat)
    requires i < |es|
  {
    es[i].action.StampClose? && After(es, i).stamping && !Stamps(es, i)
  }

  function LastCommit(es: seq<Event>, n: nat): (c: Option<nat>)
    requires n <= |es|
    ensures c.Some? ==> c.value < n && Commits(es, c.value)
  {
    if n == 0 then None else if Commits(es, n - 1) then Some(n - 1) else LastCommit(es, n - 1)
  }

  function LastStamp(es: seq<Event>, n: nat): (k: Option<nat>)
    requires n <= |es|
    ensures k.Some? ==> k.value < n && Stamps(es, k.value)
  {
    if n == 0 then None else if Stamps(es, n - 1) then Some(n - 1) else LastStamp(es, n - 1)
  }

  /** The row copied at step `p` carries the stamp of close `c`. */
  predicate StampedBefore(es: seq<Event>, c: nat, p: nat)
    requires p <= |es|
  {
    LastStamp(es, p).Some? && LastStamp(es, p).value > c
  }

  /** The stamp of close `c` was due before step `p` and was lost: its statement failed or found no row. */
  predicate Forgotten(es: seq<Event>, c: nat, p: nat)
    requires p <= |es|
  {
    exists i :: c < i < p && Loses(es, i)
  }

  /** The end of the cooldown that stamp `k` fixes, counted from `since`. */
  function FixedEnd(es: seq<Event>, k: nat, since: real): real
    requires k < |es| && Stamps(es, k)
  {
    CooldownEnd(since, After(es, k).config.value.cooldownMinutes)
  }

  function OpensOn(es: seq<Event>, n: nat, day: Day): nat
    requires n <= |es|
  {
    if n == 0 then 0 else OpensOn(es, n - 1, day) + if Opens(es, n - 1) && es[n - 1].day == day then 1 else 0
  }

  /** The step at which the scan in progress copied the row. */
  function PickStep(es: seq<Event>, n: nat): (i: nat)
    requires n <= |es|
    ensures if n == 0 then i == 0 else i < n
  {
    if n == 0 then 0 else if es[n - 1].action.Pick? && After(es, n - 1).scan.Idle? then n - 1 else PickStep(es, n - 1)
  }

  predicate ChecksAt(es: seq<Event>, i: nat, gate: Gate)
    requires i < |es|
  {
    es[i].action.Check? && After(es, i).scan.At? && After(es, i).scan.gate == gate
  }

  /** The last step that checked a gate. */
  function GateStep(es: seq<Event>, n: nat, gate: Gate): (i: nat)
    requires n <= |es|
    ensures if n == 0 then i == 0 else i < n
  {
    if n == 0 then 0 else if ChecksAt(es, n - 1, gate) then n - 1 else GateStep(es, n - 1, gate)
  }

  /** Openings by others less closings of any kind, from event `g` to event `n`. */
  function NetOthers(es: seq<Event>, g: nat, n: nat): int
    requires g <= n <= |es|
  {
    if n == g then 0
    else
      var more := match es[n - 1].action
                  case OtherOpen => 1
                  case OtherClose => if After(es, n - 1).open > 0 then -1 else 0
                  case CommitClose => if Commits(es, n - 1) then -1 else 0
                  case _ => 0;
      NetOthers(es, g, n - 1) + more
  }

  // ------------------------------------------------------------------ invariants of a run

  /** The row's close time and cooldown are those of the last stamp that reached it, through every edit, pause and resume. */
  lemma {:induction false} RowKeepsLastStamp(es: seq<Event>, n: nat)
    requires n <= |es|
    ensures var config, k := After(es, n).config, LastStamp(es, n);
            && (config.None? ==> k.None?)
            && (config.Some? ==> config.value.lastClose == (if k.Some? then Some(es[k.value].at) else None))
            && (config.Some? ==> config.value.cooldownAtClose == (if k.Some? then Some(After(es, k.value).config.value.cooldownMinutes) else None))
  {
    if n > 0 {
      RowKeepsLastStamp(es, n - 1);
      StampStep(After(es, n - 1), es[n - 1]);
      hide Step;
    }
  }

  lemma StampStep(s: State, e: Event)
    ensures var c, d := s.config, Step(s, e).config;
            if e.action == StampClose(true) && s.stamping && c.Some? then d == Some(Stamped(c.value, e.at))
            else
              && (c.Some? ==> d.Some? && d.value.lastClose == c.value.lastClose && d.value.cooldownAtClose == c.value.cooldownAtClose)
              && (c.None? && d.Some? ==> d.value.lastClose.None? && d.value.cooldownAtClose.None?)
    ensures Step(s, e).stamping ==
            if e.action.CommitClose? then s.stamping || s.open > 0
            else s.stamping && !e.action.StampClose?
  {
  }

  /** What has become of the stamp that close `c` owes: awaited, written last of all, or lost. */
  predicate Owed(es: seq<Event>, c: nat, n: nat)
    requires n <= |es|
  {
    if After(es, n).stamping then !StampedBefore(es, c, n) && !Forgotten(es, c, n)
    else StampedBefore(es, c, n) != Forgotten(es, c, n)
  }

  lemma {:induction false} StampOwed(es: seq<Event>, c: nat, n: nat)
    requires c < n <= |es| && LastCommit(es, n) == Some(c)
    ensures Owed(es, c, n)
  {
    hide Step, After;
    Unfold(es, n);
    StampStep(After(es, n - 1), es[n - 1]);
    if n > c + 1 {
      StampOwed(es, c, n - 1);
      ForgottenStep(es, c, n);
    }
  }

  lemma {:induction false} ForgottenStep(es: seq<Event>, c: nat, n: nat)
    requires c + 1 < n <= |es|
    ensures Forgotten(es, c, n) <==> Forgotten(es, c, n - 1) || Loses(es, n - 1)
  {
    hide Loses;
    if Forgotten(es, c, n - 1) {
      var i :| c < i < n - 1 && Loses(es, i);
    }
  }

  lemma {:induction false} CountStep(s: State, e: Event, today: Day)
    requires e.day <= today && UserRisk.NotAfter(s.risk.row, e.day)
    ensures UserRisk.NotAfter(Step(s, e).risk.row, e.day)
    ensures UserRisk.CountFor(Step(s, e).risk.row, today)
         == UserRisk.CountFor(s.risk.row, today) + if e.action == Enter(Opened) && s.scan.Cleared? && e.day == today then 1 else 0
  {
    UserRisk.CountStep(s.risk, UserRisk.Event(e.day, UserRisk.CheckDaily), today);
    UserRisk.CountStep(s.risk, UserRisk.Event(e.day, UserRisk.RecordTrade), today);
    UserRisk.CountStep(s.risk, UserRisk.Event(e.day, UserRisk.RecordFailure), today);
    hide UserRisk.Step;
  }

  lemma {:induction false} CountIsOpens(es: seq<Event>, n: nat, today: Day)
    requires n <= |es| && Clocked(es)
    requires n > 0 ==> es[n - 1].day <= today
    ensures UserRisk.CountFor(After(es, n).risk.row, today) == OpensOn(es, n, today)
    ensures UserRisk.NotAfter(After(es, n).risk.row, today)
    ensures n > 0 ==> UserRisk.NotAfter(After(es, n).risk.row, es[n - 1].day)
  {
    if n > 0 {
      CountIsOpens(es, n - 1, today);
      var s, e := After(es, n - 1), es[n - 1];
      hide Step, UserRisk.CountFor;
      CountStep(s, e, today);
    }
  }

  /** What a scan in progress remembers of its start. */
  predicate PickTrail(es: seq<Event>, n: nat)
    requires n <= |es|
  {
    var s, p := After(es, n), PickStep(es, n);
    !s.scan.Idle? ==> p < n && es[p].action.Pick? && After(es, p).config == Some(s.scan.row) && s.scan.row.enabled && !After(es, p).risk.paused
  }

  /** The gates a scan has behind it. */
  predicate Behind(scan: Scan, gate: Gate) {
    match gate
    case CooldownGate => scan.Cleared? || (scan.At? && !scan.gate.CooldownGate?)
    case AccountGate => scan.Cleared? || (scan.At? && (scan.gate.PositionGate? || scan.gate.DailyGate?))
    case PositionGate => scan.Cleared? || (scan.At? && scan.gate.DailyGate?)
    case DailyGate => scan.Cleared?
  }

  /** Each gate behind the scan was passed on the state its own step found. */
  predicate GateTrail(es: seq<Event>, n: nat, gate: Gate)
    requires n <= |es|
  {
    var s, g := After(es, n), GateStep(es, n, gate);
    Behind(s.scan, gate) ==> PickStep(es, n) < g < n && ChecksAt(es, g, gate) && Passes(After(es, g), gate, s.scan.row, es[g].at, es[g].day)
  }

  ghost predicate AllGateTrails(es: seq<Event>, n: nat)
    requires n <= |es|
  {
    forall gate: Gate :: GateTrail(es, n, gate)
  }

  /** The gates are passed in their order. */
  predicate GatesInOrder(es: seq<Event>, n: nat)
    requires n <= |es|
  {
    var scan := After(es, n).scan;
    && (Behind(scan, AccountGate) ==> GateStep(es, n, CooldownGate) < GateStep(es, n, AccountGate))
    && (Behind(scan, PositionGate) ==> GateStep(es, n, AccountGate) < GateStep(es, n, PositionGate))
    && (Behind(scan, DailyGate) ==> GateStep(es, n, PositionGate) < GateStep(es, n, DailyGate))
  }

  /** What has happened to positions since they were counted, and to the day's opens since the daily check. */
  ghost predicate SinceGates(es: seq<Event>, n: nat)
    requires n <= |es|
  {
    var s, g, d := After(es, n), GateStep(es, n, PositionGate), GateStep(es, n, DailyGate);
    && (Behind(s.scan, PositionGate) ==> g < n && s.open == After(es, g).open + NetOthers(es, g, n))
    && (Behind(s.scan, DailyGate) ==> d < n && forall day: Day :: OpensOn(es, n, day) == OpensOn(es, d, day))
  }

  lemma {:induction false} ScanLeavesTrail(es: seq<Event>, n: nat)
    requires n <= |es|
    ensures PickTrail(es, n) && GatesInOrder(es, n) && SinceGates(es, n)
    ensures AllGateTrails(es, n)
  {
    if n > 0 {
      ScanLeavesTrail(es, n - 1);
      Unfold(es, n);
      ScanStep(After(es, n - 1), es[n - 1]);
      PickTrailKept(es, n);
      OrderKept(es, n);
      SinceGatesKept(es, n);
      forall gate: Gate ensures GateTrail(es, n, gate) {
        GateTrailKept(es, n, gate);
      }
    }
  }

  lemma {:induction false} PickTrailKept(es: seq<Event>, n: nat)
    requires 0 < n <= |es| && PickTrail(es, n - 1)
    ensures PickTrail(es, n)
  {
    ScanStep(After(es, n - 1), es[n - 1]);
    hide Step;
  }

  lemma {:induction false} GateTrailKept(es: seq<Event>, n: nat, gate: Gate)
    requires 0 < n <= |es| && PickTrail(es, n - 1) && GateTrail(es, n - 1, gate)
    ensures GateTrail(es, n, gate)
  {
    ScanStep(After(es, n - 1), es[n - 1]);
    hide Step, Passes;
  }

  lemma {:induction false} OrderKept(es: seq<Event>, n: nat)
    requires 0 < n <= |es| && GatesInOrder(es, n - 1)
    requires AllGateTrails(es, n - 1)
    ensures GatesInOrder(es, n)
  {
    ScanStep(After(es, n - 1), es[n - 1]);
    assert GateTrail(es, n - 1, CooldownGate) && GateTrail(es, n - 1, AccountGate) && GateTrail(es, n - 1, PositionGate);
    hide Step, Passes;
  }

  lemma {:induction false} SinceGatesKept(es: seq<Event>, n: nat)
    requires 0 < n <= |es| && SinceGates(es, n - 1)
    ensures SinceGates(es, n)
  {
    ScanStep(After(es, n - 1), es[n - 1]);
    hide Step, Passes;
    var scan, g := After(es, n).scan, GateStep(es, n, PositionGate);
    if Behind(scan, PositionGate) {
      assert g == n - 1 ==> NetOthers(es, g, n) == 0;
      assert After(es, n).open == After(es, g).open + NetOthers(es, g, n);
    }
    if Behind(scan, DailyGate) {
      forall day: Day ensures OpensOn(es, n, day) == OpensOn(es, n - 1, day) {
      }
    }
  }

  /** How one event moves the scan and the number of open positions. */
  lemma ScanStep(s: State, e: Event)
    ensures var t := Step(s, e);
            match s.scan
            case Idle =>
              t.scan.Idle? || (e.action.Pick? && s.config.Some? && t.scan == At(CooldownGate, s.config.value)
                               && s.config.value.enabled && !s.risk.paused)
            case At(gate, row) =>
              if e.action.Check? then t.scan == if Passes(s, gate, row, e.at, e.day) then Beyond(gate, row) else Idle
              else t.scan == s.scan
            case Cleared(row) => if e.action.Enter? then t.scan == Idle else t.scan == s.scan
    ensures var t := Step(s, e);
            t.open == s.open + match e.action
                               case OtherOpen => 1
                               case OtherClose => if s.open > 0 then -1 else 0
                               case CommitClose => if s.open > 0 && !s.stamping then -1 else 0
                               case Enter(outcome) => if outcome.Opened? && s.scan.Cleared? then 1 else 0
                               case _ => 0
  {
  }

  // ------------------------------------------------------------------ what the user and the failures decide

  /** Event `i` records a failure: an exit that failed, or an entry by a cleared scan that broke. */
  predicate Fails(es: seq<Event>, i: nat)
    requires i < |es|
  {
    es[i].action.ExitFailed? || (es[i].action == Enter(Broken) && After(es, i).scan.Cleared?)
  }

  /** Failures recorded since the last autonomous open. */
  function FailureRun(es: seq<Event>, n: nat): nat
    requires n <= |es|
  {
    if n == 0 || Opens(es, n - 1) then 0 else FailureRun(es, n - 1) + if Fails(es, n - 1) then 1 else 0
  }

  /** Event `i` stops the strategy: the user's pause, or a failure that is at least the third in a row. */
  predicate Stops(es: seq<Event>, i: nat)
    requires i < |es|
  {
    es[i].action.PauseStrategy? || (Fails(es, i) && FailureRun(es, i) + 1 >= 3)
  }

  predicate ResumedBetween(es: seq<Event>, i: nat, n: nat)
    requires n <= |es|
  {
    exists j :: i < j < n && es[j].action.ResumeStrategy?
  }

  /** Some stop before event `n` has not been followed by a resume. */
  predicate Stopped(es: seq<Event>, n: nat)
    requires n <= |es|
  {
    exists i: nat :: i < n && Stops(es, i) && !ResumedBetween(es, i, n)
  }

  /** The last save, pause or resume before event `n` left the strategy enabled. */
  predicate SwitchedOn(es: seq<Event>, n: nat)
    requires n <= |es|
  {
    n > 0 &&
    match es[n - 1].action
    case SaveStrategy(enabled, _, _) => enabled
    case PauseStrategy => false
    case ResumeStrategy => true
    case _ => SwitchedOn(es, n - 1)
  }

  datatype Settings = Settings(maxConcurrent: int, cooldownMinutes: int)

  /** The settings last saved before event `n`; two positions and 30 minutes until then. */
  function LastSaved(es: seq<Event>, n: nat): Settings
    requires n <= |es|
  {
    if n == 0 then Settings(2, 30)
    else
      match es[n - 1].action
      case SaveStrategy(_, maxConcurrent, cooldownMinutes) => Settings(maxConcurrent, cooldownMinutes)
      case _ => LastSaved(es, n - 1)
  }

  /** The account pause was last switched on before event `n`. */
  predicate AccountHeld(es: seq<Event>, n: nat)
    requires n <= |es|
  {
    n > 0 && if es[n - 1].action.SetAccountPause? then es[n - 1].action.paused else AccountHeld(es, n - 1)
  }

  function FailuresOf(s: State): nat { if s.risk.row.Some? then s.risk.row.value.failures else 0 }

  lemma SwitchStep(s: State, e: Event)
    ensures var t, fails := Step(s, e), e.action.ExitFailed? || (e.action == Enter(Broken) && s.scan.Cleared?);
            && FailuresOf(t) == (if e.action == Enter(Opened) && s.scan.Cleared? then 0 else FailuresOf(s) + if fails then 1 else 0)
            && t.risk.paused == (e.action.PauseStrategy? || (fails && FailuresOf(s) + 1 >= 3) || (s.risk.paused && !e.action.ResumeStrategy?))
            && t.accountPaused == (if e.action.SetAccountPause? then e.action.paused else s.accountPaused)
    ensures var t, fails := Step(s, e), e.action.ExitFailed? || (e.action == Enter(Broken) && s.scan.Cleared?);
            var was, next := OrDefaults(s.config), OrDefaults(t.config);
            && next.enabled == (match e.action
                                case SaveStrategy(enabled, _, _) => enabled
                                case PauseStrategy => false
                                case ResumeStrategy => true
                                case _ => was.enabled)
            && Settings(next.maxConcurrent, next.cooldownMinutes) == (match e.action
                                case SaveStrategy(_, maxConcurrent, cooldownMinutes) => Settings(maxConcurrent, cooldownMinutes)
                                case _ => Settings(was.maxConcurrent, was.cooldownMinutes))
  {
  }

  lemma {:induction false} StoppedStep(es: seq<Event>, n: nat)
    requires 0 < n <= |es|
    ensures Stopped(es, n) <==> Stops(es, n - 1) || (Stopped(es, n - 1) && !es[n - 1].action.ResumeStrategy?)
  {
    hide Stops;
    assert !ResumedBetween(es, n - 1, n);
    if Stopped(es, n) {
      var i: nat :| i < n && Stops(es, i) && !ResumedBetween(es, i, n);
      assert i < n - 1 ==> !ResumedBetween(es, i, n - 1);
    }
    if Stopped(es, n - 1) && !es[n - 1].action.ResumeStrategy? {
      var i: nat :| i < n - 1 && Stops(es, i) && !ResumedBetween(es, i, n - 1);
      assert !ResumedBetween(es, i, n);
    }
  }

  /** The pause, the switch, the settings and the account pause of a run's state, each read off the log alone. */
  lemma {:induction false} SwitchesMatchLog(es: seq<Event>, n: nat)
    requires n <= |es|
    ensures var s := After(es, n);
            && FailuresOf(s) == FailureRun(es, n)
            && (s.risk.paused <==> Stopped(es, n))
            && s.accountPaused == AccountHeld(es, n)
            && OrDefaults(s.config).enabled == SwitchedOn(es, n)
            && Settings(OrDefaults(s.config).maxConcurrent, OrDefaults(s.config).cooldownMinutes) == LastSaved(es, n)
  {
    hide Step, Stopped, FailuresOf, OrDefaults;
    if n == 0 {
      NothingSwitched(es);
    } else {
      SwitchesMatchLog(es, n - 1);
      SwitchStep(After(es, n - 1), es[n - 1]);
      StoppedStep(es, n);
    }
  }

  lemma NothingSwitched(es: seq<Event>)
    ensures !Stopped(es, 0) && FailuresOf(START) == 0 && OrDefaults(START.config) == Config(false, 2, 30, None, None)
  {
  }

  /** Event `i` writes to the strategy row even where there is none yet. */
  predicate MakesRow(es: seq<Event>, i: nat)
    requires i < |es|
  {
    es[i].action.SaveStrategy? || es[i].action.ResumeStrategy? || Stops(es, i)
  }

  lemma RowStep(s: State, e: Event)
    requires s.risk.paused ==> s.config.Some?
    ensures var t, stops := Step(s, e), (e.action.ExitFailed? || (e.action == Enter(Broken) && s.scan.Cleared?)) && FailuresOf(s) + 1 >= 3;
            && (t.config.Some? <==> s.config.Some? || e.action.SaveStrategy? || e.action.ResumeStrategy? || e.action.PauseStrategy? || stops)
            && (t.risk.paused ==> t.config.Some?)
  {
  }

  /** The user has a strategy row exactly when it was saved, resumed, paused, or stopped by a third failure in a row. */
  lemma {:induction false} RowExistsExactly(es: seq<Event>, n: nat)
    requires n <= |es|
    ensures After(es, n).config.Some? <==> exists i: nat :: i < n && MakesRow(es, i)
    ensures After(es, n).risk.paused ==> After(es, n).config.Some?
  {
    if n > 0 {
      RowExistsExactly(es, n - 1);
      SwitchesMatchLog(es, n - 1);
      RowStep(After(es, n - 1), es[n - 1]);
      Unfold(es, n);
      hide Step, After, FailureRun, FailuresOf;
      assert MakesRow(es, n - 1) <==> After(es, n).config.Some? && (After(es, n - 1).config.None? || MakesRow(es, n - 1));
    }
  }

  /** A free scanner picks the user up exactly when the last switch is on and no stop stands without a resume after it. */
  lemma {:induction false} ScanStartsExactly(es: seq<Event>, n: nat)
    requires n < |es| && es[n].action.Pick? && After(es, n).scan.Idle?
    ensures !After(es, n + 1).scan.Idle? <==>
              SwitchedOn(es, n) && !exists i: nat :: i < n && Stops(es, i) && !ResumedBetween(es, i, n)
  {
    SwitchesMatchLog(es, n);
    Unfold(es, n + 1);
    hide After, Stops, ResumedBetween, SwitchedOn;
  }

  /** Between a pause, or a third failure in a row, and the copy that an open rests on, the user has resumed. */
  lemma {:induction false} PauseStopsScans(es: seq<Event>, n: nat, i: nat)
    requires n < |es| && Opens(es, n) && i < PickStep(es, n)
    requires es[i].action.PauseStrategy? || (Fails(es, i) && FailureRun(es, i) >= 2)
    ensures exists j :: i < j < PickStep(es, n) && es[j].action.ResumeStrategy?
  {
    ScanLeavesTrail(es, n);
    SwitchesMatchLog(es, PickStep(es, n));
    assert Stops(es, i);
    hide After, Fails, FailureRun;
  }

  /** No open rests on a copy taken after the strategy was saved disabled and before it was enabled again. */
  lemma {:induction false} DisabledStopsScans(es: seq<Event>, n: nat)
    requires n < |es| && Opens(es, n)
    ensures SwitchedOn(es, PickStep(es, n))
  {
    ScanLeavesTrail(es, n);
    SwitchesMatchLog(es, PickStep(es, n));
    hide After;
  }

  /** The account gate of an open looked at a time when the account pause was off. */
  lemma {:induction false} AccountPauseStopsOpens(es: seq<Event>, n: nat, i: nat)
    requires n < |es| && Opens(es, n) && i < GateStep(es, n, AccountGate) && es[i].action == SetAccountPause(true)
    ensures exists j :: i < j < GateStep(es, n, AccountGate) && es[j].action == SetAccountPause(false)
  {
    ScanLeavesTrail(es, n);
    assert GateTrail(es, n, AccountGate);
    SwitchesMatchLog(es, GateStep(es, n, AccountGate));
    HeldUntilFreed(es, i, GateStep(es, n, AccountGate));
    hide After;
  }

  lemma {:induction false} HeldUntilFreed(es: seq<Event>, i: nat, n: nat)
    requires i < n <= |es| && es[i].action == SetAccountPause(true)
    ensures AccountHeld(es, n) || exists j :: i < j < n && es[j].action == SetAccountPause(false)
  {
    if n > i + 1 {
      HeldUntilFreed(es, i, n - 1);
      assert !AccountHeld(es, n) && AccountHeld(es, n - 1) ==> es[n - 1].action == SetAccountPause(false);
    }
  }

  /** From `since` to `now` there are at least five minutes, and at least the minutes last saved before stamp `k`. */
  predicate Waited(es: seq<Event>, k: nat, since: real, now: real)
    requires k <= |es|
  {
    now - since >= 300.0 && now - since >= 60.0 * LastSaved(es, k).cooldownMinutes as real
  }

  lemma {:induction false} WaitedMeans(es: seq<Event>, k: nat, since: real, now: real)
    requires k < |es| && Stamps(es, k)
    ensures Waited(es, k, since, now) <==> now >= FixedEnd(es, k, since)
  {
    SwitchesMatchLog(es, k);
    CooldownMeans(now, since, LastSaved(es, k).cooldownMinutes);
    hide After, LastSaved, CooldownEnd;
  }

  /** The cooldown after a close: at least five minutes, and at least the minutes set when it was stamped. */
  lemma CooldownMeans(now: real, closedAt: real, minutes: int)
    ensures now >= CooldownEnd(closedAt, minutes) <==> now - closedAt >= 300.0 && now - closedAt >= 60.0 * minutes as real
  {
  }

  // ------------------------------------------------------------------ main results

  /** What a copied row says of the cooldown, told by the last stamp before the copy. */
  lemma {:induction false} CopiedCooldown(es: seq<Event>, p: nat, now: real)
    requires p <= |es| && After(es, p).config.Some?
    ensures var k := LastStamp(es, p);
            CooldownElapsed(After(es, p).config.value, now) <==> (k.Some? ==> Waited(es, k.value, es[k.value].at, now))
  {
    hide After, Step, Waited;
    RowKeepsLastStamp(es, p);
    var k := LastStamp(es, p);
    if k.Some? {
      WaitedMeans(es, k.value, es[k.value].at, now);
    }
  }

  /** Each gate lets the scan on exactly when log and tables say so at its own step; the cooldown is judged on the copied row. */
  lemma {:induction false} GatesPassExactly(es: seq<Event>, n: nat)
    requires n < |es| && Clocked(es) && es[n].action.Check? && After(es, n).scan.At?
    ensures var s, k := After(es, n), LastStamp(es, PickStep(es, n));
            !After(es, n + 1).scan.Idle? <==>
              match s.scan.gate
              case CooldownGate => k.Some? ==> Waited(es, k.value, es[k.value].at, es[n].at)
              case AccountGate => !AccountHeld(es, n)
              case PositionGate => s.open < LastSaved(es, PickStep(es, n)).maxConcurrent && s.open < 3
              case DailyGate => OpensOn(es, n, es[n].day) < 20
  {
    hide Step, After, OpensOn, PickStep, LastStamp, Stopped, SwitchedOn, FailureRun, AccountHeld, LastSaved, FixedEnd, Waited, Stamps;
    ScanLeavesTrail(es, n);
    CountIsOpens(es, n, es[n].day);
    ScanStep(After(es, n), es[n]);
    Unfold(es, n + 1);
    var p := PickStep(es, n);
    SwitchesMatchLog(es, p);
    SwitchesMatchLog(es, n);
    if After(es, n).scan.gate.CooldownGate? {
      CopiedCooldown(es, p, es[n].at);
    }
  }

  /** Every autonomous open is at most the 20th of its day, however the scan interleaves with everything else. */
  lemma {:induction false} AtMostTwentyADay(es: seq<Event>, n: nat)
    requires n < |es| && Clocked(es) && Opens(es, n)
    ensures OpensOn(es, n + 1, es[n].day) <= 20
  {
    ScanLeavesTrail(es, n);
    var d, day := GateStep(es, n, DailyGate), es[n].day;
    assert GateTrail(es, n, DailyGate);
    CountIsOpens(es, d, es[d].day);
    CountIsOpens(es, d, day);
  }

  /** After an open the number of positions is within the cap of the copied row exactly when others left room for it since the count. */
  lemma {:induction false} PositionCapExactly(es: seq<Event>, n: nat)
    requires n < |es| && Opens(es, n)
    ensures var p, g := PickStep(es, n), GateStep(es, n, PositionGate);
            && p < g < n && After(es, p).config.Some?
            && var saved := LastSaved(es, p).maxConcurrent;
            && var cap := if saved <= 3 then saved else 3;
            && After(es, g).open < cap
            && (After(es, n + 1).open <= cap <==> After(es, g).open + NetOthers(es, g, n) < cap)
  {
    ScanLeavesTrail(es, n);
    SwitchesMatchLog(es, PickStep(es, n));
    assert GateTrail(es, n, PositionGate);
    ScanStep(After(es, n), es[n]);
  }

  /** An open never comes before the end of the cooldown that the copied row carries, whatever was edited since. */
  lemma {:induction false} CooldownFromTheCopiedRow(es: seq<Event>, n: nat)
    requires n < |es| && Clocked(es) && Opens(es, n)
    ensures var k := LastStamp(es, PickStep(es, n));
            k.Some? ==> Waited(es, k.value, es[k.value].at, es[n].at)
  {
    hide After, Step;
    ScanLeavesTrail(es, n);
    assert GateTrail(es, n, CooldownGate);
    CopiedCooldown(es, PickStep(es, n), es[GateStep(es, n, CooldownGate)].at);
  }

  /** Of the last close committed before the copy, the row carries the stamp exactly when it neither awaits it nor lost it. */
  lemma {:induction false} CopiedStampExactly(es: seq<Event>, c: nat, p: nat)
    requires p <= |es| && LastCommit(es, p) == Some(c)
    ensures StampedBefore(es, c, p) <==> !After(es, p).stamping && !Forgotten(es, c, p)
  {
    StampOwed(es, c, p);
    hide After, Stamps, Loses;
  }

  /** That stamp protects the close: the open comes at or after the end of the cooldown, counted from the commit. */
  lemma {:induction false} StampedCloseIsKept(es: seq<Event>, n: nat, c: nat)
    requires n < |es| && Clocked(es) && Opens(es, n)
    requires c < PickStep(es, n) && StampedBefore(es, c, PickStep(es, n))
    ensures Waited(es, LastStamp(es, PickStep(es, n)).value, es[c].at, es[n].at)
  {
    CooldownFromTheCopiedRow(es, n);
    hide After, Step, Opens;
  }

  /**
   An open within the cooldown of the last close before its copy shows that the stamp was awaited, had
   failed, or had found no row; `minutes` is the cooldown a stamp in the copy fixed, otherwise any.
   */
  lemma {:induction false} EarlyOpenMeansNoStamp(es: seq<Event>, n: nat, c: nat, minutes: int)
    requires n < |es| && Clocked(es) && Opens(es, n)
    requires LastCommit(es, PickStep(es, n)) == Some(c)
    requires StampedBefore(es, c, PickStep(es, n)) ==>
               minutes == After(es, LastStamp(es, PickStep(es, n)).value).config.value.cooldownMinutes
    requires es[n].at < CooldownEnd(es[c].at, minutes)
    ensures var p := PickStep(es, n);
            After(es, p).stamping || exists i :: c < i < p && Loses(es, i) && (es[i].action == StampClose(false) || After(es, i).config.None?)
  {
    var p := PickStep(es, n);
    CopiedStampExactly(es, c, p);
    if StampedBefore(es, c, p) {
      StampedCloseIsKept(es, n, c);
      WaitedMeans(es, LastStamp(es, p).value, es[c].at, es[n].at);
    } else if !After(es, p).stamping {
      var i :| c < i < p && Loses(es, i);
    }
  }

  /**
   The scan is shorter than the cooldown in question: counted from the copy of the row when the
   close came after it, and from the close when that came before and left no stamp in the copy.
   */
  predicate Brief(es: seq<Event>, n: nat, c: nat, minutes: int)
    requires c < n < |es|
  {
    var p := PickStep(es, n);
    var cooldown := 60.0 * Max(minutes, SYSTEM_MIN_COOLDOWN_MINUTES) as real;
    if c >= p then es[n].at - es[p].at < cooldown
    else !StampedBefore(es, c, p) ==> es[n].at - es[c].at < cooldown
  }

  /**
   Against the last close of all, for a cooldown of any length that outlasts the scan: the open
   keeps it exactly when the stamp of that close precedes the copy of the row, that is, when the
   close was committed before the copy and its stamp was then neither awaited nor lost.
   `minutes` is the cooldown the stamp fixed; without a stamp before the copy it may be any.
   */
  lemma {:induction false} CooldownExactly(es: seq<Event>, n: nat, c: nat, minutes: int)
    requires n < |es| && Clocked(es) && Opens(es, n)
    requires LastCommit(es, n) == Some(c) && Brief(es, n, c, minutes)
    requires StampedBefore(es, c, PickStep(es, n)) ==>
               minutes == After(es, LastStamp(es, PickStep(es, n)).value).config.value.cooldownMinutes
    ensures es[n].at >= CooldownEnd(es[c].at, minutes) <==> StampedBefore(es, c, PickStep(es, n))
    ensures StampedBefore(es, c, PickStep(es, n)) <==>
              c < PickStep(es, n) && !After(es, PickStep(es, n)).stamping && !Forgotten(es, c, PickStep(es, n))
  {
    var p := PickStep(es, n);
    if c < p {
      LastCommitBefore(es, c, p, n);
      CopiedStampExactly(es, c, p);
      if StampedBefore(es, c, p) {
        StampedCloseIsKept(es, n, c);
        WaitedMeans(es, LastStamp(es, p).value, es[c].at, es[n].at);
      }
    }
    hide After, Stamps;
  }

  lemma {:induction false} LastCommitBefore(es: seq<Event>, c: nat, p: nat, n: nat)
    requires c < p <= n <= |es| && LastCommit(es, n) == Some(c)
    ensures LastCommit(es, p) == Some(c)
  {
    hide Commits;
    if p < n {
      LastCommitBefore(es, c, p, n - 1);
    }
  }

  /**
   A scan no other event interrupts, begun while no close awaits its stamp, keeps every limit
   against the state it finds.
   */
  lemma {:induction false} UninterruptedScanIsSafe(es: seq<Event>, n: nat)
    requires n < |es| && Clocked(es) && Opens(es, n)
    requires PickStep(es, n) + 5 == n && !After(es, n - 5).stamping
    ensures var s, t, c := After(es, n - 5), After(es, n + 1), LastCommit(es, n);
            && s.config.Some? && s.config.value.enabled && !s.risk.paused && !s.accountPaused
            && t.open <= s.config.value.maxConcurrent && t.open <= 3
            && OpensOn(es, n + 1, es[n].day) <= 20
            && (c.Some? && !Forgotten(es, c.value, n - 5) ==>
                  StampedBefore(es, c.value, n - 5) && Waited(es, LastStamp(es, n - 5).value, es[c.value].at, es[n].at))
  {
    hide After, Step, Opens, PickStep, LastStamp, LastCommit, Forgotten, OpensOn, Waited;
    AtMostTwentyADay(es, n);
    RoomSinceStart(es, n);
    OnlyChecksSince(es, n);
    var p, c := n - 5, LastCommit(es, n);
    if c.Some? {
      LastCommitBefore(es, c.value, p, n);
      CopiedStampExactly(es, c.value, p);
      if StampedBefore(es, c.value, p) {
        StampedCloseIsKept(es, n, c.value);
      }
    }
  }

  lemma {:induction false} RoomSinceStart(es: seq<Event>, n: nat)
    requires n < |es| && Opens(es, n) && PickStep(es, n) + 5 == n
    ensures var s, t := After(es, n - 5), After(es, n + 1);
            && s.config.Some? && s.config.value.enabled && !s.risk.paused && !s.accountPaused
            && t.open <= s.config.value.maxConcurrent && t.open <= 3
  {
    hide After, Step, NetOthers, PickStep, GateStep, LastCommit;
    ScanLeavesTrail(es, n);
    OnlyChecksSince(es, n);
    ScanStep(After(es, n), es[n]);
    Unfold(es, n + 1);
    assert GateTrail(es, n, PositionGate) && GateTrail(es, n, AccountGate);
    hide AllGateTrails, GatesInOrder;
  }

  /** The five steps of such a scan are the copy and its four checks, so nobody else moved. */
  lemma {:induction false} OnlyChecksSince(es: seq<Event>, n: nat)
    requires n < |es| && Opens(es, n) && PickStep(es, n) + 5 == n
    ensures GateStep(es, n, CooldownGate) == n - 4 && GateStep(es, n, AccountGate) == n - 3
    ensures GateStep(es, n, PositionGate) == n - 2 && GateStep(es, n, DailyGate) == n - 1
    ensures LastCommit(es, n).Some? ==> LastCommit(es, n).value < n - 5
    ensures NetOthers(es, n - 2, n) == 0 && After(es, n - 5).accountPaused == After(es, n - 3).accountPaused
  {
    hide After, Step, Passes, LastCommit, NetOthers;
    ScanLeavesTrail(es, n);
    assert GateTrail(es, n, CooldownGate) && GateTrail(es, n, AccountGate) && GateTrail(es, n, PositionGate) && GateTrail(es, n, DailyGate);
    QuietStep(es, n);
    AccountUnchanged(es, n);
  }

  lemma {:induction false} AccountUnchanged(es: seq<Event>, n: nat)
    requires 5 <= n <= |es| && forall i :: n - 5 <= i < n ==> es[i].action.Pick? || es[i].action.Check?
    ensures After(es, n - 5).accountPaused == After(es, n - 3).accountPaused
  {
    hide After;
    Unfold(es, n - 4);
    Unfold(es, n - 3);
  }

  lemma {:induction false} QuietStep(es: seq<Event>, n: nat)
    requires 5 <= n <= |es| && forall i :: n - 5 <= i < n ==> es[i].action.Pick? || es[i].action.Check?
    ensures LastCommit(es, n).Some? ==> LastCommit(es, n).value < n - 5
    ensures NetOthers(es, n - 2, n) == 0
  {
    NobodyCloses(es, n - 5, n);
    assert NetOthers(es, n - 2, n - 2) == 0;
  }
  // ------------------------------------------------------------------ runs on the failing sides

  predicate ReadyToScan(s: State) {
    && s.scan.Idle? && s.config.Some? && s.config.value.enabled && s.config.value.lastClose.None?
    && !s.risk.paused && s.risk.row.None? && !s.accountPaused && s.open < Cap(s.config.value)
  }

  /** Copy and checks in a row get through when nothing stands against them. */
  lemma {:induction false} ScanThrough(es: seq<Event>, p: nat, s: State)
    requires p + 5 <= |es| && After(es, p) == s && ReadyToScan(s)
    requires es[p].action.Pick? && forall i :: p < i < p + 5 ==> es[i].action.Check?
    ensures After(es, p + 5) == s.(scan := Cleared(s.config.value)) && PickStep(es, p + 5) == p
    ensures LastCommit(es, p + 5) == LastCommit(es, p) && LastStamp(es, p + 5) == LastStamp(es, p)
  {
    hide After, Step, LastCommit, LastStamp, PickStep, Cap;
    PassGates(s, es[p], es[p + 1], es[p + 2], es[p + 3], es[p + 4]);
    Unfold(es, p + 1);
    Unfold(es, p + 2);
    Unfold(es, p + 3);
    Unfold(es, p + 4);
    Unfold(es, p + 5);
    PickedHere(es, p);
    NobodyCloses(es, p, p + 5);
  }

  lemma {:induction false} PickedHere(es: seq<Event>, p: nat)
    requires p + 5 <= |es| && es[p].action.Pick? && After(es, p).scan.Idle?
    requires forall i :: p < i < p + 5 ==> es[i].action.Check?
    ensures PickStep(es, p + 5) == p
  {
    hide After;
    assert PickStep(es, p + 1) == PickStep(es, p + 2) == PickStep(es, p + 3) == p;
  }

  lemma {:induction false} NobodyCloses(es: seq<Event>, p: nat, n: nat)
    requires p <= n <= |es| && forall i :: p <= i < n ==> es[i].action.Pick? || es[i].action.Check?
    ensures LastCommit(es, n) == LastCommit(es, p) && LastStamp(es, n) == LastStamp(es, p)
  {
    hide After;
    if p < n {
      NobodyCloses(es, p, n - 1);
    }
  }

  lemma {:induction false} PassGates(s: State, pick: Event, e1: Event, e2: Event, e3: Event, e4: Event)
    requires ReadyToScan(s) && pick.action.Pick?
    requires e1.action.Check? && e2.action.Check? && e3.action.Check? && e4.action.Check?
    ensures var row := s.config.value;
            && Step(s, pick) == s.(scan := At(CooldownGate, row))
            && Step(s.(scan := At(CooldownGate, row)), e1) == s.(scan := At(AccountGate, row))
            && Step(s.(scan := At(AccountGate, row)), e2) == s.(scan := At(PositionGate, row))
            && Step(s.(scan := At(PositionGate, row)), e3) == s.(scan := At(DailyGate, row))
            && Step(s.(scan := At(DailyGate, row)), e4) == s.(scan := Cleared(row))
  {
  }

  function Do(action: Action): Event { Event(0.0, 0, action) }

  const CHECKS := [Do(Check), Do(Check), Do(Check), Do(Check)]

  /** Resumed with the default settings, and with some positions. */
  function Resumed(open: nat): State { START.(config := Some(DEFAULTS.(enabled := true)), open := open) }

  lemma Beginning(es: seq<Event>)
    ensures After(es, 0) == START
  {
  }

  lemma {:induction false} ResumeAndOpen(es: seq<Event>)
    requires |es| >= 2 && es[0] == Do(ResumeStrategy) && es[1] == Do(OtherOpen)
    ensures After(es, 2) == Resumed(1) && LastCommit(es, 2) == None && LastStamp(es, 2) == None
  {
    assert Step(START, es[0]) == Resumed(0) && Step(Resumed(0), es[1]) == Resumed(1);
    hide After, Step;
    Beginning(es);
    Unfold(es, 1);
    Unfold(es, 2);
    assert LastCommit(es, 1) == None && LastStamp(es, 1) == None;
  }

  /** Open `n` comes at the very moment of the last close `c`, although the scan was brief and no stamp is lost. */
  predicate OpensAtOnce(es: seq<Event>, n: nat, c: nat)
    requires c < n < |es|
  {
    && Clocked(es) && Opens(es, n) && LastCommit(es, n) == Some(c) && Brief(es, n, c, SYSTEM_MIN_COOLDOWN_MINUTES) && es[n].at == es[c].at
    && !Forgotten(es, c, PickStep(es, n)) && !StampedBefore(es, c, PickStep(es, n))
  }

  /** A close committed before the copy and stamped after it. */
  lemma LateStampBreaksCooldown()
    ensures exists es: seq<Event>, n: nat, c: nat :: c < n < |es| && OpensAtOnce(es, n, c) && c < PickStep(es, n)
  {
    LateStampRun(CloseScanStamp());
  }

  function CloseScanStamp(): (es: seq<Event>)
    ensures |es| == 10 && Clocked(es) && es[0] == Do(ResumeStrategy) && es[1] == Do(OtherOpen) && es[2] == Do(CommitClose)
    ensures es[3] == Do(Pick) && (forall i :: 3 < i < 8 ==> es[i] == Do(Check)) && es[8] == Do(Enter(Opened))
  {
    [Do(ResumeStrategy), Do(OtherOpen), Do(CommitClose), Do(Pick)] + CHECKS + [Do(Enter(Opened)), Do(StampClose(true))]
  }

  lemma {:induction false} LateStampRun(es: seq<Event>)
    requires es == CloseScanStamp()
    ensures OpensAtOnce(es, 8, 2) && PickStep(es, 8) == 3
  {
    var s := Resumed(0).(stamping := true);
    assert Step(Resumed(1), es[2]) == s;
    hide After, Step, CloseScanStamp;
    ResumeAndOpen(es);
    Unfold(es, 3);
    assert LastCommit(es, 3) == Some(2) && LastStamp(es, 3) == None;
    hide LastStamp, LastCommit, Stamps, Loses;
    ScanThrough(es, 3, s);
  }

  /** A close between copy and open does the same. */
  lemma LateCloseBreaksCooldown()
    ensures exists es: seq<Event>, n: nat, c: nat :: c < n < |es| && OpensAtOnce(es, n, c) && c > PickStep(es, n)
  {
    LateCloseRun(ScanThen(CommitClose));
  }

  lemma {:induction false} LateCloseRun(es: seq<Event>)
    requires es == ScanThen(CommitClose)
    ensures OpensAtOnce(es, 8, 7) && PickStep(es, 8) == 2
  {
    var t := Resumed(1).(scan := Cleared(Resumed(1).config.value));
    assert Step(t, es[7]) == t.(open := 0, stamping := true);
    hide After, Step, ScanThen, LastStamp, Stamps, Loses;
    ScanThenIsCleared(CommitClose);
    Unfold(es, 8);
    assert LastCommit(es, 8) == Some(7);
  }

  /** An opening by others after the count leaves more positions than the limit. */
  lemma OthersBreakTheCap()
    ensures exists es: seq<Event>, n: nat ::
              && n < |es| && Clocked(es) && Opens(es, n)
              && After(es, PickStep(es, n)).config.Some?
              && After(es, n + 1).open > Cap(After(es, PickStep(es, n)).config.value)
  {
    var es := ScanThen(OtherOpen);
    var t := Resumed(1).(scan := Cleared(Resumed(1).config.value));
    assert Step(t, es[7]) == t.(open := 2);
    assert Step(t.(open := 2), es[8]).open == 3;
    hide After, Step, ScanThen;
    ScanThenIsCleared(OtherOpen);
    Unfold(es, 8);
    Unfold(es, 9);
    assert Opens(es, 8) && PickStep(es, 8) == 2;
  }

  /** One position, a scan that passes its gates, one event by somebody else, the open. */
  function ScanThen(other: Action): (es: seq<Event>)
    ensures |es| == 9 && es[7] == Do(other) && es[8] == Do(Enter(Opened)) && Clocked(es)
  {
    [Do(ResumeStrategy), Do(OtherOpen), Do(Pick)] + CHECKS + [Do(other), Do(Enter(Opened))]
  }

  lemma {:induction false} ScanThenIsCleared(other: Action)
    ensures var es := ScanThen(other);
            && After(es, 2) == Resumed(1) && After(es, 7) == Resumed(1).(scan := Cleared(Resumed(1).config.value))
            && PickStep(es, 7) == 2 && LastCommit(es, 7) == None && LastStamp(es, 2) == None
  {
    var es := ScanThen(other);
    ResumeAndOpen(es);
    hide After;
    ScanThrough(es, 2, Resumed(1));
  }

  /** A stamp that finds no strategy row is lost: one second after the close an open can follow. */
  lemma CloseWithoutRowIsForgotten()
    ensures exists es: seq<Event>, n: nat, c: nat ::
              && n < |es| && Clocked(es) && Opens(es, n) && LastCommit(es, PickStep(es, n)) == Some(c)
              && Forgotten(es, c, PickStep(es, n)) && es[n].at == es[c].at + 1.0
  {
    var es := CloseThenScan();
    hide After, Step, CloseThenScan, LastCommit, LastStamp, Forgotten;
    StampWithoutRow(es);
    ScanThrough(es, 4, START.(config := Some(Config(true, 2, 30, None, None))));
    assert Opens(es, 9);
  }

  function CloseThenScan(): (es: seq<Event>)
    ensures |es| == 10 && Clocked(es) && es[0] == Do(OtherOpen) && es[1] == Do(CommitClose) && es[2] == Do(StampClose(true))
    ensures es[3].action == SaveStrategy(true, 2, 30) && es[4].action.Pick? && forall i :: 4 < i < 9 ==> es[i].action.Check?
    ensures es[9] == Event(1.0, 0, Enter(Opened))
  {
    [Do(OtherOpen), Do(CommitClose), Do(StampClose(true))] +
    [Event(1.0, 0, SaveStrategy(true, 2, 30)), Event(1.0, 0, Pick),
     Event(1.0, 0, Check), Event(1.0, 0, Check), Event(1.0, 0, Check), Event(1.0, 0, Check), Event(1.0, 0, Enter(Opened))]
  }

  lemma {:induction false} StampWithoutRow(es: seq<Event>)
    requires |es| >= 4 && es[0] == Do(OtherOpen) && es[1] == Do(CommitClose) && es[2] == Do(StampClose(true))
    requires es[3].action == SaveStrategy(true, 2, 30)
    ensures After(es, 4) == START.(config := Some(Config(true, 2, 30, None, None)))
    ensures LastCommit(es, 4) == Some(1) && Forgotten(es, 1, 4)
  {
    var s1, s2 := START.(open := 1), START.(stamping := true);
    assert Step(START, es[0]) == s1 && Step(s1, es[1]) == s2 && Step(s2, es[2]) == START;
    assert Step(START, es[3]) == START.(config := Some(Config(true, 2, 30, None, None)));
    hide After, Step;
    Beginning(es);
    Unfold(es, 1);
    Unfold(es, 2);
    Unfold(es, 3);
    Unfold(es, 4);
    assert LastCommit(es, 2) == Some(1) && LastCommit(es, 3) == Some(1);
    assert Loses(es, 2);
  }

  // ------------------------------------------------------------------ the services that write the user's rows

  /** Scanner, monitor and dashboard as they act on one user. */
  class TradingLoop {
    const riskManager: UserRisk.UserRiskManager
    var config: Option<Config>
    var accountPaused: bool
    var openPositions: nat
    var scan: Scan
    var stamping: bool

    constructor (riskManager: UserRisk.UserRiskManager)
      ensures this.riskManager == riskManager
      ensures View() == START.(risk := riskManager.View())
    {
      this.riskManager := riskManager;
      config, accountPaused, openPositions, scan, stamping := None, false, 0, Idle, false;
    }

    function View(): State
      reads this, riskManager
    {
      State(config, riskManager.View(), accountPaused, openPositions, scan, stamping)
    }

    method PickUser(now: real, day: Day)
      modifies this
      ensures View() == Step(old(View()), Event(now, day, Pick))
    {
      if scan.Idle? && config.Some? && config.value.enabled && !riskManager.paused {
        scan := At(CooldownGate, config.value);
      }
    }

    method HasCooldownElapsed(row: Config, now: real) returns (elapsed: bool)
      ensures elapsed == CooldownElapsed(row, now)
    {
      if row.lastClose.None? { return true; }
      var minutes := if row.cooldownAtClose.Some? then row.cooldownAtClose.value else row.cooldownMinutes;
      minutes := Max(minutes, SYSTEM_MIN_COOLDOWN_MINUTES);
      return now - row.lastClose.value >= 60.0 * minutes as real;
    }

    /** The next pre-flight check; a scan that fails one is over for this cycle. */
    method CheckNext(now: real, day: Day)
      modifies this, riskManager
      ensures View() == Step(old(View()), Event(now, day, Check))
    {
      if !scan.At? { return; }
      var gate, row := scan.gate, scan.row;
      scan := Idle;
      match gate
      case CooldownGate =>
        var elapsed := HasCooldownElapsed(row, now);
        if elapsed { scan := At(AccountGate, row); }
      case AccountGate =>
        if !accountPaused { scan := At(PositionGate, row); }
      case PositionGate =>
        var maxPositions := if row.maxConcurrent <= SYSTEM_MAX_POSITIONS then row.maxConcurrent else SYSTEM_MAX_POSITIONS;
        if openPositions < maxPositions { scan := At(DailyGate, row); }
      case DailyGate =>
        var underLimit := riskManager.CheckDailyTradeLimit(day);
        if underLimit { scan := Cleared(row); }
    }

    /** `NotEntered` covers entry criteria that are not met and a balance below the size. */
    method OpenPosition(now: real, day: Day, outcome: Outcome)
      modifies this, riskManager
      ensures View() == Step(old(View()), Event(now, day, Enter(outcome)))
    {
      if !scan.Cleared? { return; }
      scan := Idle;
      match outcome
      case Opened =>
        openPositions := openPositions + 1;
        riskManager.RecordOneTrade(day);
      case NotEntered =>
      case Broken =>
        RecordFailure(day);
    }

    method RecordFailure(day: Day)
      modifies this`config, riskManager
      ensures View() == WithFailure(old(View()), day)
    {
      var ok := riskManager.RecordOneFailure(day);
      if riskManager.paused && config.None? {
        config := Some(DEFAULTS);
      }
    }

    /** The transaction that closes a position; a failure before its commit is recorded instead. */
    method ExecuteExit(now: real, day: Day, committed: bool)
      modifies this, riskManager
      ensures View() == Step(old(View()), Event(now, day, if committed then CommitClose else ExitFailed))
    {
      if !committed {
        RecordFailure(day);
      } else if openPositions > 0 && !stamping {
        openPositions := openPositions - 1;
        stamping := true;
      }
    }

    /** The statement after it, whose failure is ignored. */
    method StampCooldown(now: real, day: Day, ok: bool)
      modifies this
      ensures View() == Step(old(View()), Event(now, day, StampClose(ok)))
    {
      if stamping {
        stamping := false;
        if ok && config.Some? {
          config := Some(config.value.(lastClose := Some(now), cooldownAtClose := Some(config.value.cooldownMinutes)));
        }
      }
    }

    method UpdateStrategy(now: real, day: Day, enabled: bool, maxConcurrent: int, cooldownMinutes: int)
      modifies this
      ensures View() == Step(old(View()), Event(now, day, SaveStrategy(enabled, maxConcurrent, cooldownMinutes)))
    {
      if config.None? {
        config := Some(DEFAULTS);
      }
      config := Some(config.value.(enabled := enabled, maxConcurrent := maxConcurrent, cooldownMinutes := cooldownMinutes));
    }

    method Pause(now: real, day: Day)
      modifies this, riskManager
      ensures View() == Step(old(View()), Event(now, day, PauseStrategy))
    {
      config := Some(OrDefaults(config).(enabled := false));
      riskManager.paused := true;
    }

    method Resume(now: real, day: Day)
      modifies this, riskManager
      ensures View() == Step(old(View()), Event(now, day, ResumeStrategy))
    {
      config := Some(OrDefaults(config).(enabled := true));
      riskManager.paused := false;
    }
  }
}
