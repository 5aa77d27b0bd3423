/** The pause controller: one pause flag with one scope, and a list of breaker events behind it. */
module PauseControl {
  import opened Common

  datatype Kind =
    | AsgardHealth | HyperliquidMargin | NegativeApy | PriceDeviation | LstDepeg | HighGas | ChainOutage | Manual

  datatype Scope = All | Entry | Exit | Asgard | Hyperliquid

  datatype By = ByHand | Auto

  datatype Breaker = Breaker(kind: Kind, scope: Scope, autoRecovery: bool, recoveryTime: Option<int>, resolvedBy: Option<By>)
  {
    predicate IsActive() { resolvedBy.None? }

    predicate IsDue(now: int) { IsActive() && autoRecovery && recoveryTime.Some? && now >= recoveryTime.value }
  }

  datatype State = State(paused: bool, scope: Scope, breakers: seq<Breaker>)

  const INITIAL := State(false, All, [])

  function DefaultCooldown(kind: Kind): int { if kind.PriceDeviation? then 1800 else 0 }

  // ------------------------------------------------------------------ the operations as state changes

  function NewBreaker(kind: Kind, scope: Scope, autoRecovery: bool, cooldown: Option<int>, now: int): Breaker {
    var seconds := if cooldown.None? then DefaultCooldown(kind) else cooldown.value;
    Breaker(kind, scope, autoRecovery, if autoRecovery && seconds > 0 then Some(now + seconds) else None, None)
  }

  function Added(s: State, b: Breaker): State { State(true, b.scope, s.breakers + [b]) }

  predicate AnyActive(bs: seq<Breaker>) { exists i :: 0 <= i < |bs| && bs[i].IsActive() }

  predicate AnyActiveOf(bs: seq<Breaker>, kind: Kind) { exists i :: 0 <= i < |bs| && bs[i].IsActive() && bs[i].kind == kind }

  function Settle(b: Breaker, kinds: seq<Kind>, who: By): Breaker {
    if b.IsActive() && b.kind in kinds then b.(resolvedBy := Some(who)) else b
  }

  function SettleAll(bs: seq<Breaker>, kinds: seq<Kind>, who: By): (r: seq<Breaker>)
    ensures |r| == |bs| && forall i :: 0 <= i < |bs| ==> r[i] == Settle(bs[i], kinds, who)
  {
    seq(|bs|, i requires 0 <= i < |bs| => Settle(bs[i], kinds, who))
  }

  /** The pause is lifted once no breaker is active any more. */
  function Lifted(s: State, bs: seq<Breaker>): State {
    if AnyActive(bs) then s.(breakers := bs) else State(false, All, bs)
  }

  function Resolved(s: State, kind: Kind, who: By): State {
    if AnyActiveOf(s.breakers, kind) then Lifted(s, SettleAll(s.breakers, [kind], who)) else s
  }

  function Resumed(s: State): State { State(false, All, SettleAll(s.breakers, [Manual], ByHand)) }

  /** The kinds of the due breakers among the first `n`, each named once, in the order of its first due breaker. */
  function DueKinds(bs: seq<Breaker>, now: int, n: nat): (kinds: seq<Kind>)
    requires n <= |bs|
    ensures forall i, j :: 0 <= i < j < |kinds| ==> kinds[i] != kinds[j]
    ensures forall k :: k in kinds <==> exists i :: 0 <= i < n && bs[i].IsDue(now) && bs[i].kind == k
  {
    if n == 0 then []
    else
      var kinds := DueKinds(bs, now, n - 1);
      if bs[n - 1].IsDue(now) && bs[n - 1].kind !in kinds then kinds + [bs[n - 1].kind] else kinds
  }

  function Recovered(s: State, now: int): State {
    var kinds := DueKinds(s.breakers, now, |s.breakers|);
    Partly(s, kinds)
  }

  function Partly(s: State, kinds: seq<Kind>): (t: State)
    ensures |t.breakers| == |s.breakers|
  {
    if kinds == [] then s else Lifted(s, SettleAll(s.breakers, kinds, Auto))
  }

  // ------------------------------------------------------------------ runs

  datatype Operation =
    | DoPause(authorized: bool, scope: Scope)
    | DoResume(authorized: bool)
    | Trigger(breaker: Breaker)
    | Resolve(kind: Kind, who: By)
    | CheckAndRecover(now: int)

  /** A pause or a trigger adds a fresh breaker; other operations only settle what is there. */
  predicate Adds(op: Operation) { (op.DoPause? && op.authorized) || op.Trigger? }

  predicate Fresh(op: Operation) { op.Trigger? ==> op.breaker.IsActive() }

  function Step(s: State, op: Operation): State {
    match op
    case DoPause(authorized, scope) => if authorized then Added(s, Breaker(Manual, scope, false, None, None)) else s
    case DoResume(authorized) => if authorized then Resumed(s) else s
    case Trigger(b) => Added(s, b)
    case Resolve(kind, who) => Resolved(s, kind, who)
    case CheckAndRecover(now) => Recovered(s, now)
  }

  function After(ops: seq<Operation>, n: nat): State
    requires n <= |ops|
  {
    if n == 0 then INITIAL else Step(After(ops, n - 1), ops[n - 1])
  }

  /** An authorized resume came after the last pause or trigger. */
  predicate ResumedSince(ops: seq<Operation>, n: nat)
    requires n <= |ops|
  {
    n > 0 && !Adds(ops[n - 1]) && ((ops[n - 1].DoResume? && ops[n - 1].authorized) || ResumedSince(ops, n - 1))
  }

  predicate AllFresh(ops: seq<Operation>) { forall i :: 0 <= i < |ops| ==> Fresh(ops[i]) }

  // ------------------------------------------------------------------ when operations are paused

  predicate PauseState(s: State, resumed: bool) {
    && (s.paused <==> AnyActive(s.breakers) && !resumed)
    && s.scope == (if s.paused then s.breakers[|s.breakers| - 1].scope else All)
  }

  lemma {:induction false} SettlingNeverRevives(bs: seq<Breaker>, kinds: seq<Kind>, who: By)
    ensures AnyActive(SettleAll(bs, kinds, who)) ==> AnyActive(bs)
  {
    var after := SettleAll(bs, kinds, who);
    if AnyActive(after) {
      var i :| 0 <= i < |after| && after[i].IsActive();
      assert bs[i].IsActive();
    }
  }

  lemma {:induction false} LiftedKeeps(s: State, kinds: seq<Kind>, who: By, resumed: bool)
    requires PauseState(s, resumed)
    ensures PauseState(Lifted(s, SettleAll(s.breakers, kinds, who)), resumed)
  {
    SettlingNeverRevives(s.breakers, kinds, who);
  }

  lemma {:induction false} AddedIsActive(s: State, b: Breaker)
    requires b.IsActive()
    ensures AnyActive(Added(s, b).breakers)
  {
    assert Added(s, b).breakers[|s.breakers|] == b;
  }

  /**
   On every run operations are paused exactly when some breaker is active and nobody resumed since
   the newest one; the scope in force is then the newest breaker's.
   */
  lemma {:induction false} PausedExactly(ops: seq<Operation>, n: nat)
    requires n <= |ops| && AllFresh(ops)
    ensures PauseState(After(ops, n), ResumedSince(ops, n))
  {
    if n > 0 {
      var s, op := After(ops, n - 1), ops[n - 1];
      PausedExactly(ops, n - 1);
      hide AnyActive, SettleAll;
      match op
      case DoPause(authorized, scope) =>
        if authorized { AddedIsActive(s, Breaker(Manual, scope, false, None, None)); }
      case Trigger(b) => AddedIsActive(s, b);
      case DoResume(_) =>
      case Resolve(kind, who) => LiftedKeeps(s, [kind], who, ResumedSince(ops, n - 1));
      case CheckAndRecover(now) =>
        LiftedKeeps(s, DueKinds(s.breakers, now, |s.breakers|), Auto, ResumedSince(ops, n - 1));
    }
  }

  /** A resume hides breakers exactly when one that is not manual is active: it lifts the pause and resolves manual ones only. */
  lemma {:induction false} ResumeHidesExactly(s: State)
    ensures AnyActive(Resumed(s).breakers)
        <==> exists i :: 0 <= i < |s.breakers| && s.breakers[i].IsActive() && !s.breakers[i].kind.Manual?
  {
    var after := Resumed(s).breakers;
    if AnyActive(after) {
      var i :| 0 <= i < |after| && after[i].IsActive();
      assert s.breakers[i].IsActive() && !s.breakers[i].kind.Manual?;
    }
    if exists i :: 0 <= i < |s.breakers| && s.breakers[i].IsActive() && !s.breakers[i].kind.Manual? {
      var i :| 0 <= i < |s.breakers| && s.breakers[i].IsActive() && !s.breakers[i].kind.Manual?;
      assert after[i].IsActive();
    }
  }

  // ------------------------------------------------------------------ automatic recovery

  predicate KindIsDue(bs: seq<Breaker>, kind: Kind, now: int) {
    exists i :: 0 <= i < |bs| && bs[i].IsDue(now) && bs[i].kind == kind
  }

  /** Recovery settles every active breaker of a kind with one due, no other, and unpauses only when none is left. */
  lemma {:induction false} RecoveryExactly(ops: seq<Operation>, now: int)
    requires AllFresh(ops)
    ensures var s := After(ops, |ops|);
            var t := Recovered(s, now);
            && |t.breakers| == |s.breakers|
            && (forall i :: 0 <= i < |s.breakers| ==>
                  t.breakers[i] == if s.breakers[i].IsActive() && KindIsDue(s.breakers, s.breakers[i].kind, now)
                                   then s.breakers[i].(resolvedBy := Some(Auto)) else s.breakers[i])
            && (t.paused <==> s.paused && AnyActive(t.breakers))
            && (forall i :: 0 <= i < |t.breakers| ==> !t.breakers[i].IsDue(now))
  {
    var s := After(ops, |ops|);
    var kinds := DueKinds(s.breakers, now, |s.breakers|);
    PausedExactly(ops, |ops|);
    hide After, ResumedSince;
    forall i | 0 <= i < |s.breakers|
      ensures s.breakers[i].kind in kinds <==> KindIsDue(s.breakers, s.breakers[i].kind, now)
      ensures s.breakers[i].IsDue(now) ==> s.breakers[i].kind in kinds
    {
    }
    if kinds == [] {
      assert forall i :: 0 <= i < |s.breakers| ==> s.breakers[i].kind !in kinds;
    }
  }

  /**
   What a triggered breaker is due for.  It recovers by itself only with automatic recovery, a
   positive number of seconds after its trigger: those given, or else 1800 for a price deviation.
   */
  lemma {:induction false} NewBreakerIsDue(kind: Kind, scope: Scope, autoRecovery: bool, cooldown: Option<int>, at: int, now: int)
    ensures var b := NewBreaker(kind, scope, autoRecovery, cooldown, at);
            && b.IsActive() && b.kind == kind && b.scope == scope
            && (b.IsDue(now) <==>
                  autoRecovery &&
                  match cooldown
                  case Some(seconds) => seconds > 0 && now - at >= seconds
                  case None => kind == PriceDeviation && now - at >= 1800)
  {
  }

  /** Resolving a kind settles every active breaker of that kind, no other, and unpauses only when none is left. */
  lemma {:induction false} ResolveExactly(ops: seq<Operation>, kind: Kind, who: By)
    requires AllFresh(ops)
    ensures var s := After(ops, |ops|);
            var t := Step(s, Resolve(kind, who));
            && |t.breakers| == |s.breakers|
            && (forall i :: 0 <= i < |s.breakers| ==>
                  t.breakers[i] == if s.breakers[i].resolvedBy == None && s.breakers[i].kind == kind
                                   then s.breakers[i].(resolvedBy := Some(who)) else s.breakers[i])
            && (t.paused <==> s.paused && exists i :: 0 <= i < |t.breakers| && t.breakers[i].resolvedBy == None)
            && (t.paused ==> t.scope == s.scope)
  {
    PausedExactly(ops, |ops|);
    ResolveStep(After(ops, |ops|), ResumedSince(ops, |ops|), kind, who);
    hide After, Step, ResumedSince, PauseState;
    var t := Step(After(ops, |ops|), Resolve(kind, who));
    assert AnyActive(t.breakers) <==> exists i :: 0 <= i < |t.breakers| && t.breakers[i].resolvedBy == None;
  }

  lemma {:induction false} ResolveStep(s: State, resumed: bool, kind: Kind, who: By)
    requires PauseState(s, resumed)
    ensures var t := Step(s, Resolve(kind, who));
            && |t.breakers| == |s.breakers|
            && (forall i :: 0 <= i < |s.breakers| ==> t.breakers[i] == Settle(s.breakers[i], [kind], who))
            && (t.paused <==> s.paused && AnyActive(t.breakers))
            && (t.paused ==> t.scope == s.scope)
  {
    hide AnyActive;
    if !AnyActiveOf(s.breakers, kind) {
      assert forall i :: 0 <= i < |s.breakers| && s.breakers[i].IsActive() ==> s.breakers[i].kind != kind;
    }
  }

  /** An authorized resume unpauses, settles the active manual breakers by hand and leaves every other breaker as it was. */
  lemma {:induction false} ResumeExactly(s: State)
    ensures var t := Step(s, DoResume(true));
            && !t.paused && |t.breakers| == |s.breakers|
            && forall i :: 0 <= i < |s.breakers| ==>
                 t.breakers[i] == if s.breakers[i].resolvedBy == None && s.breakers[i].kind == Manual
                                  then s.breakers[i].(resolvedBy := Some(ByHand)) else s.breakers[i]
    ensures Step(s, DoResume(false)) == s && forall scope :: Step(s, DoPause(false, scope)) == s
  {
  }

  // ------------------------------------------------------------------ what a pause blocks

  datatype Work = OpenEntry | CloseExit | OnAsgard | OnHyperliquid | Unknown

  function ScopeOf(w: Work): Scope {
    match w
    case OpenEntry => Entry
    case CloseExit => Exit
    case OnAsgard => Asgard
    case OnHyperliquid => Hyperliquid
    case Unknown => All
  }

  predicate Blocks(scope: Scope, w: Work) { scope == All || scope == ScopeOf(w) }

  predicate PausedFor(s: State, scope: Option<Scope>) {
    s.paused && (scope.None? || s.scope == All || scope.value == s.scope)
  }

  predicate MayRun(s: State, w: Work) { !(s.paused && Blocks(s.scope, w)) }

  /** No work may run that some active breaker was meant to block. */
  predicate Honoured(s: State) {
    forall i, w :: 0 <= i < |s.breakers| && s.breakers[i].IsActive() && Blocks(s.breakers[i].scope, w) ==> !MayRun(s, w)
  }

  /** Work that a scope blocks, and that no other scope but `All` does. */
  function Blocked(scope: Scope): (w: Work)
    ensures Blocks(scope, w)
    ensures forall other: Scope :: other != All && other != scope ==> !Blocks(other, w)
  {
    match scope
    case All => Unknown
    case Entry => OpenEntry
    case Exit => CloseExit
    case Asgard => OnAsgard
    case Hyperliquid => OnHyperliquid
  }

  /** A new breaker leaves all active ones honoured exactly when its scope is `All` or that of each of them. */
  lemma {:induction false} NewestScopeOverrides(s: State, b: Breaker)
    requires b.IsActive()
    ensures Honoured(Added(s, b))
        <==> b.scope == All || forall i :: 0 <= i < |s.breakers| && s.breakers[i].IsActive() ==> s.breakers[i].scope == b.scope
  {
    var t := Added(s, b);
    if b.scope != All {
      if i :| 0 <= i < |s.breakers| && s.breakers[i].IsActive() && s.breakers[i].scope != b.scope {
        var w := Blocked(s.breakers[i].scope);
        assert t.breakers[i] == s.breakers[i];
        assert Blocks(t.breakers[i].scope, w) && MayRun(t, w);
      }
    }
  }

  /** On any run all active breakers are honoured exactly when nobody resumed and the newest scope covers each of them. */
  lemma {:induction false} HonouredExactly(ops: seq<Operation>)
    requires AllFresh(ops)
    ensures var s := After(ops, |ops|);
            Honoured(s) <==>
              !AnyActive(s.breakers) ||
              (!ResumedSince(ops, |ops|) &&
               var newest := s.breakers[|s.breakers| - 1].scope;
               newest == All || forall i :: 0 <= i < |s.breakers| && s.breakers[i].IsActive() ==> s.breakers[i].scope == newest)
  {
    var s := After(ops, |ops|);
    hide After, ResumedSince;
    PausedExactly(ops, |ops|);
    if AnyActive(s.breakers) {
      var i :| 0 <= i < |s.breakers| && s.breakers[i].IsActive();
      if !s.paused {
        var w := Blocked(s.breakers[i].scope);
        assert Blocks(s.breakers[i].scope, w) && MayRun(s, w);
      } else if s.scope != All {
        if j :| 0 <= j < |s.breakers| && s.breakers[j].IsActive() && s.breakers[j].scope != s.scope {
          var w := Blocked(s.breakers[j].scope);
          assert Blocks(s.breakers[j].scope, w) && MayRun(s, w);
        }
      }
    } else {
      assert forall i :: 0 <= i < |s.breakers| ==> !s.breakers[i].IsActive();
    }
  }

  /** Right after a pause or a trigger: all of the service is held by `All`, one side or one venue by its own scope, unknown work by `All` only. */
  lemma {:induction false} BlockedAfterPause(s: State, op: Operation)
    requires Adds(op)
    ensures var t, scope := Step(s, op), if op.DoPause? then op.scope else op.breaker.scope;
            && (MayRun(t, OpenEntry) <==> scope in {Exit, Asgard, Hyperliquid})
            && (MayRun(t, CloseExit) <==> scope in {Entry, Asgard, Hyperliquid})
            && (MayRun(t, OnAsgard) <==> scope in {Entry, Exit, Hyperliquid})
            && (MayRun(t, OnHyperliquid) <==> scope in {Entry, Exit, Asgard})
            && (MayRun(t, Unknown) <==> scope != All)
  {
  }

  /** The two gates give one answer. */
  lemma {:induction false} GatesAgree(s: State, w: Work)
    ensures MayRun(s, w) <==> !PausedFor(s, Some(ScopeOf(w)))
  {
  }

  // ------------------------------------------------------------------ the controller

  class PauseController {
    const adminApiKey: string
    var paused: bool
    var pauseScope: Scope
    var circuitBreakers: seq<Breaker>

    constructor (adminApiKey: string)
      ensures View() == INITIAL && this.adminApiKey == adminApiKey
    {
      this.adminApiKey := adminApiKey;
      paused, pauseScope, circuitBreakers := false, All, [];
    }

    function View(): State
      reads this
    {
      State(paused, pauseScope, circuitBreakers)
    }

    /** False stands for the error raised on a wrong key. */
    method Pause(apiKey: string, scope: Scope) returns (ok: bool)
      modifies this
      ensures ok == (apiKey == adminApiKey)
      ensures View() == Step(old(View()), DoPause(ok, scope))
    {
      if apiKey != adminApiKey { return false; }
      paused := true;
      pauseScope := scope;
      circuitBreakers := circuitBreakers + [Breaker(Manual, scope, false, None, None)];
      return true;
    }

    method Resume(apiKey: string) returns (ok: bool)
      modifies this
      ensures ok == (apiKey == adminApiKey)
      ensures View() == Step(old(View()), DoResume(ok))
    {
      if apiKey != adminApiKey { return false; }
      paused := false;
      pauseScope := All;
      var resolvedAny := ResolveEach(Manual, ByHand);
      return true;
    }

    method CheckPaused(scope: Option<Scope>) returns (blocked: bool)
      ensures blocked == PausedFor(View(), scope)
    {
      if !paused { return false; }
      if scope.None? { return paused; }
      if pauseScope == All { return true; }
      return scope.value == pauseScope;
    }

    method CanExecute(w: Work) returns (allowed: bool)
      ensures allowed == MayRun(View(), w)
    {
      if !paused { return true; }
      var blockedScopes :=
        match w
        case OpenEntry => [All, Entry]
        case CloseExit => [All, Exit]
        case OnAsgard => [All, Asgard]
        case OnHyperliquid => [All, Hyperliquid]
        case Unknown => [All];
      return pauseScope !in blockedScopes;
    }

    method TriggerCircuitBreaker(kind: Kind, scope: Scope, autoRecovery: bool, cooldown: Option<int>, now: int)
      modifies this
      ensures View() == Step(old(View()), Trigger(NewBreaker(kind, scope, autoRecovery, cooldown, now)))
    {
      var seconds := if cooldown.None? then DefaultCooldown(kind) else cooldown.value;
      var recoveryTime := None;
      if autoRecovery && seconds > 0 {
        recoveryTime := Some(now + seconds);
      }
      circuitBreakers := circuitBreakers + [Breaker(kind, scope, autoRecovery, recoveryTime, None)];
      paused := true;
      pauseScope := scope;
    }

    /** The loop shared by `resume` and `resolve_circuit_breaker`. */
    method ResolveEach(kind: Kind, who: By) returns (resolvedAny: bool)
      modifies this`circuitBreakers
      ensures circuitBreakers == SettleAll(old(circuitBreakers), [kind], who)
      ensures resolvedAny == AnyActiveOf(old(circuitBreakers), kind)
    {
      resolvedAny := false;
      var i := 0;
      while i < |circuitBreakers|
        invariant 0 <= i <= |circuitBreakers| == |old(circuitBreakers)|
        invariant forall j :: 0 <= j < i ==> circuitBreakers[j] == Settle(old(circuitBreakers)[j], [kind], who)
        invariant forall j :: i <= j < |circuitBreakers| ==> circuitBreakers[j] == old(circuitBreakers)[j]
        invariant resolvedAny == exists j :: 0 <= j < i && old(circuitBreakers)[j].IsActive() && old(circuitBreakers)[j].kind == kind
      {
        var breaker := circuitBreakers[i];
        if breaker.kind == kind && breaker.IsActive() {
          circuitBreakers := circuitBreakers[i := breaker.(resolvedBy := Some(who))];
          resolvedAny := true;
        }
        i := i + 1;
      }
    }

    method HasActiveBreakers() returns (any: bool)
      ensures any == AnyActive(circuitBreakers)
    {
      any := false;
      var i := 0;
      while i < |circuitBreakers|
        invariant 0 <= i <= |circuitBreakers|
        invariant any == AnyActive(circuitBreakers[..i])
      {
        assert circuitBreakers[..i + 1][..i] == circuitBreakers[..i];
        any := any || circuitBreakers[i].IsActive();
        i := i + 1;
      }
      assert circuitBreakers[..i] == circuitBreakers;
    }

    method ResolveCircuitBreaker(kind: Kind, who: By) returns (resolvedAny: bool)
      modifies this
      ensures View() == Step(old(View()), Resolve(kind, who))
      ensures resolvedAny == AnyActiveOf(old(circuitBreakers), kind)
    {
      resolvedAny := ResolveEach(kind, who);
      if !resolvedAny {
        assert circuitBreakers == old(circuitBreakers);
      } else {
        var active := HasActiveBreakers();
        if !active {
          paused := false;
          pauseScope := All;
        }
      }
    }

    method CheckAndRecover(now: int) returns (recovered: seq<Kind>)
      modifies this
      ensures View() == Step(old(View()), Operation.CheckAndRecover(now))
      ensures recovered == DueKinds(old(circuitBreakers), now, |old(circuitBreakers)|)
    {
      recovered := [];
      ghost var start := View();
      hide SettleAll, Lifted, Resolved, Partly, AnyActive, AnyActiveOf;
      PartlyNone(start);
      var i := 0;
      while i < |circuitBreakers|
        invariant 0 <= i <= |circuitBreakers| == |start.breakers|
        invariant recovered == DueKinds(start.breakers, now, i)
        invariant View() == Partly(start, recovered)
      {
        var breaker := circuitBreakers[i];
        RecoverLook(start, recovered, View(), i, now);
        if breaker.IsActive() && breaker.autoRecovery && breaker.recoveryTime.Some? && now >= breaker.recoveryTime.value {
          RecoverOne(start, recovered, breaker.kind, View());
          var resolvedAny := ResolveCircuitBreaker(breaker.kind, Auto);
          recovered := recovered + [breaker.kind];
        }
        i := i + 1;
      }
    }
  }

  lemma PartlyNone(s: State)
    ensures Partly(s, []) == s
  {
  }

  /** What the loop of `check_and_recover` meets at position `i`, its earlier resolutions done. */
  lemma RecoverLook(start: State, kinds: seq<Kind>, s: State, i: nat, now: int)
    requires s == Partly(start, kinds) && i < |start.breakers|
    ensures |s.breakers| == |start.breakers| && s.breakers[i].kind == start.breakers[i].kind
    ensures s.breakers[i].IsDue(now) <==> start.breakers[i].IsDue(now) && start.breakers[i].kind !in kinds
    ensures s.breakers[i].IsActive() ==> AnyActiveOf(s.breakers, s.breakers[i].kind)
  {
  }

  lemma SettleNone(bs: seq<Breaker>)
    ensures SettleAll(bs, [], Auto) == bs
  {
  }

  /** Settling one more kind after others is settling them all at once. */
  lemma {:induction false} RecoverOne(start: State, kinds: seq<Kind>, kind: Kind, s: State)
    requires s == Partly(start, kinds)
    requires AnyActiveOf(s.breakers, kind)
    ensures Resolved(s, kind, Auto) == Partly(start, kinds + [kind])
  {
    SettleNone(start.breakers);
    assert s.breakers == SettleAll(start.breakers, kinds, Auto);
    assert SettleAll(s.breakers, [kind], Auto) == SettleAll(start.breakers, kinds + [kind], Auto);
    assert AnyActive(s.breakers);
  }
}
