/**
 Provisioning of one user's server wallets by any number of interleaved callers: an unlocked
 check, an advisory lock held for one database transaction, a second check under the lock, the
 external creations, and the commit.  A step is one action of one caller between two awaits;
 an action that is not enabled changes nothing.
 */
module WalletProvisioning {
  import opened Common

  type Caller = nat

  /** A wallet recorded before the run began, or the serial-th one created for its chain during it. */
  datatype Wallet = Earlier | New(serial: nat)

  /** One chain: the committed column, and what happened at the wallet provider. */
  datatype Side = Side(stored: Option<Wallet>, created: nat, orphans: nat)

  datatype Pc =
    | Idle
    | Waiting
    | Locked
    | Working(evm: Option<Wallet>, sol: Option<Wallet>, pending: Option<Wallet>)
    | Done(evmWallet: Wallet, solWallet: Wallet)
    | Failed

  datatype Action = FastCheck | Lock | Recheck | Create | Attach | Commit | Abort

  datatype State = State(
    userExists: bool, evm: Side, sol: Side, holder: Option<Caller>, callers: map<Caller, Pc>, aborts: nat)
  {
    function Of(c: Caller): Pc { if c in callers then callers[c] else Idle }

    predicate Complete() { evm.stored.Some? && sol.stored.Some? }
  }

  predicate InSection(p: Pc) { p.Locked? || p.Working? }

  // Wallets a caller has created at the provider and not yet committed.
  function InFlight(s: State, p: Pc, evmSide: bool): nat {
    if !p.Working? then 0
    else if evmSide then
      (if p.evm != s.evm.stored then 1 else 0) + (if p.pending.Some? && p.evm.None? then 1 else 0)
    else
      (if p.sol != s.sol.stored then 1 else 0) + (if p.pending.Some? && p.evm.Some? then 1 else 0)
  }

  function Fail(s: State, c: Caller): State {
    var p := s.Of(c);
    s.(callers := s.callers[c := Failed],
       holder := if InSection(p) then None else s.holder,
       aborts := s.aborts + 1,
       evm := s.evm.(orphans := s.evm.orphans + InFlight(s, p, true)),
       sol := s.sol.(orphans := s.sol.orphans + InFlight(s, p, false)))
  }

  function Next(s: State, c: Caller, a: Action): State {
    var p := s.Of(c);
    match a
    case FastCheck =>
      if !p.Idle? then s
      else if s.Complete() then s.(callers := s.callers[c := Done(s.evm.stored.value, s.sol.stored.value)])
      else s.(callers := s.callers[c := Waiting])
    case Lock =>
      if p.Waiting? && s.holder.None? then s.(callers := s.callers[c := Locked], holder := Some(c)) else s
    case Recheck =>
      if !p.Locked? then s
      else if !s.userExists then Fail(s, c)
      else if s.Complete() then
        s.(callers := s.callers[c := Done(s.evm.stored.value, s.sol.stored.value)], holder := None)
      else s.(callers := s.callers[c := Working(s.evm.stored, s.sol.stored, None)])
    case Create =>
      if !p.Working? || p.pending.Some? then s
      else if p.evm.None? then
        s.(callers := s.callers[c := p.(pending := Some(New(s.evm.created)))], evm := s.evm.(created := s.evm.created + 1))
      else if p.sol.None? then
        s.(callers := s.callers[c := p.(pending := Some(New(s.sol.created)))], sol := s.sol.(created := s.sol.created + 1))
      else s
    case Attach =>
      if !p.Working? || p.pending.None? then s
      else if p.evm.None? then s.(callers := s.callers[c := p.(evm := p.pending, pending := None)])
      else s.(callers := s.callers[c := p.(sol := p.pending, pending := None)])
    case Commit =>
      if p.Working? && p.evm.Some? && p.sol.Some? && p.pending.None? then
        s.(callers := s.callers[c := Done(p.evm.value, p.sol.value)], holder := None,
           evm := s.evm.(stored := p.evm), sol := s.sol.(stored := p.sol))
      else s
    case Abort =>
      if InSection(p) || p.Waiting? then Fail(s, c) else s
  }

  function Run(s: State, schedule: seq<(Caller, Action)>): State
    decreases |schedule|
  {
    if schedule == [] then s else Run(Next(s, schedule[0].0, schedule[0].1), schedule[1..])
  }

  /** Before any call: nobody holds the lock, and the columns hold whatever earlier runs left. */
  predicate Initial(s: State) {
    && s.holder.None? && s.callers == map[] && s.aborts == 0
    && s.evm.created == s.evm.orphans == 0 && s.sol.created == s.sol.orphans == 0
    && s.evm.stored in {None, Some(Earlier)} && s.sol.stored in {None, Some(Earlier)}
    && (!s.userExists ==> s.evm.stored.None? && s.sol.stored.None?)
  }

  // ------------------------------------------------------------------ what every step keeps

  predicate StoredNew(side: Side) { side.stored.Some? && side.stored.value.New? }

  /** Every wallet created for a chain is committed, abandoned by an abort, or held by the lock's owner. */
  predicate Conserved(s: State, evmSide: bool) {
    var side := if evmSide then s.evm else s.sol;
    var held := if s.holder.Some? then InFlight(s, s.Of(s.holder.value), evmSide) else 0;
    && side.created == side.orphans + held + (if StoredNew(side) then 1 else 0)
    && side.orphans <= s.aborts
    && held <= 1
    && (side.stored.Some? ==> held == 0)
  }

  ghost predicate Invariant(s: State, s0: State) {
    && (forall c: Caller :: InSection(s.Of(c)) <==> s.holder == Some(c))
    && (forall c: Caller :: s.Of(c).Working? ==> WorkingOk(s, s.Of(c)))
    && (forall c: Caller :: s.Of(c).Done? ==> s.evm.stored == Some(s.Of(c).evmWallet) && s.sol.stored == Some(s.Of(c).solWallet))
    && Conserved(s, true) && Conserved(s, false)
    && (s.Complete() || (s.evm.stored == s0.evm.stored && s.sol.stored == s0.sol.stored))
    && (s0.evm.stored.Some? ==> s.evm.stored == s0.evm.stored)
    && (s0.sol.stored.Some? ==> s.sol.stored == s0.sol.stored)
    && (s0.evm.stored.None? && s.evm.stored.Some? ==> StoredNew(s.evm))
    && (s0.sol.stored.None? && s.sol.stored.Some? ==> StoredNew(s.sol))
    && s.userExists == s0.userExists
  }

  predicate WorkingOk(s: State, p: Pc)
    requires p.Working?
  {
    && s.userExists && !s.Complete()
    && (s.evm.stored.Some? ==> p.evm == s.evm.stored)
    && (s.sol.stored.Some? ==> p.sol == s.sol.stored)
    && (p.evm.None? ==> p.sol == s.sol.stored)
    && (p.evm.Some? && p.sol.Some? ==> p.pending.None?)
    && (p.evm.Some? && s.evm.stored.None? ==> p.evm.value.New?)
    && (p.sol.Some? && s.sol.stored.None? ==> p.sol.value.New?)
    && (p.pending.Some? ==> p.pending.value.New?)
  }

  lemma OthersUnchanged(s: State, c: Caller, a: Action)
    ensures forall d: Caller :: d != c ==> Next(s, c, a).Of(d) == s.Of(d)
  {
  }

  lemma {:induction false} KeptByChecks(s: State, s0: State, c: Caller, a: Action)
    requires Invariant(s, s0) && a in {FastCheck, Lock}
    ensures Invariant(Next(s, c, a), s0)
  {
    OthersUnchanged(s, c, a);
  }

  lemma {:induction false} KeptByRecheck(s: State, s0: State, c: Caller)
    requires Invariant(s, s0)
    ensures Invariant(Next(s, c, Recheck), s0)
  {
    OthersUnchanged(s, c, Recheck);
  }

  lemma {:induction false} KeptByCreate(s: State, s0: State, c: Caller)
    requires Invariant(s, s0)
    ensures Invariant(Next(s, c, Create), s0)
  {
    OthersUnchanged(s, c, Create);
  }

  lemma {:induction false} KeptByAttach(s: State, s0: State, c: Caller)
    requires Invariant(s, s0)
    ensures Invariant(Next(s, c, Attach), s0)
  {
    OthersUnchanged(s, c, Attach);
  }

  lemma {:induction false} KeptByCommit(s: State, s0: State, c: Caller)
    requires Invariant(s, s0)
    ensures Invariant(Next(s, c, Commit), s0)
  {
    OthersUnchanged(s, c, Commit);
  }

  lemma {:induction false} KeptByAbort(s: State, s0: State, c: Caller)
    requires Invariant(s, s0)
    ensures Invariant(Next(s, c, Abort), s0)
  {
    OthersUnchanged(s, c, Abort);
  }

  lemma {:induction false} InvariantKept(s: State, s0: State, c: Caller, a: Action)
    requires Invariant(s, s0)
    ensures Invariant(Next(s, c, a), s0)
  {
    hide Next, Invariant;
    match a
    case FastCheck => KeptByChecks(s, s0, c, a);
    case Lock => KeptByChecks(s, s0, c, a);
    case Recheck => KeptByRecheck(s, s0, c);
    case Create => KeptByCreate(s, s0, c);
    case Attach => KeptByAttach(s, s0, c);
    case Commit => KeptByCommit(s, s0, c);
    case Abort => KeptByAbort(s, s0, c);
  }

  lemma {:induction false} InvariantOnRun(s: State, s0: State, schedule: seq<(Caller, Action)>)
    requires Invariant(s, s0)
    ensures Invariant(Run(s, schedule), s0)
    decreases |schedule|
  {
    if schedule != [] {
      InvariantKept(s, s0, schedule[0].0, schedule[0].1);
      InvariantOnRun(Next(s, schedule[0].0, schedule[0].1), s0, schedule[1..]);
    }
  }

  lemma {:induction false} Reachable(s0: State, schedule: seq<(Caller, Action)>) returns (s: State)
    requires Initial(s0)
    ensures s == Run(s0, schedule) && Invariant(s, s0)
  {
    s := Run(s0, schedule);
    InvariantOnRun(s0, s0, schedule);
  }

  // ------------------------------------------------------------------ main results

  /** Under every interleaving, each chain sees at most one creation more than there were aborts. */
  lemma {:induction false} CreationBound(s0: State, schedule: seq<(Caller, Action)>)
    requires Initial(s0)
    ensures var s := Run(s0, schedule);
            && s.evm.created <= s.aborts + (if s0.evm.stored.Some? then 0 else 1)
            && s.sol.created <= s.aborts + (if s0.sol.stored.Some? then 0 else 1)
  {
    var s := Reachable(s0, schedule);
  }

  /** Completing callers all return the committed pair; without aborts nothing else was created. */
  lemma {:induction false} OnePair(s0: State, schedule: seq<(Caller, Action)>, c: Caller)
    requires Initial(s0)
    requires Run(s0, schedule).Of(c).Done?
    ensures var s := Run(s0, schedule);
            && (forall d: Caller :: s.Of(d).Done? ==> s.Of(d) == s.Of(c))
            && s.evm.stored == Some(s.Of(c).evmWallet) && s.sol.stored == Some(s.Of(c).solWallet)
            && (s.aborts == 0 ==>
                  && s.evm.created == (if s0.evm.stored.Some? then 0 else 1)
                  && s.sol.created == (if s0.sol.stored.Some? then 0 else 1))
  {
    var s := Reachable(s0, schedule);
  }

  /** At most one caller is between the lock and the end of its transaction. */
  lemma {:induction false} MutualExclusion(s0: State, schedule: seq<(Caller, Action)>, c: Caller, d: Caller)
    requires Initial(s0)
    requires InSection(Run(s0, schedule).Of(c)) && InSection(Run(s0, schedule).Of(d))
    ensures c == d
  {
    var s := Reachable(s0, schedule);
  }

  /** The columns are only ever what they were or complete: no run stores one new wallet alone. */
  lemma {:induction false} NeverHalfStored(s0: State, schedule: seq<(Caller, Action)>)
    requires Initial(s0)
    ensures var s := Run(s0, schedule);
            s.Complete() || (s.evm.stored == s0.evm.stored && s.sol.stored == s0.sol.stored)
  {
    var s := Reachable(s0, schedule);
  }

  /** A column that held a wallet before the run still holds that one after it. */
  lemma {:induction false} StoredIsKept(s0: State, schedule: seq<(Caller, Action)>)
    requires Initial(s0)
    ensures var s := Run(s0, schedule);
            && (s0.evm.stored.Some? ==> s.evm.stored == s0.evm.stored && s.evm.created == 0)
            && (s0.sol.stored.Some? ==> s.sol.stored == s0.sol.stored && s.sol.created == 0)
  {
    var s := Reachable(s0, schedule);
    NoneToCreate(s0, s0, schedule);
  }

  /** For a user that does not exist nothing is ever created or stored, and nobody completes. */
  lemma {:induction false} UnknownUserGetsNothing(s0: State, schedule: seq<(Caller, Action)>, c: Caller)
    requires Initial(s0) && !s0.userExists
    ensures var s := Run(s0, schedule);
            && s.evm.created == s.sol.created == 0 && s.evm.stored.None? && s.sol.stored.None? && !s.Of(c).Done? && !s.Of(c).Working?
  {
    var s := Reachable(s0, schedule);
    NobodyWorks(s0, s0, schedule);
  }

  /** Once the pair is committed a new caller gets it from the unlocked check alone, also while another holds the lock. */
  lemma {:induction false} FastPathNeedsNoLock(s0: State, schedule: seq<(Caller, Action)>, c: Caller)
    requires Initial(s0)
    requires Run(s0, schedule).Complete() && Run(s0, schedule).Of(c).Idle?
    ensures var s := Run(s0, schedule);
            var t := Next(s, c, FastCheck);
            && t.Of(c) == Done(s.evm.stored.value, s.sol.stored.value)
            && t.holder == s.holder && t.evm == s.evm && t.sol == s.sol && t.aborts == s.aborts
            && forall d: Caller :: d != c ==> t.Of(d) == s.Of(d)
  {
    OthersUnchanged(Run(s0, schedule), c, FastCheck);
  }

  /** The EVM wallet comes first: no Solana wallet is created before the user has an EVM wallet, stored or created. */
  lemma {:induction false} EvmComesFirst(s: State, s0: State, schedule: seq<(Caller, Action)>)
    requires Invariant(s, s0) && (s.sol.created > 0 ==> s.evm.created > 0 || s0.evm.stored.Some?)
    ensures var t := Run(s, schedule);
            t.sol.created > 0 ==> t.evm.created > 0 || s0.evm.stored.Some?
    decreases |schedule|
  {
    if schedule != [] {
      var c, a := schedule[0].0, schedule[0].1;
      InvariantKept(s, s0, c, a);
      EvmFirstStep(s, s0, c, a);
      hide Invariant, Next;
      EvmComesFirst(Next(s, c, a), s0, schedule[1..]);
    }
  }

  lemma {:induction false} EvmFirstStep(s: State, s0: State, c: Caller, a: Action)
    requires Invariant(s, s0) && (s.sol.created > 0 ==> s.evm.created > 0 || s0.evm.stored.Some?)
    ensures var t := Next(s, c, a);
            t.sol.created > 0 ==> t.evm.created > 0 || s0.evm.stored.Some?
  {
  }

  lemma {:induction false} NoneToCreate(s: State, s0: State, schedule: seq<(Caller, Action)>)
    requires Invariant(s, s0)
    requires s0.evm.stored.Some? ==> s.evm.created == 0
    requires s0.sol.stored.Some? ==> s.sol.created == 0
    ensures s0.evm.stored.Some? ==> Run(s, schedule).evm.created == 0
    ensures s0.sol.stored.Some? ==> Run(s, schedule).sol.created == 0
    decreases |schedule|
  {
    if schedule != [] {
      var c, a := schedule[0].0, schedule[0].1;
      InvariantKept(s, s0, c, a);
      assert s0.evm.stored.Some? ==> Next(s, c, a).evm.created == 0;
      assert s0.sol.stored.Some? ==> Next(s, c, a).sol.created == 0;
      hide Invariant, Next;
      NoneToCreate(Next(s, c, a), s0, schedule[1..]);
    }
  }

  lemma {:induction false} NobodyWorks(s: State, s0: State, schedule: seq<(Caller, Action)>)
    requires Invariant(s, s0) && !s0.userExists && s.evm.created == s.sol.created == 0 && !s.Complete()
    requires s.evm.stored.None? && s.sol.stored.None?
    ensures var t := Run(s, schedule); t.evm.created == t.sol.created == 0 && t.evm.stored.None? && t.sol.stored.None?
    decreases |schedule|
  {
    if schedule != [] {
      var c, a := schedule[0].0, schedule[0].1;
      InvariantKept(s, s0, c, a);
      assert !s.Of(c).Working?;
      hide Invariant;
      NobodyWorks(Next(s, c, a), s0, schedule[1..]);
    }
  }

  /** An abort rolls the columns back, so what its caller had created is lost to later callers. */
  lemma {:induction false} AbortOrphans(s0: State, schedule: seq<(Caller, Action)>, c: Caller)
    requires Initial(s0)
    requires InSection(Run(s0, schedule).Of(c))
    ensures var s := Run(s0, schedule);
            var t := Next(s, c, Abort);
            && t.evm.stored == s.evm.stored && t.sol.stored == s.sol.stored && t.holder.None?
            && t.evm.created - t.evm.orphans == (if StoredNew(s.evm) then 1 else 0)
            && t.sol.created - t.sol.orphans == (if StoredNew(s.sol) then 1 else 0)
  {
    var s := Reachable(s0, schedule);
    InvariantKept(s, s0, c, Abort);
  }

  // ------------------------------------------------------------------ particular runs

  function Alone(c: Caller, actions: seq<Action>): seq<(Caller, Action)> {
    if actions == [] then [] else [(c, actions[0])] + Alone(c, actions[1..])
  }

  lemma {:induction false} RunAlone(s: State, c: Caller, a: Action, rest: seq<Action>)
    ensures Run(s, Alone(c, [a] + rest)) == Run(Next(s, c, a), Alone(c, rest))
  {
    assert ([a] + rest)[1..] == rest;
    assert Alone(c, [a] + rest)[1..] == Alone(c, rest);
  }

  lemma {:induction false} RunAppend(s: State, first: seq<(Caller, Action)>, second: seq<(Caller, Action)>)
    ensures Run(s, first + second) == Run(Run(s, first), second)
    decreases |first|
  {
    if first == [] {
      assert first + second == second;
    } else {
      assert (first + second)[1..] == first[1..] + second;
      RunAppend(Next(s, first[0].0, first[0].1), first[1..], second);
    }
  }

  const SECOND_HALF := [Create, Attach, Create, Attach, Commit]

  /** Whatever happened before, a new caller that finds the lock free and is not aborted completes. */
  lemma {:induction false} LoneCallerCompletes(s0: State, schedule: seq<(Caller, Action)>, c: Caller)
    requires Initial(s0) && s0.userExists
    requires var s := Run(s0, schedule); s.holder.None? && s.Of(c).Idle?
    ensures var t := Run(Run(s0, schedule), Alone(c, [FastCheck] + ([Lock] + ([Recheck] + SECOND_HALF))));
            t.Of(c).Done? && t.aborts == Run(s0, schedule).aborts
  {
    var s := Reachable(s0, schedule);
    var s1 := Next(s, c, FastCheck);
    var s2 := Next(s1, c, Lock);
    var s3 := Next(s2, c, Recheck);
    hide Run, Alone;
    RunAlone(s, c, FastCheck, [Lock] + ([Recheck] + SECOND_HALF));
    RunAlone(s1, c, Lock, [Recheck] + SECOND_HALF);
    RunAlone(s2, c, Recheck, SECOND_HALF);
    WorkCompletes(s3, c);
  }

  lemma {:induction false} WorkCompletes(s: State, c: Caller)
    requires var p := s.Of(c); p.Done? || (p.Working? && p.pending.None?)
    ensures var t := Run(s, Alone(c, SECOND_HALF)); t.Of(c).Done? && t.aborts == s.aborts
  {
    var s1 := Next(s, c, Create);
    var s2 := Next(s1, c, Attach);
    var s3 := Next(s2, c, Create);
    var s4 := Next(s3, c, Attach);
    WorkSteps(s, c);
    hide Run, Alone, Next;
    assert SECOND_HALF == [Create] + ([Attach] + ([Create] + ([Attach] + ([Commit] + []))));
    RunAlone(s, c, Create, [Attach] + ([Create] + ([Attach] + ([Commit] + []))));
    RunAlone(s1, c, Attach, [Create] + ([Attach] + ([Commit] + [])));
    RunAlone(s2, c, Create, [Attach] + ([Commit] + []));
    RunAlone(s3, c, Attach, [Commit] + []);
    RunAlone(s4, c, Commit, []);
    RunNothing(Next(s4, c, Commit), c);
  }

  lemma WorkSteps(s: State, c: Caller)
    requires var p := s.Of(c); p.Done? || (p.Working? && p.pending.None?)
    ensures var t := Next(Next(Next(Next(Next(s, c, Create), c, Attach), c, Create), c, Attach), c, Commit);
            t.Of(c).Done? && t.aborts == s.aborts
  {
  }

  lemma RunNothing(s: State, c: Caller)
    ensures Run(s, Alone(c, [])) == s
  {
  }

  const ABORTED_CALL := [FastCheck, Lock, Recheck, Create, Attach, Create, Abort]

  /** The first n callers each create both wallets and are then aborted. */
  function AbortedCalls(n: nat): seq<(Caller, Action)> {
    if n == 0 then [] else AbortedCalls(n - 1) + Alone(n - 1, ABORTED_CALL)
  }

  const FRESH := State(true, Side(None, 0, 0), Side(None, 0, 0), None, map[], 0)

  /** Nothing stored, nobody inside, and `n` wallets of each chain lost in `n` aborts of earlier callers. */
  predicate Lost(s: State, n: nat) {
    && s.evm == Side(None, n, n) && s.sol == Side(None, n, n) && s.holder.None? && s.aborts == n && s.userExists
    && (forall c :: c in s.callers ==> c < n)
  }

  lemma {:induction false} AfterAbortedCalls(n: nat)
    ensures Lost(Run(FRESH, AbortedCalls(n)), n)
  {
    if n > 0 {
      var c: Caller := n - 1;
      AfterAbortedCalls(n - 1);
      hide Run, Alone, Lost;
      RunAppend(FRESH, AbortedCalls(n - 1), Alone(c, ABORTED_CALL));
      OneAbortedCall(Run(FRESH, AbortedCalls(n - 1)), c);
    }
  }

  lemma {:induction false} OneAbortedCall(s: State, c: Caller)
    requires Lost(s, c)
    ensures Lost(Run(s, Alone(c, ABORTED_CALL)), c + 1)
  {
    var s3 := s.(callers := s.callers[c := Working(None, None, None)], holder := Some(c));
    var s6 := s3.(callers := s.callers[c := Working(Some(New(c)), None, Some(New(c)))],
                  evm := Side(None, c + 1, c), sol := Side(None, c + 1, c));
    EntersAndCreates(s, c, s3, s6);
    AbortLoses(s, c, s6);
    hide Run, Alone, Next, Lost;
    var rest := [Create, Attach, Create, Abort];
    assert ABORTED_CALL == [FastCheck] + ([Lock] + ([Recheck] + rest));
    RunAlone(s, c, FastCheck, [Lock] + ([Recheck] + rest));
    RunAlone(Next(s, c, FastCheck), c, Lock, [Recheck] + rest);
    RunAlone(Next(Next(s, c, FastCheck), c, Lock), c, Recheck, rest);
    assert rest == [Create] + ([Attach] + ([Create] + ([Abort] + [])));
    RunAlone(s3, c, Create, [Attach] + ([Create] + ([Abort] + [])));
    RunAlone(Next(s3, c, Create), c, Attach, [Create] + ([Abort] + []));
    RunAlone(Next(Next(s3, c, Create), c, Attach), c, Create, [Abort] + []);
    RunAlone(s6, c, Abort, []);
    RunNothing(Next(s6, c, Abort), c);
  }

  lemma AbortLoses(s: State, c: Caller, s6: State)
    requires Lost(s, c)
    requires s6 == s.(callers := s.callers[c := Working(Some(New(c)), None, Some(New(c)))], holder := Some(c),
                      evm := Side(None, c + 1, c), sol := Side(None, c + 1, c))
    ensures Lost(Next(s6, c, Abort), c + 1)
  {
  }

  lemma {:induction false} EntersAndCreates(s: State, c: Caller, s3: State, s6: State)
    requires Lost(s, c)
    requires s3 == s.(callers := s.callers[c := Working(None, None, None)], holder := Some(c))
    requires s6 == s3.(callers := s.callers[c := Working(Some(New(c)), None, Some(New(c)))],
                       evm := Side(None, c + 1, c), sol := Side(None, c + 1, c))
    ensures Next(Next(Next(s, c, FastCheck), c, Lock), c, Recheck) == s3
    ensures Next(Next(Next(s3, c, Create), c, Attach), c, Create) == s6
  {
  }

  /** The bound is reached on both chains for every number of aborts: earlier creations are never picked up again. */
  lemma {:induction false} BoundIsReached(n: nat)
    ensures exists schedule ::
              var s := Run(FRESH, schedule);
              s.aborts == n && s.evm.created == n + 1 && s.sol.created == n + 1 && s.Complete()
  {
    var schedule := AbortedCalls(n);
    AfterAbortedCalls(n);
    LoneCallerCompletes(FRESH, schedule, n);
    var more := Alone(n, [FastCheck] + ([Lock] + ([Recheck] + SECOND_HALF)));
    RunAppend(FRESH, schedule, more);
    var s := Reachable(FRESH, schedule + more);
    OrphansOnlyByAbort(Run(FRESH, schedule), more);
  }

  /** Only an abort abandons a wallet. */
  lemma {:induction false} OrphansOnlyByAbort(s: State, schedule: seq<(Caller, Action)>)
    ensures Run(s, schedule).aborts >= s.aborts
    ensures Run(s, schedule).aborts == s.aborts ==>
              Run(s, schedule).evm.orphans == s.evm.orphans && Run(s, schedule).sol.orphans == s.sol.orphans
    decreases |schedule|
  {
    if schedule != [] {
      OrphansOnlyByAbort(Next(s, schedule[0].0, schedule[0].1), schedule[1..]);
    }
  }

  // ------------------------------------------------------------------ the service

  /** The user's row, the advisory lock and the callers' local variables, changed step by step. */
  class ServerWalletService {
    var userExists: bool
    var evm: Side
    var sol: Side
    var holder: Option<Caller>
    var callers: map<Caller, Pc>
    var aborts: nat

    constructor (userExists: bool, evmColumn: Option<Wallet>, solColumn: Option<Wallet>)
      ensures View() == State(userExists, Side(evmColumn, 0, 0), Side(solColumn, 0, 0), None, map[], 0)
    {
      this.userExists := userExists;
      evm, sol := Side(evmColumn, 0, 0), Side(solColumn, 0, 0);
      holder, callers, aborts := None, map[], 0;
    }

    function View(): State
      reads this
    {
      State(userExists, evm, sol, holder, callers, aborts)
    }

    method At(c: Caller) returns (p: Pc)
      ensures p == View().Of(c)
    {
      p := if c in callers then callers[c] else Idle;
    }

    method GetUserWallets(c: Caller)
      modifies this
      ensures View() == Next(old(View()), c, FastCheck)
    {
      var p := At(c);
      if p.Idle? {
        if evm.stored.Some? && sol.stored.Some? {
          callers := callers[c := Done(evm.stored.value, sol.stored.value)];
        } else {
          callers := callers[c := Waiting];
        }
      }
    }

    method AcquireLock(c: Caller)
      modifies this
      ensures View() == Next(old(View()), c, Lock)
    {
      var p := At(c);
      if p.Waiting? && holder.None? {
        holder := Some(c);
        callers := callers[c := Locked];
      }
    }

    method RecheckUnderLock(c: Caller)
      modifies this
      ensures View() == Next(old(View()), c, Recheck)
    {
      var p := At(c);
      if p.Locked? {
        if !userExists {
          RollBack(c);
        } else if evm.stored.Some? && sol.stored.Some? {
          callers := callers[c := Done(evm.stored.value, sol.stored.value)];
          holder := None;
        } else {
          callers := callers[c := Working(evm.stored, sol.stored, None)];
        }
      }
    }

    method CreateWallet(c: Caller)
      modifies this
      ensures View() == Next(old(View()), c, Create)
    {
      var p := At(c);
      if p.Working? && p.pending.None? {
        if p.evm.None? {
          callers := callers[c := p.(pending := Some(New(evm.created)))];
          evm := evm.(created := evm.created + 1);
        } else if p.sol.None? {
          callers := callers[c := p.(pending := Some(New(sol.created)))];
          sol := sol.(created := sol.created + 1);
        }
      }
    }

    method AttachPolicyAndUpdate(c: Caller)
      modifies this
      ensures View() == Next(old(View()), c, Attach)
    {
      var p := At(c);
      if p.Working? && p.pending.Some? {
        var wallets := if p.evm.None? then p.(evm := p.pending) else p.(sol := p.pending);
        callers := callers[c := wallets.(pending := None)];
      }
    }

    method CommitTransaction(c: Caller)
      modifies this
      ensures View() == Next(old(View()), c, Commit)
    {
      var p := At(c);
      if p.Working? && p.evm.Some? && p.sol.Some? && p.pending.None? {
        evm := evm.(stored := p.evm);
        sol := sol.(stored := p.sol);
        holder := None;
        callers := callers[c := Done(p.evm.value, p.sol.value)];
      }
    }

    method RollBack(c: Caller)
      requires InSection(View().Of(c)) || View().Of(c).Waiting?
      modifies this
      ensures View() == Fail(old(View()), c)
    {
      var p := At(c);
      evm := evm.(orphans := evm.orphans + InFlight(View(), p, true));
      sol := sol.(orphans := sol.orphans + InFlight(View(), p, false));
      if InSection(p) { holder := None; }
      callers := callers[c := Failed];
      aborts := aborts + 1;
    }
  }
}
