/** Chain health: failures in a 15 s window make a chain degraded, then out; subscribers hear of changes. */
module Outage {
  import opened Windows

  const MAX_CONSECUTIVE_FAILURES: nat := 3
  const FAILURE_WINDOW_SECONDS: real := 15.0

  datatype Chain = Solana | Arbitrum

  datatype Status = Healthy | Degraded | Outage

  /** What is kept for one chain; `failures` is the count shown to readers. */
  datatype Track = Track(status: Status, failures: nat, stamps: seq<real>)

  datatype Note = Note(chain: Chain, status: Status)

  /** A finished health check, with the clock as it is read when the result is recorded. */
  datatype Check = Check(chain: Chain, at: real, ok: bool)

  const START := Track(Healthy, 0, [])

  function StatusFor(failures: nat): Status {
    if failures >= MAX_CONSECUTIVE_FAILURES then Outage else if failures > 0 then Degraded else Healthy
  }

  function Step(t: Track, c: Check): Track {
    if c.ok then START
    else
      var stamps := Recent(t.stamps + [c.at], c.at - FAILURE_WINDOW_SECONDS);
      Track(StatusFor(|stamps|), |stamps|, stamps)
  }

  /** A success is announced only after an outage, a failure whenever it changes the status. */
  function Announced(t: Track, c: Check): (notes: seq<Note>)
    ensures |notes| <= 1 && (notes != [] ==> notes[0] == Note(c.chain, Step(t, c).status))
  {
    var after := Step(t, c);
    if (if c.ok then t.status == Outage else after.status != t.status) then [Note(c.chain, after.status)] else []
  }

  function After(cs: seq<Check>, chain: Chain, n: nat): Track
    requires n <= |cs|
  {
    if n == 0 then START
    else if cs[n - 1].chain == chain then Step(After(cs, chain, n - 1), cs[n - 1])
    else After(cs, chain, n - 1)
  }

  /** The notes sent during checks `m` to `n`, the inbox of a subscriber registered before check `m`. */
  function Sent(cs: seq<Check>, m: nat, n: nat): seq<Note>
    requires m <= n <= |cs|
  {
    if n == m then [] else Sent(cs, m, n - 1) + Announced(After(cs, cs[n - 1].chain, n - 1), cs[n - 1])
  }

  // ------------------------------------------------------------------ the status and the log

  /** All failures of a chain since its last success, however old. */
  function Streak(cs: seq<Check>, chain: Chain, n: nat): seq<real>
    requires n <= |cs|
  {
    if n == 0 then []
    else if cs[n - 1].chain != chain then Streak(cs, chain, n - 1)
    else if cs[n - 1].ok then []
    else Streak(cs, chain, n - 1) + [cs[n - 1].at]
  }

  predicate Clocked(cs: seq<Check>) {
    forall i, j :: 0 <= i < j < |cs| ==> cs[i].at <= cs[j].at
  }

  lemma {:induction false} StreakInOrder(cs: seq<Check>, chain: Chain, n: nat)
    requires n <= |cs| && Clocked(cs)
    ensures var streak := Streak(cs, chain, n);
            && (forall i, j :: 0 <= i < j < |streak| ==> streak[i] <= streak[j])
            && (streak != [] ==> n > 0 && streak[|streak| - 1] <= cs[n - 1].at)
  {
    if n > 0 {
      StreakInOrder(cs, chain, n - 1);
    }
  }

  /** What the log says the chain's record should be. */
  function FromStreak(streak: seq<real>): Track {
    if streak == [] then START
    else
      var stamps := Recent(streak, streak[|streak| - 1] - FAILURE_WINDOW_SECONDS);
      Track(StatusFor(|stamps|), |stamps|, stamps)
  }

  lemma {:induction false} FailureExtends(streak: seq<real>, c: Check)
    requires !c.ok && (streak != [] ==> streak[|streak| - 1] <= c.at)
    ensures Step(FromStreak(streak), c) == FromStreak(streak + [c.at])
  {
    var from := c.at - FAILURE_WINDOW_SECONDS;
    RecentAppend(streak, [c.at], from);
    RecentAppend(FromStreak(streak).stamps, [c.at], from);
    if streak != [] {
      RecentTwice(streak, streak[|streak| - 1] - FAILURE_WINDOW_SECONDS, from);
    }
  }

  /** On every run the record of a chain is the one recomputed from its full log. */
  lemma {:induction false} RecordMatchesLog(cs: seq<Check>, chain: Chain, n: nat)
    requires n <= |cs| && Clocked(cs)
    ensures After(cs, chain, n) == FromStreak(Streak(cs, chain, n))
  {
    if n > 0 {
      RecordMatchesLog(cs, chain, n - 1);
      StreakInOrder(cs, chain, n - 1);
      if cs[n - 1].chain == chain && !cs[n - 1].ok {
        FailureExtends(Streak(cs, chain, n - 1), cs[n - 1]);
      }
    }
  }

  /** A chain is out exactly when three failures since its last success lie within 15 s, the last one included. */
  lemma {:induction false} OutExactly(cs: seq<Check>, chain: Chain, n: nat)
    requires n <= |cs| && Clocked(cs)
    ensures var streak := Streak(cs, chain, n);
            After(cs, chain, n).status ==
              if |streak| >= 3 && streak[|streak| - 3] > streak[|streak| - 1] - 15.0 then Outage
              else if streak != [] then Degraded
              else Healthy
  {
    var streak := Streak(cs, chain, n);
    RecordMatchesLog(cs, chain, n);
    StreakInOrder(cs, chain, n);
    if streak != [] {
      var from := streak[|streak| - 1] - FAILURE_WINDOW_SECONDS;
      RecentIsSuffix(streak, from, 3);
      RecentIsSuffix(streak, from, 1);
    }
  }

  /** The failure count shown is `k` or more exactly when the k-th last failure of the streak is less than 15 s older than the last. */
  lemma {:induction false} FailuresExactly(cs: seq<Check>, chain: Chain, n: nat, k: nat)
    requires n <= |cs| && Clocked(cs) && k > 0
    ensures var streak := Streak(cs, chain, n);
            After(cs, chain, n).failures >= k <==> |streak| >= k && streak[|streak| - k] > streak[|streak| - 1] - 15.0
  {
    var streak := Streak(cs, chain, n);
    RecordMatchesLog(cs, chain, n);
    StreakInOrder(cs, chain, n);
    if streak != [] {
      RecentIsSuffix(streak, streak[|streak| - 1] - FAILURE_WINDOW_SECONDS, k);
    }
  }

  // ------------------------------------------------------------------ what subscribers know

  /** The last status heard for a chain; a subscriber that heard nothing takes it to be healthy. */
  function LastHeard(notes: seq<Note>, chain: Chain): Status {
    if notes == [] then Healthy
    else if notes[|notes| - 1].chain == chain then notes[|notes| - 1].status
    else LastHeard(notes[..|notes| - 1], chain)
  }

  lemma {:induction false} HeardOne(notes: seq<Note>, more: seq<Note>, chain: Chain)
    requires |more| <= 1
    ensures LastHeard(notes + more, chain) == if more != [] && more[0].chain == chain then more[0].status else LastHeard(notes, chain)
  {
    if more == [] {
      assert notes + more == notes;
    } else {
      assert (notes + more)[..|notes|] == notes;
    }
  }

  lemma NothingHeard(chain: Chain)
    ensures LastHeard([], chain) == Healthy
  {
  }

  lemma OutageAnnounced(t: Track, c: Check)
    ensures (t.status == Outage) != (Step(t, c).status == Outage) ==> Announced(t, c) != []
    ensures t.status == Outage && Step(t, c).status == Outage ==> Announced(t, c) == []
  {
  }

  /** Subscribers are told of a change of status and of nothing else, except of a recovery from `Degraded`. */
  lemma {:induction false} AnnouncedExactly(t: Track, c: Check)
    ensures Announced(t, c) == [] <==> Step(t, c).status == t.status || (t.status == Degraded && Step(t, c).status == Healthy)
    ensures Announced(t, c) == [] || Announced(t, c) == [Note(c.chain, Step(t, c).status)]
  {
    FailureIsNotHealthy(t, c);
  }

  /** The chain has been out ever since check `m`. */
  predicate OutThroughout(cs: seq<Check>, chain: Chain, m: nat, n: nat)
    requires m <= n <= |cs|
  {
    forall i :: m <= i <= n ==> After(cs, chain, i).status == Outage
  }

  lemma {:induction false} OutThroughoutStep(cs: seq<Check>, chain: Chain, m: nat, n: nat)
    requires m < n <= |cs|
    ensures OutThroughout(cs, chain, m, n) <==> OutThroughout(cs, chain, m, n - 1) && After(cs, chain, n).status == Outage
  {
    hide After;
  }

  /**
   Whenever a callback was registered, it has last heard `Outage` exactly while the chain is out,
   but for an outage that was going on at its registration and still is: of that it has heard nothing.
   */
  lemma {:induction false} OutageIsHeardExactly(cs: seq<Check>, chain: Chain, m: nat, n: nat)
    requires m <= n <= |cs|
    ensures LastHeard(Sent(cs, m, n), chain) == Outage <==> After(cs, chain, n).status == Outage && !OutThroughout(cs, chain, m, n)
  {
    hide Step, LastHeard, Announced, OutThroughout;
    if n == m {
      NothingHeard(chain);
      OutAtOnce(cs, chain, m);
    } else {
      OutageIsHeardExactly(cs, chain, m, n - 1);
      OutNow(cs, chain, m, n - 1);
      OutThroughoutStep(cs, chain, m, n);
      var t, c, notes := After(cs, cs[n - 1].chain, n - 1), cs[n - 1], Sent(cs, m, n - 1);
      HeardOne(notes, Announced(t, c), chain);
      OutageAnnounced(t, c);
    }
  }

  lemma OutNow(cs: seq<Check>, chain: Chain, m: nat, n: nat)
    requires m <= n <= |cs|
    ensures OutThroughout(cs, chain, m, n) ==> After(cs, chain, n).status == Outage
  {
  }

  lemma OutAtOnce(cs: seq<Check>, chain: Chain, m: nat)
    requires m <= |cs|
    ensures OutThroughout(cs, chain, m, m) <==> After(cs, chain, m).status == Outage
  {
  }

  /** The status left by the chain's last failed check. */
  function LastFailure(cs: seq<Check>, chain: Chain, n: nat): Status
    requires n <= |cs|
  {
    if n == 0 then Healthy
    else if cs[n - 1].chain == chain && !cs[n - 1].ok then After(cs, chain, n).status
    else LastFailure(cs, chain, n - 1)
  }

  /**
   A subscriber registered from the start is misled in one way only: it goes on believing `Degraded`
   after a recovery from it, and it does so exactly when the last failure before left `Degraded`.
   */
  lemma {:induction false} HeardExactly(cs: seq<Check>, chain: Chain, n: nat)
    requires n <= |cs|
    ensures Heard(LastHeard(Sent(cs, 0, n), chain), After(cs, chain, n).status, LastFailure(cs, chain, n))
  {
    hide Step, LastHeard, Announced, Heard;
    if n == 0 {
      NothingHeard(chain);
      assert Heard(Healthy, Healthy, Healthy) by { NothingWrong(); }
    } else {
      HeardExactly(cs, chain, n - 1);
      var t, c, notes := After(cs, cs[n - 1].chain, n - 1), cs[n - 1], Sent(cs, 0, n - 1);
      HeardOne(notes, Announced(t, c), chain);
      HeardStep(LastHeard(notes, chain), LastFailure(cs, chain, n - 1), t, c);
    }
  }

  predicate Heard(heard: Status, status: Status, lastFailure: Status) {
    && heard == (if status == Healthy && lastFailure == Degraded then Degraded else status)
    && (status != Healthy ==> lastFailure == status)
  }

  lemma NothingWrong()
    ensures Heard(Healthy, Healthy, Healthy)
  {
  }

  lemma {:induction false} HeardStep(heard: Status, lastFailure: Status, t: Track, c: Check)
    ensures Heard(heard, t.status, lastFailure) ==>
              Heard(if Announced(t, c) != [] then Step(t, c).status else heard,
                    Step(t, c).status,
                    if c.ok then lastFailure else Step(t, c).status)
  {
    FailureIsNotHealthy(t, c);
  }

  lemma {:induction false} FailureIsNotHealthy(t: Track, c: Check)
    ensures !c.ok ==> Step(t, c).status != Healthy
  {
    var from := c.at - FAILURE_WINDOW_SECONDS;
    RecentAppend(t.stamps, [c.at], from);
    assert Recent([c.at], from) == [c.at];
  }

  // ------------------------------------------------------------------ the detector

  function Delivered(inboxes: seq<seq<Note>>, notes: seq<Note>): (r: seq<seq<Note>>)
    ensures |r| == |inboxes| && forall i :: 0 <= i < |inboxes| ==> r[i] == inboxes[i] + notes
  {
    if notes == [] then inboxes else seq(|inboxes|, i requires 0 <= i < |inboxes| => inboxes[i] + notes)
  }

  datatype Health = Health(status: Status, failures: nat)

  class OutageDetector {
    var health: map<Chain, Health>
    var failureTimestamps: map<Chain, seq<real>>
    /** One inbox for each registered callback. */
    var inboxes: seq<seq<Note>>

    constructor ()
      ensures Valid() && forall c: Chain :: View(c) == START
      ensures inboxes == []
    {
      health := map[Solana := Health(Healthy, 0), Arbitrum := Health(Healthy, 0)];
      failureTimestamps := map[Solana := [], Arbitrum := []];
      inboxes := [];
      new;
      forall c: Chain ensures c in health && c in failureTimestamps {
        match c { case Solana => case Arbitrum => }
      }
      forall c: Chain ensures View(c) == START {
        match c { case Solana => case Arbitrum => }
      }
    }

    ghost predicate Valid()
      reads this
    {
      forall c: Chain :: c in health && c in failureTimestamps
    }

    ghost function View(c: Chain): Track
      requires Valid()
      reads this
    {
      Track(health[c].status, health[c].failures, failureTimestamps[c])
    }

    method RegisterCallback()
      requires Valid()
      modifies this`inboxes
      ensures inboxes == old(inboxes) + [[]]
    {
      inboxes := inboxes + [[]];
    }

    method NotifyCallbacks(chain: Chain, status: Status)
      modifies this`inboxes
      ensures inboxes == Delivered(old(inboxes), [Note(chain, status)])
    {
      var i := 0;
      while i < |inboxes|
        invariant 0 <= i <= |inboxes| == |old(inboxes)|
        invariant forall j :: 0 <= j < i ==> inboxes[j] == old(inboxes)[j] + [Note(chain, status)]
        invariant forall j :: i <= j < |inboxes| ==> inboxes[j] == old(inboxes)[j]
      {
        inboxes := inboxes[i := inboxes[i] + [Note(chain, status)]];
        i := i + 1;
      }
    }

    method RecordSuccess(chain: Chain, now: real)
      requires Valid()
      modifies this
      ensures Valid()
      ensures forall c: Chain :: View(c) == if c == chain then Step(old(View(c)), Check(chain, now, true)) else old(View(c))
      ensures inboxes == Delivered(old(inboxes), Announced(old(View(chain)), Check(chain, now, true)))
    {
      var oldStatus := health[chain].status;
      health := health[chain := Health(Healthy, 0)];
      failureTimestamps := failureTimestamps[chain := []];
      if oldStatus == Outage {
        NotifyCallbacks(chain, Healthy);
      }
    }

    method RecordFailure(chain: Chain, now: real)
      requires Valid()
      modifies this
      ensures Valid()
      ensures forall c: Chain :: View(c) == if c == chain then Step(old(View(c)), Check(chain, now, false)) else old(View(c))
      ensures inboxes == Delivered(old(inboxes), Announced(old(View(chain)), Check(chain, now, false)))
    {
      hide Recent;
      var oldStatus := health[chain].status;
      failureTimestamps := failureTimestamps[chain := failureTimestamps[chain] + [now]];
      var windowStart := now - FAILURE_WINDOW_SECONDS;
      failureTimestamps := failureTimestamps[chain := Recent(failureTimestamps[chain], windowStart)];
      var failuresInWindow := |failureTimestamps[chain]|;
      var newStatus;
      if failuresInWindow >= MAX_CONSECUTIVE_FAILURES {
        newStatus := Outage;
      } else if failuresInWindow > 0 {
        newStatus := Degraded;
      } else {
        newStatus := Healthy;
      }
      health := health[chain := Health(newStatus, failuresInWindow)];
      if newStatus != oldStatus {
        NotifyCallbacks(chain, newStatus);
      }
    }
  }
}
