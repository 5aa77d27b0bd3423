/** Sliding-window limiter for one-time-password requests, keyed by client address and e-mail. */
module RateLimit {
  import opened Windows

  const RATE_LIMIT_MAX_ATTEMPTS: nat := 5
  const RATE_LIMIT_WINDOW_SECONDS: real := 900.0

  type Key = string

  /** One request: the limiter reads the clock when it checks, and again when it records. */
  datatype Request = Request(key: Key, checkedAt: real, recordedAt: real)

  function Get(attempts: map<Key, seq<real>>, key: Key): seq<real> {
    if key in attempts then attempts[key] else []
  }

  function WindowStart(now: real): real { now - RATE_LIMIT_WINDOW_SECONDS }

  predicate Allowed(attempts: map<Key, seq<real>>, r: Request) {
    |Recent(Get(attempts, r.key), WindowStart(r.checkedAt))| < RATE_LIMIT_MAX_ATTEMPTS
  }

  function Step(attempts: map<Key, seq<real>>, r: Request): map<Key, seq<real>> {
    var kept := Recent(Get(attempts, r.key), WindowStart(r.checkedAt));
    attempts[r.key := if Allowed(attempts, r) then kept + [r.recordedAt] else kept]
  }

  function After(rs: seq<Request>): map<Key, seq<real>> {
    if rs == [] then map[] else Step(After(rs[..|rs| - 1]), rs[|rs| - 1])
  }

  /** Every attempt ever recorded for a key; nothing is removed. */
  function Log(rs: seq<Request>, key: Key): seq<real> {
    if rs == [] then []
    else
      var before, r := rs[..|rs| - 1], rs[|rs| - 1];
      Log(before, key) + New(before, r, key)
  }

  /** What request `r`, made after the others, adds to the log of a key. */
  function New(before: seq<Request>, r: Request, key: Key): seq<real> {
    if r.key == key && Allowed(After(before), r) then [r.recordedAt] else []
  }

  predicate Clocked(rs: seq<Request>) {
    && (forall i :: 0 <= i < |rs| ==> rs[i].checkedAt <= rs[i].recordedAt)
    && (forall i, j :: 0 <= i < j < |rs| ==> rs[i].recordedAt <= rs[j].checkedAt)
  }

  // ------------------------------------------------------------------ the pruned list and the log

  /** The stored list of a key and its log, one request later. */
  lemma {:induction false} OneMore(before: seq<Request>, r: Request, key: Key)
    ensures Log(before + [r], key) == Log(before, key) + New(before, r, key)
    ensures var stored := Get(After(before), key);
            Get(After(before + [r]), key) == if r.key == key then Recent(stored, WindowStart(r.checkedAt)) + New(before, r, key) else stored
  {
    assert (before + [r])[..|before|] == before;
  }

  /** From the latest check's window onwards the pruned list and the full log hold the same attempts. */
  lemma {:induction false} StoredAgrees(rs: seq<Request>, key: Key, start: real)
    requires forall i :: 0 <= i < |rs| ==> WindowStart(rs[i].checkedAt) <= start
    ensures Recent(Get(After(rs), key), start) == Recent(Log(rs, key), start)
  {
    hide After, Log, Recent, New;
    if rs == [] {
      assert After(rs) == map[] && Log(rs, key) == [] by { Nothing(key); }
    } else {
      var before, r := rs[..|rs| - 1], rs[|rs| - 1];
      assert before + [r] == rs;
      OneMore(before, r, key);
      StoredAgrees(before, key, start);
      if r.key == key {
        var stored, from, more := Get(After(before), key), WindowStart(r.checkedAt), New(before, r, key);
        RecentTwice(stored, from, start);
        RecentAppend(Recent(stored, from), more, start);
      }
      RecentAppend(Log(before, key), New(before, r, key), start);
      RecentOfNew(before, r, key, start);
    }
  }

  lemma Nothing(key: Key)
    ensures After([]) == map[] && Log([], key) == []
  {
  }

  lemma RecentOfNew(before: seq<Request>, r: Request, key: Key, start: real)
    ensures r.key != key ==> Recent(New(before, r, key), start) == []
  {
  }

  /** A request passes exactly when fewer than five attempts of its key lie in the 900 s before its check. */
  lemma {:induction false} AllowedExactly(rs: seq<Request>, r: Request)
    requires Clocked(rs + [r])
    ensures Allowed(After(rs), r)
        <==> |Recent(Log(rs, r.key), r.checkedAt - 900.0)| < 5
  {
    hide After, Log, Recent;
    assert (rs + [r])[|rs|] == r;
    forall i | 0 <= i < |rs| ensures WindowStart(rs[i].checkedAt) <= WindowStart(r.checkedAt) {
      assert (rs + [r])[i] == rs[i];
    }
    StoredAgrees(rs, r.key, WindowStart(r.checkedAt));
  }

  /** After a request its key's stored list is exactly the attempts of the log that were recent when it was checked. */
  lemma {:induction false} StoredIsRecentLog(rs: seq<Request>, r: Request)
    requires Clocked(rs + [r])
    ensures Get(After(rs + [r]), r.key) == Recent(Log(rs + [r], r.key), r.checkedAt - 900.0)
  {
    hide After, Log;
    var start := WindowStart(r.checkedAt);
    assert (rs + [r])[|rs|] == r;
    forall i | 0 <= i < |rs| ensures WindowStart(rs[i].checkedAt) <= start {
      assert (rs + [r])[i] == rs[i];
    }
    StoredAgrees(rs, r.key, start);
    OneMore(rs, r, r.key);
    RecentAppend(Log(rs, r.key), New(rs, r, r.key), start);
    RecentOne(r.recordedAt, start);
    hide Recent;
  }

  // ------------------------------------------------------------------ the bound

  /** The two half-open windows of 900 s that begin at `lo`. */
  predicate Within(t: real, lo: real, closedBelow: bool) {
    if closedBelow then lo <= t < lo + 900.0 else lo < t <= lo + 900.0
  }

  function CountWithin(times: seq<real>, lo: real, closedBelow: bool): nat {
    if times == [] then 0
    else CountWithin(times[..|times| - 1], lo, closedBelow) + if Within(times[|times| - 1], lo, closedBelow) then 1 else 0
  }

  lemma {:induction false} WithinIsRecent(times: seq<real>, lo: real, closedBelow: bool, start: real)
    requires start < lo || (start == lo && !closedBelow)
    ensures CountWithin(times, lo, closedBelow) <= |Recent(times, start)|
  {
    if times != [] {
      WithinIsRecent(times[..|times| - 1], lo, closedBelow, start);
    }
  }

  /** No half-open window of 900 s, wherever it starts, holds more than five recorded attempts of one key. */
  lemma {:induction false} WindowBound(rs: seq<Request>, key: Key, lo: real, closedBelow: bool)
    requires Clocked(rs)
    ensures CountWithin(Log(rs, key), lo, closedBelow) <= 5
  {
    if rs != [] {
      var before, r := rs[..|rs| - 1], rs[|rs| - 1];
      assert before + [r] == rs;
      WindowBound(before, key, lo, closedBelow);
      WindowGrows(before, r, key, lo, closedBelow);
    }
  }

  lemma {:induction false} WindowGrows(before: seq<Request>, r: Request, key: Key, lo: real, closedBelow: bool)
    requires Clocked(before + [r])
    requires CountWithin(Log(before, key), lo, closedBelow) <= 5
    ensures CountWithin(Log(before + [r], key), lo, closedBelow) <= 5
  {
    hide After, Log, Recent;
    var log := Log(before, key);
    OneMore(before, r, key);
    assert log + [] == log && (log + [r.recordedAt])[..|log|] == log;
    if r.key == key && Allowed(After(before), r) && Within(r.recordedAt, lo, closedBelow) {
      AllowedExactly(before, r);
      assert (before + [r])[|before|] == r;
      WithinIsRecent(log, lo, closedBelow, WindowStart(r.checkedAt));
    }
  }

  // ------------------------------------------------------------------ closed windows

  function CountAt(times: seq<real>, t: real): nat {
    if times == [] then 0 else CountAt(times[..|times| - 1], t) + if times[|times| - 1] == t then 1 else 0
  }

  function CountClosed(times: seq<real>, lo: real): nat {
    if times == [] then 0
    else CountClosed(times[..|times| - 1], lo) + if lo <= times[|times| - 1] <= lo + 900.0 then 1 else 0
  }

  /** A closed window is either half-open one and the end it lacks. */
  lemma {:induction false} ClosedSplits(times: seq<real>, lo: real)
    ensures CountClosed(times, lo) == CountWithin(times, lo, true) + CountAt(times, lo + 900.0)
    ensures CountClosed(times, lo) == CountAt(times, lo) + CountWithin(times, lo, false)
    ensures CountAt(times, lo) <= CountWithin(times, lo, true)
  {
    if times != [] {
      ClosedSplits(times[..|times| - 1], lo);
    }
  }

  predicate Sorted(times: seq<real>) {
    forall i, j :: 0 <= i < j < |times| ==> times[i] <= times[j]
  }

  lemma {:induction false} LogIsSorted(rs: seq<Request>, key: Key)
    requires Clocked(rs)
    ensures Sorted(Log(rs, key))
    ensures forall i :: 0 <= i < |Log(rs, key)| ==> rs != [] && Log(rs, key)[i] <= rs[|rs| - 1].recordedAt
  {
    hide After, Log, Recent;
    if rs == [] {
      Nothing(key);
    } else {
      var before, r := rs[..|rs| - 1], rs[|rs| - 1];
      assert rs == before + [r];
      LogIsSorted(before, key);
      OneMore(before, r, key);
    }
  }

  /** Attempts `a` to `b - 1` all lie in the window. */
  lemma {:induction false} CountsRange(times: seq<real>, a: nat, b: nat, lo: real)
    requires a <= b <= |times|
    ensures (forall k :: a <= k < b ==> Within(times[k], lo, true)) ==> CountWithin(times, lo, true) >= b - a
    ensures (forall k :: a <= k < b ==> lo <= times[k] <= lo + 900.0) ==> CountClosed(times, lo) >= b - a
  {
    if a < b {
      var before := times[..|times| - 1];
      CountsRange(before, a, if b == |times| then b - 1 else b, lo);
    }
  }

  /** In every run, any attempt of a key comes at least 900 s after the fifth before it. */
  lemma {:induction false} FiveApart(rs: seq<Request>, key: Key, i: nat)
    requires Clocked(rs) && i + 5 < |Log(rs, key)|
    ensures Log(rs, key)[i + 5] - Log(rs, key)[i] >= 900.0
  {
    hide Log, CountWithin, CountClosed;
    var log := Log(rs, key);
    LogIsSorted(rs, key);
    WindowBound(rs, key, log[i], true);
    CountsRange(log, i, i + 6, log[i]);
  }

  /** In a sorted list the closed window is one run of attempts, which begins at `i`. */
  lemma {:induction false} ClosedIsRun(times: seq<real>, lo: real) returns (i: nat)
    requires Sorted(times)
    ensures var c := CountClosed(times, lo);
            && i + c <= |times|
            && (forall k :: 0 <= k < i ==> times[k] < lo)
            && (forall k :: i <= k < i + c ==> lo <= times[k] <= lo + 900.0)
            && (forall k :: i + c <= k < |times| ==> times[k] > lo + 900.0)
  {
    i := 0;
    if times != [] {
      var before, last := times[..|times| - 1], times[|times| - 1];
      i := ClosedIsRun(before, lo);
      if last < lo {
        i := |times|;
      }
    }
  }

  /**
   A closed window holds more than five attempts exactly when one lies on its start and the fifth
   after that on its very end; and it never holds more than ten.
   */
  lemma {:induction false} ClosedWindowExactly(rs: seq<Request>, key: Key, lo: real)
    requires Clocked(rs)
    ensures var log, hi := Log(rs, key), lo + 900.0;
            && CountClosed(log, lo) <= 10
            && (CountClosed(log, lo) > 5 <==>
                  exists i: nat :: i + 5 < |log| && log[i] == lo && log[i + 5] == hi)
            && (CountClosed(log, lo) > 5 ==> CountAt(log, lo) > 0 && CountAt(log, hi) > 0)
  {
    hide Log, CountWithin, CountClosed, CountAt;
    var log, hi := Log(rs, key), lo + 900.0;
    WindowBound(rs, key, lo, true);
    WindowBound(rs, key, lo, false);
    WindowBound(rs, key, hi, true);
    ClosedSplits(log, lo);
    ClosedSplits(log, hi);
    LogIsSorted(rs, key);
    if CountClosed(log, lo) > 5 {
      var i := ClosedIsRun(log, lo);
      FiveApart(rs, key, i);
      assert log[i] == lo && log[i + 5] == hi;
    }
    if i: nat :| i + 5 < |log| && log[i] == lo && log[i + 5] == hi {
      CountsRange(log, i, i + 6, lo);
    }
  }

  function Times(t: real, n: nat): seq<real> { seq(n, i => t) }

  function Burst(key: Key, t: real, n: nat): seq<Request> { seq(n, i => Request(key, t, t)) }

  /** Ten is reached: five attempts at one moment and five more exactly 900 s later. */
  lemma {:induction false} ClosedWindowHoldsTen(key: Key)
    ensures exists rs :: Clocked(rs) && Log(rs, key) == Times(0.0, 5) + Times(900.0, 5)
  {
    hide After, Log, Recent;
    Nothing(key);
    assert Recent([], WindowStart(0.0)) == [] by { NoneRecent([], WindowStart(0.0)); }
    BurstIsLogged([], key, 0.0, 5);
    var rs := [] + Burst(key, 0.0, 5);
    assert [] + Times(0.0, 5) == Times(0.0, 5);
    NoneRecent(Times(0.0, 5), WindowStart(900.0));
    BurstIsLogged(rs, key, 900.0, 5);
  }

  lemma {:induction false} BurstIsLogged(rs: seq<Request>, key: Key, t: real, n: nat)
    requires n <= 5 && Clocked(rs) && forall i :: 0 <= i < |rs| ==> rs[i].recordedAt <= t
    requires Recent(Log(rs, key), WindowStart(t)) == []
    ensures Clocked(rs + Burst(key, t, n)) && Log(rs + Burst(key, t, n), key) == Log(rs, key) + Times(t, n)
  {
    hide After, Log, Recent;
    if n == 0 {
      assert rs + Burst(key, t, 0) == rs && Log(rs, key) + Times(t, 0) == Log(rs, key);
    } else {
      var before, r, log := rs + Burst(key, t, n - 1), Request(key, t, t), Log(rs, key);
      BurstIsLogged(rs, key, t, n - 1);
      assert rs + Burst(key, t, n) == before + [r];
      assert log + Times(t, n) == log + Times(t, n - 1) + [t];
      RecentAppend(log, Times(t, n - 1), WindowStart(t));
      RecentIsShorter(Times(t, n - 1), WindowStart(t));
      AllowedExactly(before, r);
      OneMore(before, r, key);
    }
  }

  // ------------------------------------------------------------------ one key does not see another

  function Only(rs: seq<Request>, key: Key): seq<Request> {
    if rs == [] then []
    else Only(rs[..|rs| - 1], key) + if rs[|rs| - 1].key == key then [rs[|rs| - 1]] else []
  }

  /** Every key is limited as if the other keys made no requests. */
  lemma {:induction false} KeysIndependent(rs: seq<Request>, key: Key)
    ensures Get(After(rs), key) == Get(After(Only(rs, key)), key)
    ensures Log(rs, key) == Log(Only(rs, key), key)
  {
    hide After, Log, Recent;
    if rs == [] {
      assert Only(rs, key) == rs;
    } else {
      var before, r := rs[..|rs| - 1], rs[|rs| - 1];
      KeysIndependent(before, key);
      KeysStep(before, r, key);
      assert before + [r] == rs;
      assert Only(before, key) + [] == Only(before, key);
    }
  }

  lemma {:induction false} KeysStep(before: seq<Request>, r: Request, key: Key)
    requires var only := Only(before, key);
             Get(After(before), key) == Get(After(only), key) && Log(before, key) == Log(only, key)
    ensures var only := Only(before, key) + if r.key == key then [r] else [];
            && Get(After(before + [r]), key) == Get(After(only), key)
            && Log(before + [r], key) == Log(only, key)
  {
    hide Log, After, Recent, Only;
    OneMore(before, r, key);
    OneMore(Only(before, key), r, key);
    assert Only(before, key) + [] == Only(before, key);
  }

  // ------------------------------------------------------------------ the module's dictionary

  class OtpAttempts {
    var attempts: map<Key, seq<real>>

    constructor ()
      ensures attempts == After([])
    {
      attempts := map[];
    }

    method CheckRateLimit(identifier: Key, now: real) returns (allowed: bool, remaining: int)
      modifies this
      ensures var kept := Recent(Get(old(attempts), identifier), WindowStart(now));
              && attempts == old(attempts)[identifier := kept]
              && allowed == (|kept| < RATE_LIMIT_MAX_ATTEMPTS)
              && remaining == (if allowed then RATE_LIMIT_MAX_ATTEMPTS - |kept| else 0)
    {
      var times := if identifier in attempts then attempts[identifier] else [];
      times := Recent(times, WindowStart(now));
      attempts := attempts[identifier := times];
      if |times| >= RATE_LIMIT_MAX_ATTEMPTS {
        return false, 0;
      }
      return true, RATE_LIMIT_MAX_ATTEMPTS - |times|;
    }

    method RecordAttempt(identifier: Key, now: real)
      modifies this
      ensures attempts == old(attempts)[identifier := Get(old(attempts), identifier) + [now]]
    {
      if identifier !in attempts {
        attempts := attempts[identifier := []];
      }
      attempts := attempts[identifier := attempts[identifier] + [now]];
    }

    /** The use both endpoints make of the limiter; false stands for the 429 response. */
    method CheckThenRecord(r: Request) returns (allowed: bool)
      modifies this
      ensures attempts == Step(old(attempts), r) && allowed == Allowed(old(attempts), r)
    {
      var remaining: int;
      allowed, remaining := CheckRateLimit(r.key, r.checkedAt);
      if allowed {
        RecordAttempt(r.key, r.recordedAt);
      }
    }
  }
}
