/** The rolling window of signing events: a deque pruned at its front, only when it is read. */
module SigningMetrics {
  import opened Common

  const METRICS_WINDOW_SECONDS: real := 86400.0

  datatype Kind = Success | PolicyDenied | Error | CircuitOpen

  datatype SigningEvent = SigningEvent(timestamp: real, result: Kind)

  datatype Summary = Summary(success: nat, policyDenied: nat, error: nat, circuitOpen: nat)

  function Count(events: seq<SigningEvent>, k: Kind, cutoff: real): nat {
    if events == [] then 0
    else
      var ev := events[|events| - 1];
      Count(events[..|events| - 1], k, cutoff) + if ev.result == k && ev.timestamp >= cutoff then 1 else 0
  }

  function Counts(events: seq<SigningEvent>, cutoff: real): Summary {
    Summary(Count(events, Success, cutoff), Count(events, PolicyDenied, cutoff), Count(events, Error, cutoff), Count(events, CircuitOpen, cutoff))
  }

  function Prune(events: seq<SigningEvent>, cutoff: real): seq<SigningEvent> {
    if events != [] && events[0].timestamp < cutoff then Prune(events[1..], cutoff) else events
  }

  /** An absent or zero window means the whole retention window. */
  function Effective(asked: Option<real>): real {
    if asked.None? || asked.value == 0.0 then METRICS_WINDOW_SECONDS else asked.value
  }

  predicate Matches(ev: SigningEvent, k: Kind, cutoff: real) { ev.result == k && ev.timestamp >= cutoff }

  ghost function Places(events: seq<SigningEvent>, k: Kind, cutoff: real): set<nat> {
    set i: nat | i < |events| && Matches(events[i], k, cutoff)
  }

  lemma {:induction false} PlacesOneMore(events: seq<SigningEvent>, ev: SigningEvent, k: Kind, cutoff: real)
    ensures |Places(events + [ev], k, cutoff)| == |Places(events, k, cutoff)| + if Matches(ev, k, cutoff) then 1 else 0
  {
    hide Matches;
    var longer := events + [ev];
    var last: set<nat> := if Matches(ev, k, cutoff) then {|events|} else {};
    assert Places(longer, k, cutoff) == Places(events, k, cutoff) + last;
  }

  /** The count is the number of events with that result, the one at the cutoff included. */
  lemma {:induction false} CountIsCardinality(events: seq<SigningEvent>, k: Kind, cutoff: real)
    ensures Count(events, k, cutoff) == |set i: nat | i < |events| && events[i].result == k && events[i].timestamp >= cutoff|
  {
    assert (set i: nat | i < |events| && events[i].result == k && events[i].timestamp >= cutoff) == Places(events, k, cutoff);
    CountIsPlaces(events, k, cutoff);
  }

  lemma {:induction false} CountIsPlaces(events: seq<SigningEvent>, k: Kind, cutoff: real)
    ensures Count(events, k, cutoff) == |Places(events, k, cutoff)|
  {
    if events == [] {
      assert Places(events, k, cutoff) == {};
    } else {
      hide Places;
      var n := |events| - 1;
      CountIsPlaces(events[..n], k, cutoff);
      PlacesOneMore(events[..n], events[n], k, cutoff);
      assert events == events[..n] + [events[n]];
    }
  }

  // ------------------------------------------------------------------ runs and the full log

  /** A summary reads the clock twice: once to prune, once for the window it counts over. */
  datatype Operation =
    | Record(event: SigningEvent)
    | Summarize(pruneAt: real, countAt: real, asked: Option<real>)

  function Cut(op: Operation): real
    requires op.Summarize?
  {
    op.pruneAt - METRICS_WINDOW_SECONDS
  }

  function Applied(events: seq<SigningEvent>, op: Operation): seq<SigningEvent> {
    match op
    case Record(ev) => events + [ev]
    case Summarize(_, _, _) => Prune(events, Cut(op))
  }

  /** The deque after the first `n` operations. */
  function Deque(ops: seq<Operation>, n: nat): seq<SigningEvent>
    requires n <= |ops|
  {
    if n == 0 then [] else Applied(Deque(ops, n - 1), ops[n - 1])
  }

  /** Everything ever recorded by the first `n` operations. */
  function Recorded(ops: seq<Operation>, n: nat): seq<SigningEvent>
    requires n <= |ops|
  {
    if n == 0 then []
    else if ops[n - 1].Record? then Recorded(ops, n - 1) + [ops[n - 1].event]
    else Recorded(ops, n - 1)
  }

  /** Reads see a clock that never goes back; nothing is asked of the recorded timestamps. */
  predicate ReadsInOrder(ops: seq<Operation>) {
    && (forall i :: 0 <= i < |ops| && ops[i].Summarize? ==> ops[i].pruneAt <= ops[i].countAt)
    && (forall i, j :: 0 <= i < j < |ops| && ops[i].Summarize? && ops[j].Summarize? ==> ops[i].countAt <= ops[j].pruneAt)
  }

  predicate Sorted(events: seq<SigningEvent>) {
    forall i, j :: 0 <= i < j < |events| ==> events[i].timestamp <= events[j].timestamp
  }

  predicate AllBefore(events: seq<SigningEvent>, t: real) {
    forall i :: 0 <= i < |events| ==> events[i].timestamp < t
  }

  /** The part of the log that pruning has removed. */
  function Dropped(ops: seq<Operation>, n: nat): (gone: seq<SigningEvent>)
    requires n <= |ops|
    ensures Recorded(ops, n) == gone + Deque(ops, n)
  {
    if n == 0 then []
    else
      var before := Dropped(ops, n - 1);
      var deque := Deque(ops, n - 1);
      match ops[n - 1]
      case Record(ev) => Associative(before, deque, [ev]); before
      case Summarize(_, _, _) =>
        var cut := Cut(ops[n - 1]);
        PrunedIsSuffix(deque, cut);
        before + deque[..|deque| - |Prune(deque, cut)|]
  }

  /** How many events pruning takes off the front. */
  function OldFront(events: seq<SigningEvent>, cutoff: real): (n: nat)
    ensures n <= |events| && AllBefore(events[..n], cutoff)
    ensures n < |events| ==> events[n].timestamp >= cutoff
  {
    if events != [] && events[0].timestamp < cutoff then 1 + OldFront(events[1..], cutoff) else 0
  }

  lemma {:induction false} PruneDropsFront(events: seq<SigningEvent>, cutoff: real)
    ensures Prune(events, cutoff) == events[OldFront(events, cutoff)..]
  {
    if events != [] && events[0].timestamp < cutoff {
      PruneDropsFront(events[1..], cutoff);
    }
  }

  lemma {:induction false} PrunedIsSuffix(events: seq<SigningEvent>, cutoff: real)
    ensures var kept := Prune(events, cutoff);
            && |kept| <= |events|
            && events == events[..|events| - |kept|] + kept
            && AllBefore(events[..|events| - |kept|], cutoff)
            && (kept != [] ==> kept[0].timestamp >= cutoff)
  {
    hide Prune, OldFront;
    PruneDropsFront(events, cutoff);
  }

  lemma {:induction false} DroppedIsOld(ops: seq<Operation>, n: nat, t: real)
    requires n <= |ops| && ReadsInOrder(ops)
    requires forall i :: 0 <= i < n && ops[i].Summarize? ==> Cut(ops[i]) <= t
    ensures AllBefore(Dropped(ops, n), t)
  {
    if n > 0 {
      DroppedIsOld(ops, n - 1, t);
      if ops[n - 1].Summarize? {
        PrunedIsSuffix(Deque(ops, n - 1), Cut(ops[n - 1]));
      }
    }
  }

  lemma {:induction false} CountAppend(a: seq<SigningEvent>, b: seq<SigningEvent>, k: Kind, cutoff: real)
    ensures Count(a + b, k, cutoff) == Count(a, k, cutoff) + Count(b, k, cutoff)
  {
    if b == [] {
      assert a + b == a;
    } else {
      assert (a + b)[..|a + b| - 1] == a + b[..|b| - 1];
      CountAppend(a, b[..|b| - 1], k, cutoff);
    }
  }

  lemma {:induction false} CountOld(events: seq<SigningEvent>, k: Kind, cutoff: real)
    requires AllBefore(events, cutoff)
    ensures Count(events, k, cutoff) == 0
  {
    if events != [] {
      CountOld(events[..|events| - 1], k, cutoff);
    }
  }

  lemma {:induction false} CountAbove(events: seq<SigningEvent>, k: Kind, low: real, high: real)
    requires low <= high
    requires forall i :: 0 <= i < |events| ==> events[i].timestamp >= high
    ensures Count(events, k, low) == Count(events, k, high)
  {
    if events != [] {
      CountAbove(events[..|events| - 1], k, low, high);
    }
  }

  lemma {:induction false} CountsSplit(gone: seq<SigningEvent>, kept: seq<SigningEvent>, cutoff: real)
    requires AllBefore(gone, cutoff)
    ensures Counts(gone + kept, cutoff) == Counts(kept, cutoff)
  {
    forall k: Kind ensures Count(gone + kept, k, cutoff) == Count(kept, k, cutoff) {
      CountAppend(gone, kept, k, cutoff);
      CountOld(gone, k, cutoff);
    }
  }

  /** What the read at position `i` answers. */
  function Answer(ops: seq<Operation>, i: nat): Summary
    requires i < |ops| && ops[i].Summarize?
  {
    Counts(Deque(ops, i + 1), ops[i].countAt - Effective(ops[i].asked))
  }

  /**
   For a window of at most 24 hours, pruning never shows: the whole log gives the same counts.
   No window, or a window of 0, means the 24 hours.
   */
  lemma {:induction false} SummaryAgreesWithLog(ops: seq<Operation>, i: nat)
    requires i < |ops| && ops[i].Summarize? && ReadsInOrder(ops)
    requires ops[i].asked.Some? ==> ops[i].asked.value <= 86400.0
    ensures ops[i].asked in {None, Some(0.0)} ==> Answer(ops, i) == Counts(Recorded(ops, i + 1), ops[i].countAt - 86400.0)
    ensures ops[i].asked !in {None, Some(0.0)} ==> Answer(ops, i) == Counts(Recorded(ops, i + 1), ops[i].countAt - ops[i].asked.value)
  {
    var cutoff := ops[i].countAt - Effective(ops[i].asked);
    DroppedIsOld(ops, i + 1, cutoff);
    CountsSplit(Dropped(ops, i + 1), Deque(ops, i + 1), cutoff);
  }

  lemma {:induction false} KeptIsRecent(ops: seq<Operation>, i: nat, j: nat)
    requires i < |ops| && ops[i].Summarize?
    requires Sorted(Recorded(ops, i + 1)) && j < |Deque(ops, i + 1)|
    ensures Deque(ops, i + 1)[j].timestamp >= Cut(ops[i])
  {
    hide Prune, Recorded, Dropped;
    PrunedIsSuffix(Deque(ops, i), Cut(ops[i]));
    var log, kept, at := Recorded(ops, i + 1), Deque(ops, i + 1), |Dropped(ops, i + 1)|;
    assert kept[j] == log[at + j] && kept[0] == log[at];
  }

  /** For any window at all, when events are recorded in time order: the retention window caps what is counted. */
  lemma {:induction false} SummaryIsCapped(ops: seq<Operation>, i: nat)
    requires i < |ops| && ops[i].Summarize? && ReadsInOrder(ops)
    requires Sorted(Recorded(ops, i + 1))
    ensures var cutoff := ops[i].countAt - if ops[i].asked in {None, Some(0.0)} then 86400.0 else ops[i].asked.value;
            var oldest := ops[i].pruneAt - 86400.0;
            Answer(ops, i) == Counts(Recorded(ops, i + 1), if cutoff < oldest then oldest else cutoff)
  {
    hide Recorded, Deque, Dropped, Count, Sorted;
    var cutoff := ops[i].countAt - Effective(ops[i].asked);
    assert Effective(ops[i].asked) == if ops[i].asked in {None, Some(0.0)} then 86400.0 else ops[i].asked.value;
    var oldest := Cut(ops[i]);
    var used := if cutoff < oldest then oldest else cutoff;
    var kept := Deque(ops, i + 1);
    DroppedIsOld(ops, i + 1, used);
    CountsSplit(Dropped(ops, i + 1), kept, used);
    forall j | 0 <= j < |kept| ensures kept[j].timestamp >= oldest {
      KeptIsRecent(ops, i, j);
    }
    if cutoff < oldest {
      forall k: Kind ensures Count(kept, k, cutoff) == Count(kept, k, oldest) {
        CountAbove(kept, k, cutoff, oldest);
      }
    }
  }

  // ------------------------------------------------------------------ the class

  class Metrics {
    var events: seq<SigningEvent>

    constructor ()
      ensures events == []
    {
      events := [];
    }

    method Record(now: real, result: Kind)
      modifies this
      ensures events == Applied(old(events), Operation.Record(SigningEvent(now, result)))
    {
      events := events + [SigningEvent(now, result)];
    }

    method PruneOld(now: real)
      modifies this
      ensures events == Prune(old(events), now - METRICS_WINDOW_SECONDS)
    {
      var cutoff := now - METRICS_WINDOW_SECONDS;
      while events != [] && events[0].timestamp < cutoff
        invariant Prune(events, cutoff) == Prune(old(events), cutoff)
        decreases |events|
      {
        events := events[1..];
      }
    }

    method GetSummary(pruneAt: real, countAt: real, asked: Option<real>) returns (counts: Summary)
      modifies this
      ensures events == Applied(old(events), Summarize(pruneAt, countAt, asked))
      ensures counts == Counts(events, countAt - Effective(asked))
    {
      PruneOld(pruneAt);
      var cutoff := countAt - Effective(asked);
      counts := Summary(0, 0, 0, 0);
      var i := 0;
      while i < |events|
        invariant 0 <= i <= |events|
        invariant events == Prune(old(events), pruneAt - METRICS_WINDOW_SECONDS)
        invariant counts == Counts(events[..i], cutoff)
      {
        assert events[..i + 1][..i] == events[..i];
        if events[i].timestamp >= cutoff {
          match events[i].result
          case Success => counts := counts.(success := counts.success + 1);
          case PolicyDenied => counts := counts.(policyDenied := counts.policyDenied + 1);
          case Error => counts := counts.(error := counts.error + 1);
          case CircuitOpen => counts := counts.(circuitOpen := counts.circuitOpen + 1);
        }
        i := i + 1;
      }
      assert events[..i] == events;
    }
  }
}
