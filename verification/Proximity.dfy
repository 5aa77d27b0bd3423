/**
 Liquidation proximity: how long a position's readings have stayed within 20% of the venue's
 threshold, tracked as one start time for each user and position.
 */
module Proximity {
  import opened Common

  const LIQUIDATION_PROXIMITY_PCT: real := 0.20
  const LIQUIDATION_PROXIMITY_DURATION: real := 20.0

  type Key = string

  datatype Venue = OnAsgard | OnHyperliquid

  datatype Level = Normal | Warning | Critical

  /** The thresholds read from the risk configuration. */
  datatype Limits = Limits(minHealth: real, emergencyHealth: real, criticalHealth: real, margin: real)

  /** A health factor or margin fraction, with the two readings of the clock its check makes. */
  datatype Reading = Reading(venue: Venue, user: string, position: string, value: real, at: real, comparedAt: real)
  {
    function Key(): Key { KeyOf(user, venue, position) }
  }

  function Name(v: Venue): string { if v.OnAsgard? then "asgard_" else "hyperliquid_" }

  /** The empty user stands for a missing one; the code treats both alike. */
  function KeyOf(user: string, venue: Venue, position: string): Key {
    if user != "" then user + ":" + (Name(venue) + position) else Name(venue) + position
  }

  function LevelOf(limits: Limits, venue: Venue, value: real): Level {
    if venue.OnAsgard? then
      if value <= limits.criticalHealth || value <= limits.emergencyHealth then Critical
      else if value <= limits.minHealth then Warning
      else Normal
    else
      if value <= limits.margin * 0.5 then Critical
      else if value <= limits.margin then Warning
      else Normal
  }

  function Threshold(limits: Limits, venue: Venue): real {
    if venue.OnAsgard? then limits.minHealth else limits.margin
  }

  predicate Inside(limits: Limits, venue: Venue, value: real) {
    value <= Threshold(limits, venue) * (1.0 + LIQUIDATION_PROXIMITY_PCT)
  }

  predicate Near(limits: Limits, r: Reading) { Inside(limits, r.venue, r.value) }

  // ------------------------------------------------------------------ the tracker as a state machine

  function Tracked(starts: map<Key, real>, key: Key, near: bool, now: real): map<Key, real> {
    if !near then starts - {key} else if key in starts then starts else starts[key := now]
  }

  function After(limits: Limits, rs: seq<Reading>, n: nat): map<Key, real>
    requires n <= |rs|
  {
    if n == 0 then map[]
    else Tracked(After(limits, rs, n - 1), rs[n - 1].Key(), Near(limits, rs[n - 1]), rs[n - 1].at)
  }

  /** The verdict of the check that makes reading `n`. */
  predicate Triggered(limits: Limits, rs: seq<Reading>, n: nat)
    requires n < |rs|
  {
    var starts := After(limits, rs, n + 1);
    rs[n].Key() in starts && rs[n].comparedAt - starts[rs[n].Key()] >= LIQUIDATION_PROXIMITY_DURATION
  }

  // ------------------------------------------------------------------ the readings themselves

  /** Whether the last of the first `n` readings for a key was near; false when there is none. */
  predicate LastNear(limits: Limits, rs: seq<Reading>, key: Key, n: nat)
    requires n <= |rs|
  {
    n > 0 && if rs[n - 1].Key() == key then Near(limits, rs[n - 1]) else LastNear(limits, rs, key, n - 1)
  }

  /** Reading `i` is the first of the unbroken run of near readings that reaches up to reading `n`. */
  predicate RunStartsAt(limits: Limits, rs: seq<Reading>, key: Key, i: nat, n: nat)
    requires n <= |rs|
  {
    && i < n && rs[i].Key() == key && !LastNear(limits, rs, key, i)
    && forall j :: i <= j < n && rs[j].Key() == key ==> Near(limits, rs[j])
  }

  lemma {:induction false} StartIsStored(limits: Limits, rs: seq<Reading>, key: Key, i: nat, n: nat)
    requires n <= |rs| && RunStartsAt(limits, rs, key, i, n)
    ensures key in After(limits, rs, n) && After(limits, rs, n)[key] == rs[i].at
  {
    StoredIffNear(limits, rs, key, n - 1);
    if i < n - 1 {
      StartIsStored(limits, rs, key, i, n - 1);
    }
  }

  lemma {:induction false} StoredIffNear(limits: Limits, rs: seq<Reading>, key: Key, n: nat)
    requires n <= |rs|
    ensures key in After(limits, rs, n) <==> LastNear(limits, rs, key, n)
  {
    if n > 0 {
      StoredIffNear(limits, rs, key, n - 1);
    }
  }

  lemma {:induction false} RunHasStart(limits: Limits, rs: seq<Reading>, key: Key, n: nat) returns (i: nat)
    requires n <= |rs| && LastNear(limits, rs, key, n)
    ensures RunStartsAt(limits, rs, key, i, n)
  {
    if rs[n - 1].Key() == key && !LastNear(limits, rs, key, n - 1) {
      i := n - 1;
    } else {
      i := RunHasStart(limits, rs, key, n - 1);
    }
  }

  /** The stored start of a key is the time of the first reading of its current unbroken run, and there is none without a run. */
  lemma {:induction false} TrackerMatchesReadings(limits: Limits, rs: seq<Reading>, key: Key, n: nat)
    requires n <= |rs|
    ensures key in After(limits, rs, n) <==> exists i: nat :: RunStartsAt(limits, rs, key, i, n)
    ensures forall i: nat :: RunStartsAt(limits, rs, key, i, n) ==>
              key in After(limits, rs, n) && After(limits, rs, n)[key] == rs[i].at
  {
    StoredIffNear(limits, rs, key, n);
    forall i: nat | RunStartsAt(limits, rs, key, i, n)
      ensures key in After(limits, rs, n) && After(limits, rs, n)[key] == rs[i].at
    {
      StartIsStored(limits, rs, key, i, n);
    }
    if LastNear(limits, rs, key, n) {
      var i := RunHasStart(limits, rs, key, n);
    }
  }

  /** A check raises the alarm exactly when the run its reading belongs to began at least 20 s before. */
  lemma {:induction false} TriggeredExactly(limits: Limits, rs: seq<Reading>, n: nat)
    requires n < |rs|
    ensures Triggered(limits, rs, n) <==>
              exists i: nat :: RunStartsAt(limits, rs, rs[n].Key(), i, n + 1) && rs[n].comparedAt - rs[i].at >= 20.0
  {
    TrackerMatchesReadings(limits, rs, rs[n].Key(), n + 1);
  }

  function StartOf(starts: map<Key, real>, key: Key): Option<real> {
    if key in starts then Some(starts[key]) else None
  }

  lemma {:induction false} OneMore(limits: Limits, rs: seq<Reading>, r: Reading, key: Key)
    ensures var before := StartOf(After(limits, rs, |rs|), key);
            StartOf(After(limits, rs + [r], |rs| + 1), key) ==
              if r.Key() != key then before
              else if !Near(limits, r) then None
              else if before.Some? then before
              else Some(r.at)
  {
    SamePrefix(limits, rs, rs + [r], |rs|);
  }

  /** Readings under other keys change nothing: a key's start is the one its own readings alone would give. */
  lemma {:induction false} KeysIndependent(limits: Limits, rs: seq<Reading>, key: Key)
    ensures var own := Own(rs, key);
            StartOf(After(limits, rs, |rs|), key) == StartOf(After(limits, own, |own|), key)
  {
    hide After, Near, StartOf, Reading.Key;
    if rs == [] {
      assert Own(rs, key) == rs;
    } else {
      var before, r := rs[..|rs| - 1], rs[|rs| - 1];
      assert rs == before + [r];
      KeysIndependent(limits, before, key);
      OneMore(limits, before, r, key);
      OneMore(limits, Own(before, key), r, key);
      assert Own(before, key) + [] == Own(before, key);
    }
  }

  function Own(rs: seq<Reading>, key: Key): seq<Reading> {
    if rs == [] then [] else Own(rs[..|rs| - 1], key) + if rs[|rs| - 1].Key() == key then [rs[|rs| - 1]] else []
  }

  lemma {:induction false} SamePrefix(limits: Limits, rs: seq<Reading>, longer: seq<Reading>, n: nat)
    requires n <= |rs| <= |longer| && rs == longer[..|rs|]
    ensures After(limits, rs, n) == After(limits, longer, n)
  {
    if n > 0 {
      SamePrefix(limits, rs, longer, n - 1);
    }
  }

  // ------------------------------------------------------------------ levels and runs

  /** Every reading at `Warning` or worse is near, whatever its value, exactly under these settings. */
  predicate LevelsCovered(limits: Limits, venue: Venue) {
    if venue.OnAsgard? then
      && limits.minHealth >= 0.0
      && limits.emergencyHealth <= limits.minHealth * 1.2
      && limits.criticalHealth <= limits.minHealth * 1.2
    else limits.margin >= 0.0
  }

  lemma {:induction false} LevelsCoveredExactly(limits: Limits, venue: Venue)
    ensures (forall value :: LevelOf(limits, venue, value) != Normal ==> Inside(limits, venue, value)) <==> LevelsCovered(limits, venue)
  {
    if !LevelsCovered(limits, venue) {
      var worst :=
        if venue.OnHyperliquid? then limits.margin
        else if limits.criticalHealth > limits.minHealth * 1.2 then limits.criticalHealth
        else if limits.emergencyHealth > limits.minHealth * 1.2 then limits.emergencyHealth
        else limits.minHealth;
      assert LevelOf(limits, venue, worst) != Normal && !Inside(limits, venue, worst);
    }
  }

  function Rank(level: Level): nat { match level case Normal => 0 case Warning => 1 case Critical => 2 }

  /** A lower reading is never a milder one. */
  lemma {:induction false} LowerIsWorse(limits: Limits, venue: Venue, low: real, high: real)
    requires low <= high
    ensures Rank(LevelOf(limits, venue, low)) >= Rank(LevelOf(limits, venue, high))
    ensures Inside(limits, venue, high) ==> Inside(limits, venue, low)
  {
  }

  /**
   The level of any reading, with its numbers: `Critical` at either lower health limit or at half the
   margin, otherwise `Warning` at the health minimum or the margin, otherwise `Normal`; and near
   within six fifths of that last threshold.
   */
  lemma {:induction false} LevelsExactly(limits: Limits, venue: Venue, value: real)
    ensures LevelOf(limits, venue, value) == Critical <==>
              match venue
              case OnAsgard => value <= limits.criticalHealth || value <= limits.emergencyHealth
              case OnHyperliquid => 2.0 * value <= limits.margin
    ensures LevelOf(limits, venue, value) in {Normal, Warning} ==>
              (LevelOf(limits, venue, value) == Warning <==> value <= match venue case OnAsgard => limits.minHealth case OnHyperliquid => limits.margin)
    ensures Inside(limits, venue, value) <==> 5.0 * value <= 6.0 * match venue case OnAsgard => limits.minHealth case OnHyperliquid => limits.margin
  {
  }

  predicate Clocked(rs: seq<Reading>) {
    && (forall i :: 0 <= i < |rs| ==> rs[i].at <= rs[i].comparedAt)
    && (forall i, j :: 0 <= i < j < |rs| ==> rs[i].comparedAt <= rs[j].at)
  }

  /** A position read at `Warning` or worse each time for 20 s raises the alarm, whatever is read for others meanwhile. */
  lemma {:induction false} SustainedWarningTriggers(limits: Limits, rs: seq<Reading>, i: nat, n: nat)
    requires i <= n < |rs| && Clocked(rs)
    requires rs[i].Key() == rs[n].Key() && rs[n].comparedAt - rs[i].at >= 20.0
    requires LevelsCovered(limits, OnAsgard) && LevelsCovered(limits, OnHyperliquid)
    requires forall j :: i <= j <= n && rs[j].Key() == rs[n].Key() ==> LevelOf(limits, rs[j].venue, rs[j].value) != Normal
    ensures Triggered(limits, rs, n)
  {
    var key := rs[n].Key();
    forall j | i <= j <= n && rs[j].Key() == key ensures Near(limits, rs[j]) {
      LevelsCoveredExactly(limits, rs[j].venue);
    }
    assert LastNear(limits, rs, key, n + 1);
    var k := RunHasStart(limits, rs, key, n + 1);
    if k > i {
      StaysNear(limits, rs, key, i, k);
    }
    TriggeredExactly(limits, rs, n);
  }

  lemma {:induction false} StaysNear(limits: Limits, rs: seq<Reading>, key: Key, i: nat, k: nat)
    requires i < k <= |rs| && rs[i].Key() == key
    requires forall j :: i <= j < k && rs[j].Key() == key ==> Near(limits, rs[j])
    ensures LastNear(limits, rs, key, k)
  {
    if k > i + 1 {
      StaysNear(limits, rs, key, i, k - 1);
    }
  }

  // ------------------------------------------------------------------ the keys

  /** The part of a string after its last colon. */
  function AfterColon(s: string): string {
    if s == "" || s[|s| - 1] == ':' then "" else AfterColon(s[..|s| - 1]) + [s[|s| - 1]]
  }

  lemma {:induction false} AfterColonOf(p: string, rest: string)
    requires ':' !in rest && (p == "" || p[|p| - 1] == ':')
    ensures AfterColon(p + rest) == rest
  {
    if rest == "" {
      assert p + rest == p;
    } else {
      var front := rest[..|rest| - 1];
      assert (p + rest)[..|p + rest| - 1] == p + front;
      AfterColonOf(p, front);
      assert rest == front + [rest[|rest| - 1]];
    }
  }

  function Owner(user: string): string { if user != "" then user + ":" else "" }

  /** A key is an owner's prefix and what follows its last colon. */
  lemma {:induction false} KeyParts(r: Reading)
    requires ':' !in r.position
    ensures var rest := Name(r.venue) + r.position;
            r.Key() == Owner(r.user) + rest && AfterColon(r.Key()) == rest
  {
    var rest := Name(r.venue) + r.position;
    AfterColonOf(Owner(r.user), rest);
    assert Owner("") + rest == rest;
  }

  lemma {:induction false} VenueIsNamed(v: Venue, position: string, w: Venue, other: string)
    requires Name(v) + position == Name(w) + other
    ensures v == w && position == other
  {
    var k := Name(v) + position;
    assert k[0] == Name(v)[0] == Name(w)[0];
    assert k[|Name(v)|..] == position && k[|Name(w)|..] == other;
  }

  /** Whatever the users, different users, venues or positions never share a key, as long as positions have no colon. */
  lemma {:induction false} KeysAreDistinct(r: Reading, q: Reading)
    requires ':' !in r.position && ':' !in q.position
    requires r.Key() == q.Key()
    ensures r.user == q.user && r.venue == q.venue && r.position == q.position
  {
    KeyParts(r);
    KeyParts(q);
    VenueIsNamed(r.venue, r.position, q.venue, q.position);
    var owner := Owner(r.user);
    assert r.Key()[..|owner|] == owner && q.Key()[..|owner|] == Owner(q.user);
    assert r.user != "" ==> owner[..|owner| - 1] == r.user;
    assert q.user != "" ==> owner[..|owner| - 1] == q.user;
  }

  /** A colon in a position can make two users share a key, for any user at all. */
  lemma {:induction false} ColonsCollide(user: string, pda: string, other: string)
    requires user != ""
    ensures KeyOf(user, OnAsgard, pda + (":" + ("asgard_" + other))) == KeyOf(user + (":" + ("asgard_" + pda)), OnAsgard, other)
    ensures user != user + (":" + ("asgard_" + pda))
  {
    var tail, name := ":" + ("asgard_" + other), "asgard_" + pda;
    Associative("asgard_", pda, tail);
    Associative(user, ":", name + tail);
    Associative(":", name, tail);
    Associative(user, ":" + name, tail);
    Associative(user + (":" + name), ":", "asgard_" + other);
    assert |user + (":" + name)| > |user|;
  }

  // ------------------------------------------------------------------ the engine

  class RiskEngine {
    const limits: Limits
    var proximityStartTimes: map<Key, real>

    constructor (limits: Limits)
      ensures this.limits == limits && proximityStartTimes == map[]
    {
      this.limits := limits;
      proximityStartTimes := map[];
    }

    method UpdateProximityTracking(key: Key, inProximity: bool, now: real) returns (start: Option<real>)
      modifies this
      ensures proximityStartTimes == Tracked(old(proximityStartTimes), key, inProximity, now)
      ensures start == if key in proximityStartTimes then Some(proximityStartTimes[key]) else None
    {
      if inProximity {
        if key !in proximityStartTimes {
          proximityStartTimes := proximityStartTimes[key := now];
        }
        return Some(proximityStartTimes[key]);
      } else {
        if key in proximityStartTimes {
          proximityStartTimes := proximityStartTimes - {key};
        }
        return None;
      }
    }

    method CheckAsgardHealth(user: string, pda: string, hf: real, now: real, comparedAt: real)
      returns (level: Level, distance: real, inProximity: bool)
      modifies this
      ensures var r := Reading(OnAsgard, user, pda, hf, now, comparedAt);
              && proximityStartTimes == Tracked(old(proximityStartTimes), r.Key(), Near(limits, r), now)
              && level == LevelOf(limits, OnAsgard, hf) && distance == hf
              && inProximity == (r.Key() in proximityStartTimes
                                 && comparedAt - proximityStartTimes[r.Key()] >= LIQUIDATION_PROXIMITY_DURATION)
    {
      if hf <= limits.criticalHealth {
        level := Critical;
      } else if hf <= limits.emergencyHealth {
        level := Critical;
      } else if hf <= limits.minHealth {
        level := Warning;
      } else {
        level := Normal;
      }
      distance := hf;
      var near := hf <= limits.minHealth * (1.0 + LIQUIDATION_PROXIMITY_PCT);
      var start := UpdateProximityTracking(KeyOf(user, OnAsgard, pda), near, now);
      inProximity := near && start.Some? && comparedAt - start.value >= LIQUIDATION_PROXIMITY_DURATION;
    }

    method CheckHyperliquidMargin(user: string, position: string, mf: real, now: real, comparedAt: real)
      returns (level: Level, distance: real, inProximity: bool)
      modifies this
      ensures var r := Reading(OnHyperliquid, user, position, mf, now, comparedAt);
              && proximityStartTimes == Tracked(old(proximityStartTimes), r.Key(), Near(limits, r), now)
              && level == LevelOf(limits, OnHyperliquid, mf) && distance == mf - limits.margin
              && inProximity == (r.Key() in proximityStartTimes
                                 && comparedAt - proximityStartTimes[r.Key()] >= LIQUIDATION_PROXIMITY_DURATION)
    {
      distance := mf - limits.margin;
      if mf <= limits.margin * 0.5 {
        level := Critical;
      } else if mf <= limits.margin {
        level := Warning;
      } else {
        level := Normal;
      }
      var near := mf <= limits.margin * (1.0 + LIQUIDATION_PROXIMITY_PCT);
      var start := UpdateProximityTracking(KeyOf(user, OnHyperliquid, position), near, now);
      inProximity := near && start.Some? && comparedAt - start.value >= LIQUIDATION_PROXIMITY_DURATION;
    }
  }
}
