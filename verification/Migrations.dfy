/** The migration runner: numbered scripts, one table row for each applied version, one transaction for each script. */
module Migrations {
  import opened Common

  datatype Migration = Migration(version: int, hasDown: bool)

  /** What has been run against the database, in order; only committed scripts count. */
  datatype Script = Up(version: int) | Down(version: int)

  /** `rows` is the table of applied versions in insertion order. */
  datatype State = State(rows: seq<int>, scripts: seq<Script>)

  const EMPTY := State([], [])

  /** A run of the scripts ends normally, or stops where a transaction or a check fails. */
  datatype Outcome = Outcome(state: State, completed: bool)

  /** `failing` holds the versions whose transaction is rolled back during this call. */
  datatype Call = Call(target: Option<int>, failing: set<int>)

  // ------------------------------------------------------------------ the table

  function MaxOf(rows: seq<int>): (m: int)
    requires rows != []
    ensures m in rows && forall v :: v in rows ==> v <= m
  {
    if |rows| == 1 then rows[0]
    else
      assert rows == [rows[0]] + rows[1..];
      var m := MaxOf(rows[1..]);
      if rows[0] > m then rows[0] else m
  }

  function Current(rows: seq<int>): int { if rows == [] then 0 else MaxOf(rows) }

  function Without(rows: seq<int>, version: int): seq<int> {
    if rows == [] then []
    else Without(rows[..|rows| - 1], version) + if rows[|rows| - 1] == version then [] else [rows[|rows| - 1]]
  }

  function Applied(s: State, version: int): State { State(s.rows + [version], s.scripts + [Up(version)]) }

  function Reverted(s: State, version: int): State { State(Without(s.rows, version), s.scripts + [Down(version)]) }

  // ------------------------------------------------------------------ the two loops

  /** Files `i` and later, in ascending order; the primary key refuses a version that is already there. */
  function Upgrade(files: seq<Migration>, i: nat, current: int, target: int, failing: set<int>, s: State): Outcome
    requires i <= |files|
    decreases |files| - i
  {
    if i == |files| then Outcome(s, true)
    else
      var v := files[i].version;
      if !(current < v <= target) then Upgrade(files, i + 1, current, target, failing, s)
      else if v in failing || v in s.rows then Outcome(s, false)
      else Upgrade(files, i + 1, current, target, failing, Applied(s, v))
  }

  /** Files before `i`, in descending order. */
  function Downgrade(files: seq<Migration>, i: nat, current: int, target: int, failing: set<int>, s: State): Outcome
    requires i <= |files|
  {
    if i == 0 then Outcome(s, true)
    else
      var v := files[i - 1].version;
      if !(target < v <= current) then Downgrade(files, i - 1, current, target, failing, s)
      else if !files[i - 1].hasDown || v in failing then Outcome(s, false)
      else Downgrade(files, i - 1, current, target, failing, Reverted(s, v))
  }

  function Latest(files: seq<Migration>): int
    requires files != []
  {
    MaxOf(Versions(files, |files|))
  }

  function Target(files: seq<Migration>, call: Call): int
    requires files != []
  {
    if call.target.Some? then call.target.value else Latest(files)
  }

  function Migrated(files: seq<Migration>, call: Call, s: State): Outcome {
    if files == [] then Outcome(s, true)
    else
      var current, target := Current(s.rows), Target(files, call);
      if current == target then Outcome(s, true)
      else if current < target then Upgrade(files, 0, current, target, call.failing, s)
      else Downgrade(files, |files|, current, target, call.failing, s)
  }

  function After(files: seq<Migration>, calls: seq<Call>, n: nat): State
    requires n <= |calls|
  {
    if n == 0 then EMPTY else Migrated(files, calls[n - 1], After(files, calls, n - 1)).state
  }

  // ------------------------------------------------------------------ prefixes of the files

  function Versions(files: seq<Migration>, k: nat): (vs: seq<int>)
    requires k <= |files|
    ensures |vs| == k && forall i :: 0 <= i < k ==> vs[i] == files[i].version
  {
    seq(k, i requires 0 <= i < k => files[i].version)
  }

  predicate IsVersion(files: seq<Migration>, v: int) { exists i :: 0 <= i < |files| && files[i].version == v }

  /** What the loader returns for distinct positive versions. */
  predicate Loaded(files: seq<Migration>) {
    && (forall i :: 0 <= i < |files| ==> files[i].version > 0)
    && (forall i, j :: 0 <= i < j < |files| ==> files[i].version < files[j].version)
  }

  /** The versions the scripts leave in the schema, when every down script undoes the newest one. */
  function Replay(scripts: seq<Script>): Option<seq<int>> {
    if scripts == [] then Some([])
    else
      var before := Replay(scripts[..|scripts| - 1]);
      if before.None? then None
      else match scripts[|scripts| - 1]
        case Up(v) => Some(before.value + [v])
        case Down(v) =>
          if before.value != [] && before.value[|before.value| - 1] == v then Some(before.value[..|before.value| - 1]) else None
  }

  lemma {:induction false} ReplayMore(scripts: seq<Script>, x: Script)
    ensures Replay(scripts + [x]) ==
      (var before := Replay(scripts);
       if before.None? then None
       else match x
         case Up(v) => Some(before.value + [v])
         case Down(v) =>
           if before.value != [] && before.value[|before.value| - 1] == v then Some(before.value[..|before.value| - 1]) else None)
  {
    assert (scripts + [x])[..|scripts|] == scripts;
  }

  /** Exactly the first `k` files are applied, in the table and in the schema. */
  predicate AtPrefix(files: seq<Migration>, k: nat, s: State) {
    k <= |files| && s.rows == Versions(files, k) && Replay(s.scripts) == Some(s.rows)
  }

  function VersionAt(files: seq<Migration>, k: nat): int
    requires k <= |files|
  {
    if k == 0 then 0 else files[k - 1].version
  }

  lemma {:induction false} CurrentOfPrefix(files: seq<Migration>, k: nat)
    requires Loaded(files) && k <= |files|
    ensures Current(Versions(files, k)) == VersionAt(files, k)
  {
    if k > 0 {
      var vs := Versions(files, k);
      assert vs[k - 1] == files[k - 1].version && vs[k - 1] in vs;
      var j :| 0 <= j < k && vs[j] == MaxOf(vs);
    }
  }

  lemma {:induction false} WithoutAbsent(rows: seq<int>, v: int)
    requires v !in rows
    ensures Without(rows, v) == rows
  {
    if rows != [] {
      WithoutAbsent(rows[..|rows| - 1], v);
    }
  }

  lemma {:induction false} ApplyNext(files: seq<Migration>, k: nat, s: State)
    requires Loaded(files) && k < |files| && AtPrefix(files, k, s)
    ensures files[k].version !in s.rows
    ensures AtPrefix(files, k + 1, Applied(s, files[k].version))
  {
    var v := files[k].version;
    ReplayMore(s.scripts, Up(v));
    assert Versions(files, k + 1) == Versions(files, k) + [v];
  }

  lemma {:induction false} RevertLast(files: seq<Migration>, k: nat, s: State)
    requires Loaded(files) && k < |files| && AtPrefix(files, k + 1, s)
    ensures AtPrefix(files, k, Reverted(s, files[k].version))
  {
    var v := files[k].version;
    ReplayMore(s.scripts, Down(v));
    assert s.rows[..k] == Versions(files, k);
    WithoutAbsent(s.rows[..k], v);
  }

  // ------------------------------------------------------------------ the loops keep the prefix

  lemma UnfoldUp(files: seq<Migration>, i: nat, current: int, target: int, failing: set<int>, s: State)
    requires i <= |files|
    ensures Upgrade(files, i, current, target, failing, s) ==
            if i == |files| then Outcome(s, true)
            else if !(current < files[i].version <= target) then Upgrade(files, i + 1, current, target, failing, s)
            else if files[i].version in failing || files[i].version in s.rows then Outcome(s, false)
            else Upgrade(files, i + 1, current, target, failing, Applied(s, files[i].version))
  {
  }

  lemma UnfoldDown(files: seq<Migration>, i: nat, current: int, target: int, failing: set<int>, s: State)
    requires i <= |files|
    ensures Downgrade(files, i, current, target, failing, s) ==
            if i == 0 then Outcome(s, true)
            else if !(target < files[i - 1].version <= current) then Downgrade(files, i - 1, current, target, failing, s)
            else if !files[i - 1].hasDown || files[i - 1].version in failing then Outcome(s, false)
            else Downgrade(files, i - 1, current, target, failing, Reverted(s, files[i - 1].version))
  {
  }

  /**
   Between file `k`, where a call starts, and file `m`, where it stands at the end, no file was in
   the way; and when it did not complete, the next one towards the target was.
   */
  predicate StopsAt(files: seq<Migration>, k: nat, m: nat, target: int, failing: set<int>, completed: bool)
    requires k <= |files| && m <= |files|
  {
    && (forall j :: k <= j < m ==> files[j].version <= target && files[j].version !in failing)
    && (forall j :: m <= j < k ==> files[j].version > target && files[j].hasDown && files[j].version !in failing)
    && (!completed ==>
          || (m >= k && m < |files| && files[m].version <= target && files[m].version in failing)
          || (0 < m <= k && files[m - 1].version > target && (!files[m - 1].hasDown || files[m - 1].version in failing)))
  }

  /** The first `m` files are those up to the target. */
  predicate EndsAt(files: seq<Migration>, m: nat, target: int)
    requires m <= |files|
  {
    && (forall j :: 0 <= j < m ==> files[j].version <= target)
    && (forall j :: m <= j < |files| ==> files[j].version > target)
  }

  /** Where an upgrade loop that has reached file `i` ends; `k` files are then applied. */
  lemma {:induction false} UpgradeKeeps(files: seq<Migration>, i: nat, current: int, target: int, failing: set<int>, s: State)
    returns (k: nat)
    requires Loaded(files) && i <= |files|
    requires AtPrefix(files, i, s) && forall j :: i <= j < |files| ==> files[j].version > current
    ensures var o := Upgrade(files, i, current, target, failing, s);
            && AtPrefix(files, k, o.state) && i <= k && StopsAt(files, i, k, target, failing, o.completed)
            && (o.completed ==> forall j :: k <= j < |files| ==> files[j].version > target)
    decreases |files| - i
  {
    k := i;
    UnfoldUp(files, i, current, target, failing, s);
    if i < |files| {
      ApplyNext(files, i, s);
      hide AtPrefix, Applied, Upgrade;
      if files[i].version > target {
        UpgradeSkips(files, i, current, target, failing, s);
      } else if files[i].version !in failing {
        k := UpgradeKeeps(files, i + 1, current, target, failing, Applied(s, files[i].version));
      }
    }
  }

  lemma {:induction false} UpgradeSkips(files: seq<Migration>, i: nat, current: int, target: int, failing: set<int>, s: State)
    requires Loaded(files) && i <= |files|
    requires forall j :: i <= j < |files| ==> files[j].version > target
    ensures Upgrade(files, i, current, target, failing, s) == Outcome(s, true)
    decreases |files| - i
  {
    if i < |files| {
      UpgradeSkips(files, i + 1, current, target, failing, s);
    }
  }

  lemma {:induction false} UpgradeStartsAt(files: seq<Migration>, i: nat, k: nat, current: int, target: int, failing: set<int>, s: State)
    requires i <= k <= |files|
    requires forall j :: i <= j < k ==> files[j].version <= current
    ensures Upgrade(files, i, current, target, failing, s) == Upgrade(files, k, current, target, failing, s)
    decreases k - i
  {
    if i < k {
      UpgradeStartsAt(files, i + 1, k, current, target, failing, s);
    }
  }

  lemma EarlierIsLower(files: seq<Migration>, i: nat)
    requires Loaded(files) && 0 < i <= |files|
    ensures forall j :: 0 <= j < i ==> files[j].version <= files[i - 1].version
  {
  }

  lemma {:induction false} DowngradeKeeps(files: seq<Migration>, i: nat, current: int, target: int, failing: set<int>, s: State)
    returns (k: nat)
    requires Loaded(files) && i <= |files|
    requires AtPrefix(files, i, s) && forall j :: 0 <= j < i ==> files[j].version <= current
    ensures var o := Downgrade(files, i, current, target, failing, s);
            && AtPrefix(files, k, o.state) && k <= i && StopsAt(files, i, k, target, failing, o.completed)
            && (o.completed ==> forall j :: 0 <= j < k ==> files[j].version <= target)
  {
    hide AtPrefix, Reverted, Downgrade, Loaded, StopsAt, Versions;
    k := i;
    UnfoldDown(files, i, current, target, failing, s);
    StandsStill(files, i, target, failing);
    if i > 0 {
      RevertLast(files, i - 1, s);
      EarlierIsLower(files, i);
      if files[i - 1].version <= target {
        DowngradeSkips(files, i, current, target, failing, s);
      } else if files[i - 1].hasDown && files[i - 1].version !in failing {
        var t := Reverted(s, files[i - 1].version);
        k := DowngradeKeeps(files, i - 1, current, target, failing, t);
        StopsLater(files, i, k, target, failing, Downgrade(files, i - 1, current, target, failing, t).completed);
      }
    }
  }

  lemma StandsStill(files: seq<Migration>, i: nat, target: int, failing: set<int>)
    requires i <= |files|
    ensures StopsAt(files, i, i, target, failing, true)
    ensures i > 0 && files[i - 1].version > target && (!files[i - 1].hasDown || files[i - 1].version in failing) ==>
              StopsAt(files, i, i, target, failing, false)
  {
  }

  lemma StopsLater(files: seq<Migration>, i: nat, k: nat, target: int, failing: set<int>, completed: bool)
    requires k < i <= |files| && StopsAt(files, i - 1, k, target, failing, completed)
    requires files[i - 1].version > target && files[i - 1].hasDown && files[i - 1].version !in failing
    ensures StopsAt(files, i, k, target, failing, completed)
  {
  }

  lemma {:induction false} DowngradeSkips(files: seq<Migration>, i: nat, current: int, target: int, failing: set<int>, s: State)
    requires i <= |files|
    requires forall j :: 0 <= j < i ==> files[j].version <= target
    ensures Downgrade(files, i, current, target, failing, s) == Outcome(s, true)
  {
    if i > 0 {
      DowngradeSkips(files, i - 1, current, target, failing, s);
    }
  }

  lemma {:induction false} DowngradeStartsAt(files: seq<Migration>, i: nat, k: nat, current: int, target: int, failing: set<int>, s: State)
    requires k <= i <= |files|
    requires forall j :: k <= j < i ==> files[j].version > current
    ensures Downgrade(files, i, current, target, failing, s) == Downgrade(files, k, current, target, failing, s)
    decreases i - k
  {
    if i > k {
      DowngradeStartsAt(files, i - 1, k, current, target, failing, s);
    }
  }

  lemma PrefixOrder(files: seq<Migration>, k: nat)
    requires Loaded(files) && k <= |files|
    ensures forall j :: 0 <= j < k ==> files[j].version <= VersionAt(files, k)
    ensures forall j :: k <= j < |files| ==> files[j].version > VersionAt(files, k)
  {
  }

  lemma PrefixRows(files: seq<Migration>, k: nat, s: State)
    requires AtPrefix(files, k, s)
    ensures s.rows == Versions(files, k)
  {
  }

  lemma StaysPut(files: seq<Migration>, k: nat, current: int, failing: set<int>)
    requires Loaded(files) && k <= |files| && current == VersionAt(files, k)
    ensures EndsAt(files, k, current) && StopsAt(files, k, k, current, failing, true)
  {
  }

  lemma {:induction false} UpgradeFrom(files: seq<Migration>, k: nat, target: int, failing: set<int>, s: State) returns (m: nat)
    requires Loaded(files) && AtPrefix(files, k, s) && VersionAt(files, k) < target
    ensures var o := Upgrade(files, 0, VersionAt(files, k), target, failing, s);
            AtPrefix(files, m, o.state) && (o.completed ==> EndsAt(files, m, target)) && StopsAt(files, k, m, target, failing, o.completed)
  {
    var current := VersionAt(files, k);
    PrefixOrder(files, k);
    hide Loaded, AtPrefix, Upgrade, VersionAt;
    UpgradeStartsAt(files, 0, k, current, target, failing, s);
    m := UpgradeKeeps(files, k, current, target, failing, s);
  }

  lemma {:induction false} DowngradeFrom(files: seq<Migration>, k: nat, target: int, failing: set<int>, s: State) returns (m: nat)
    requires Loaded(files) && AtPrefix(files, k, s) && target < VersionAt(files, k)
    ensures var o := Downgrade(files, |files|, VersionAt(files, k), target, failing, s);
            AtPrefix(files, m, o.state) && (o.completed ==> EndsAt(files, m, target)) && StopsAt(files, k, m, target, failing, o.completed)
  {
    var current := VersionAt(files, k);
    PrefixOrder(files, k);
    hide Loaded, AtPrefix, Downgrade, VersionAt;
    DowngradeStartsAt(files, |files|, k, current, target, failing, s);
    m := DowngradeKeeps(files, k, current, target, failing, s);
  }

  /** One call, whatever fails in it, leaves a prefix; a completed call leaves the one that ends at its target. */
  lemma {:induction false} MigrateKeeps(files: seq<Migration>, call: Call, s: State, k: nat) returns (m: nat)
    requires Loaded(files) && AtPrefix(files, k, s)
    ensures var o := Migrated(files, call, s);
            && AtPrefix(files, m, o.state)
            && (files != [] && o.completed ==> EndsAt(files, m, Target(files, call)))
            && (files != [] ==> StopsAt(files, k, m, Target(files, call), call.failing, o.completed))
  {
    m := k;
    CurrentOfPrefix(files, k);
    PrefixOrder(files, k);
    StaysPut(files, k, VersionAt(files, k), call.failing);
    hide Upgrade, Downgrade, Replay, Current, Latest, Loaded, AtPrefix, EndsAt, StopsAt, VersionAt;
    if files != [] {
      assert s.rows == Versions(files, k) by { PrefixRows(files, k, s); }
      var current, target := Current(s.rows), Target(files, call);
      if current < target {
        m := UpgradeFrom(files, k, target, call.failing, s);
      } else if current > target {
        m := DowngradeFrom(files, k, target, call.failing, s);
      }
    }
  }

  lemma {:induction false} RunKeeps(files: seq<Migration>, calls: seq<Call>, n: nat) returns (k: nat)
    requires Loaded(files) && n <= |calls|
    ensures AtPrefix(files, k, After(files, calls, n))
  {
    k := 0;
    if n > 0 {
      k := RunKeeps(files, calls, n - 1);
      k := MigrateKeeps(files, calls[n - 1], After(files, calls, n - 1), k);
    }
  }

  // ------------------------------------------------------------------ main results

  /** The recorded versions are exactly those of the files up to the current version. */
  predicate RowsMatch(files: seq<Migration>, rows: seq<int>) {
    && (forall i :: 0 <= i < |rows| ==> IsVersion(files, rows[i]))
    && (forall i :: 0 <= i < |files| ==> (files[i].version in rows <==> files[i].version <= Current(rows)))
  }

  lemma {:induction false} PrefixMatches(files: seq<Migration>, k: nat, s: State)
    requires Loaded(files) && AtPrefix(files, k, s)
    ensures RowsMatch(files, s.rows)
  {
    CurrentOfPrefix(files, k);
    forall i | 0 <= i < |files| ensures files[i].version in s.rows <==> files[i].version <= Current(s.rows) {
      if i < k {
        assert s.rows[i] == files[i].version;
      }
    }
  }

  /** After any calls, also ones that stopped part-way: the table is the files up to its maximum, and the schema agrees with it. */
  lemma {:induction false} AppliedUpToCurrent(files: seq<Migration>, calls: seq<Call>)
    requires Loaded(files)
    ensures var s := After(files, calls, |calls|);
            RowsMatch(files, s.rows) && Replay(s.scripts) == Some(s.rows)
  {
    var k := RunKeeps(files, calls, |calls|);
    PrefixMatches(files, k, After(files, calls, |calls|));
  }

  /** A file that a call from `current` to `target` must pass and cannot. */
  predicate Blocks(m: Migration, current: int, target: int, failing: set<int>) {
    || (current < m.version <= target && m.version in failing)
    || (target < m.version <= current && (!m.hasDown || m.version in failing))
  }

  /**
   After any calls, the next one completes exactly when no file on its way is blocked; when one is,
   it has gone as far as the first one on its way and no further.
   */
  lemma {:induction false} CompletesExactly(files: seq<Migration>, calls: seq<Call>, call: Call)
    requires Loaded(files) && files != []
    ensures var before := After(files, calls, |calls|);
            var o, current, target := Migrated(files, call, before), Current(before.rows), Target(files, call);
            && (o.completed <==> forall i :: 0 <= i < |files| ==> !Blocks(files[i], current, target, call.failing))
            && (!o.completed ==> exists i ::
                  && 0 <= i < |files| && Blocks(files[i], current, target, call.failing)
                  && o.state.rows == Versions(files, if current < target then i else i + 1)
                  && forall j :: 0 <= j < |files| && (if current < target then j < i else j > i) ==> !Blocks(files[j], current, target, call.failing))
  {
    var before := After(files, calls, |calls|);
    var k := RunKeeps(files, calls, |calls|);
    var m := MigrateKeeps(files, call, before, k);
    CurrentOfPrefix(files, k);
    hide After, Migrated, Current, Target, Replay, Versions, Loaded, EndsAt, StopsAt, Blocks, VersionAt;
    StandsAtBlocker(files, k, m, Target(files, call), call.failing, Migrated(files, call, before).completed);
  }

  lemma {:induction false} StandsAtBlocker(files: seq<Migration>, k: nat, m: nat, target: int, failing: set<int>, completed: bool)
    requires Loaded(files) && k <= |files| && m <= |files|
    requires StopsAt(files, k, m, target, failing, completed) && (completed ==> EndsAt(files, m, target))
    ensures var current := VersionAt(files, k);
            && (completed <==> forall i :: 0 <= i < |files| ==> !Blocks(files[i], current, target, failing))
            && (!completed ==> exists i ::
                  && 0 <= i < |files| && Blocks(files[i], current, target, failing)
                  && m == (if current < target then i else i + 1)
                  && forall j :: 0 <= j < |files| && (if current < target then j < i else j > i) ==> !Blocks(files[j], current, target, failing))
  {
    PrefixOrder(files, k);
    var current := VersionAt(files, k);
    if !completed {
      var i: nat := if m >= k && m < |files| && files[m].version <= target && files[m].version in failing then m else m - 1;
      assert Blocks(files[i], current, target, failing);
    }
  }

  /** A call without a target that completes applies every file, in order. */
  lemma {:induction false} LatestAppliesAll(files: seq<Migration>, calls: seq<Call>, failing: set<int>)
    requires Loaded(files)
    ensures var o := Migrated(files, Call(None, failing), After(files, calls, |calls|));
            o.completed ==> o.state.rows == Versions(files, |files|)
  {
    var call := Call(None, failing);
    var k := RunKeeps(files, calls, |calls|);
    var m := MigrateKeeps(files, call, After(files, calls, |calls|), k);
    hide After, Migrated;
    if m < |files| {
      assert Versions(files, |files|)[m] == files[m].version;
      assert files[m].version in Versions(files, |files|);
    }
  }

  lemma {:induction false} EndIsUnique(files: seq<Migration>, k: nat, m: nat, target: int)
    requires k <= |files| && m <= |files| && EndsAt(files, k, target) && EndsAt(files, m, target)
    ensures k == m
  {
    assert k < |files| ==> files[k].version > target;
    assert m < |files| ==> files[m].version > target;
  }

  /** A completed call applies exactly the versions up to its target, and repeating it changes nothing at all. */
  lemma {:induction false} CompletedIsIdempotent(files: seq<Migration>, calls: seq<Call>, call: Call)
    requires Loaded(files) && files != []
    requires Migrated(files, call, After(files, calls, |calls|)).completed
    ensures var s := Migrated(files, call, After(files, calls, |calls|)).state;
            && (forall i :: 0 <= i < |files| ==> (files[i].version in s.rows <==> files[i].version <= Target(files, call)))
            && Migrated(files, call, s) == Outcome(s, true)
  {
    var before, target := After(files, calls, |calls|), Target(files, call);
    var k := RunKeeps(files, calls, |calls|);
    var m := MigrateKeeps(files, call, before, k);
    var s := Migrated(files, call, before).state;
    CurrentOfPrefix(files, m);
    forall i | 0 <= i < |files| ensures files[i].version in s.rows <==> files[i].version <= target {
      if i < m {
        assert s.rows[i] == files[i].version;
      }
    }
    var current := Current(s.rows);
    UpgradeStartsAt(files, 0, m, current, target, call.failing, s);
    if current < target {
      UpgradeSkips(files, m, current, target, call.failing, s);
    } else if target < current {
      DowngradeStartsAt(files, |files|, m, current, target, call.failing, s);
      DowngradeSkips(files, m, current, target, call.failing, s);
    }
  }

  /** Migrating anywhere and then back, both completed, restores the table row by row. */
  lemma {:induction false} ThereAndBack(files: seq<Migration>, calls: seq<Call>, there: Call, failing: set<int>)
    requires Loaded(files) && files != []
    requires var s := After(files, calls, |calls|);
             var t := Migrated(files, there, s);
             t.completed && Migrated(files, Call(Some(Current(s.rows)), failing), t.state).completed
    ensures var s := After(files, calls, |calls|);
            Migrated(files, Call(Some(Current(s.rows)), failing), Migrated(files, there, s).state).state.rows == s.rows
  {
    var s := After(files, calls, |calls|);
    var k := RunKeeps(files, calls, |calls|);
    var m := MigrateKeeps(files, there, s, k);
    var back := Call(Some(Current(s.rows)), failing);
    var last := MigrateKeeps(files, back, Migrated(files, there, s).state, m);
    CurrentOfPrefix(files, k);
    EndIsUnique(files, k, last, Current(s.rows));
  }

  /** A file added later keeps the table in step exactly when its version is above the current one. */
  lemma {:induction false} AddedFileFitsExactly(files: seq<Migration>, more: seq<Migration>, calls: seq<Call>, v: int)
    requires Loaded(files) && !IsVersion(files, v)
    requires forall w :: IsVersion(more, w) <==> IsVersion(files, w) || w == v
    ensures var rows := After(files, calls, |calls|).rows;
            RowsMatch(more, rows) <==> v > Current(rows)
  {
    var rows := After(files, calls, |calls|).rows;
    AppliedUpToCurrent(files, calls);
    hide After, Current;
    assert IsVersion(more, v);
    var at :| 0 <= at < |more| && more[at].version == v;
    assert v !in rows;
    forall i | 0 <= i < |more| && more[i].version != v
      ensures more[i].version in rows <==> more[i].version <= Current(rows)
    {
      assert IsVersion(more, more[i].version);
      var j :| 0 <= j < |files| && files[j].version == more[i].version;
    }
    forall i | 0 <= i < |rows| ensures IsVersion(more, rows[i]) {
      assert IsVersion(files, rows[i]);
    }
  }

  /** A file added below the current version is undone without ever having been applied. */
  lemma LateFileIsOnlyReverted()
    ensures var files, more := [Migration(1, true), Migration(3, true)], [Migration(1, true), Migration(2, true), Migration(3, true)];
            var s := Migrated(files, Call(None, {}), EMPTY).state;
            var t := Migrated(more, Call(Some(0), {}), s).state;
            s.rows == [1, 3] && t.rows == [] && t.scripts == [Up(1), Up(3), Down(3), Down(2), Down(1)] && Replay(t.scripts).None?
  {
    var files, more := [Migration(1, true), Migration(3, true)], [Migration(1, true), Migration(2, true), Migration(3, true)];
    var s := State([1, 3], [Up(1), Up(3)]);
    UpToThree(files, s);
    DownToZero(more, s);
    hide Migrated;
    assert s.scripts + [Down(3), Down(2), Down(1)] == [Up(1), Up(3), Down(3), Down(2), Down(1)];
    ReplayBreaks();
  }

  lemma {:induction false} MaxIsThree()
    ensures MaxOf([1, 3]) == 3
  {
    assert [1, 3][1..] == [3];
  }

  lemma {:induction false} UpToThree(files: seq<Migration>, s: State)
    requires files == [Migration(1, true), Migration(3, true)] && s == State([1, 3], [Up(1), Up(3)])
    ensures Migrated(files, Call(None, {}), EMPTY) == Outcome(s, true)
  {
    assert Versions(files, 2) == [1, 3];
    MaxIsThree();
    hide MaxOf;
    var s1 := Applied(EMPTY, 1);
    assert Applied(s1, 3) == s;
    assert Upgrade(files, 2, 0, 3, {}, s) == Outcome(s, true);
    assert Upgrade(files, 1, 0, 3, {}, s1) == Outcome(s, true);
  }

  lemma {:induction false} DownToZero(more: seq<Migration>, s: State)
    requires more == [Migration(1, true), Migration(2, true), Migration(3, true)] && s.rows == [1, 3]
    ensures Migrated(more, Call(Some(0), {}), s) == Outcome(State([], s.scripts + [Down(3), Down(2), Down(1)]), true)
  {
    MaxIsThree();
    hide MaxOf;
    var t1 := State([1], s.scripts + [Down(3)]);
    var t2 := State([1], t1.scripts + [Down(2)]);
    var t3 := State([], t2.scripts + [Down(1)]);
    assert t3.scripts == s.scripts + [Down(3), Down(2), Down(1)];
    assert s.rows[..1] == [1] && [1][..0] == [];
    WithoutAbsent([1], 3);
    WithoutAbsent([1], 2);
    assert Without([1], 1) == [];
    assert Reverted(s, 3) == t1;
    assert Reverted(t1, 2) == t2;
    assert Reverted(t2, 1) == t3;
    hide Reverted, Without;
    assert Downgrade(more, 0, 3, 0, {}, t3) == Outcome(t3, true);
    assert Downgrade(more, 1, 3, 0, {}, t2) == Outcome(t3, true);
    assert Downgrade(more, 2, 3, 0, {}, t1) == Outcome(t3, true);
  }

  lemma ReplayBreaks()
    ensures Replay([Up(1), Up(3), Down(3), Down(2), Down(1)]).None?
  {
    var a, b, c := [Up(1)], [Up(1), Up(3)], [Up(1), Up(3), Down(3)];
    var d, e := [Up(1), Up(3), Down(3), Down(2)], [Up(1), Up(3), Down(3), Down(2), Down(1)];
    assert [] + [Up(1)] == a && a + [Up(3)] == b && b + [Down(3)] == c && c + [Down(2)] == d && d + [Down(1)] == e;
    ReplayMore([], Up(1));
    ReplayMore(a, Up(3));
    ReplayMore(b, Down(3));
    ReplayMore(c, Down(2));
    ReplayMore(d, Down(1));
  }

  // ------------------------------------------------------------------ the migrator

  class SchemaMigrator {
    const files: seq<Migration>
    var rows: seq<int>
    var scripts: seq<Script>

    constructor (files: seq<Migration>)
      ensures View() == EMPTY && this.files == files
    {
      this.files := files;
      rows, scripts := [], [];
    }

    function View(): State
      reads this
    {
      State(rows, scripts)
    }

    /** False stands for an exception: the transaction was rolled back or the key was taken. */
    method ApplyMigration(m: Migration, failing: set<int>) returns (ok: bool)
      modifies this
      ensures ok == (m.version !in failing && m.version !in old(rows))
      ensures View() == if ok then Applied(old(View()), m.version) else old(View())
    {
      if m.version in failing || m.version in rows { return false; }
      scripts := scripts + [Up(m.version)];
      rows := rows + [m.version];
      return true;
    }

    method RevertMigration(m: Migration, failing: set<int>) returns (ok: bool)
      modifies this
      ensures ok == (m.hasDown && m.version !in failing)
      ensures View() == if ok then Reverted(old(View()), m.version) else old(View())
    {
      if !m.hasDown { return false; }
      if m.version in failing { return false; }
      scripts := scripts + [Down(m.version)];
      rows := Without(rows, m.version);
      return true;
    }

    method Migrate(call: Call) returns (completed: bool, version: int)
      modifies this
      ensures Outcome(View(), completed) == Migrated(files, call, old(View()))
      ensures completed ==> version == Current(rows)
    {
      version := Current(rows);
      if files == [] { return true, version; }
      var target := Target(files, call);
      if version == target { return true, version; }
      if version < target {
        var i := 0;
        while i < |files|
          invariant 0 <= i <= |files|
          invariant Upgrade(files, 0, version, target, call.failing, old(View())) == Upgrade(files, i, version, target, call.failing, View())
        {
          if version < files[i].version <= target {
            var ok := ApplyMigration(files[i], call.failing);
            if !ok { return false, version; }
          }
          i := i + 1;
        }
      } else {
        var i := |files|;
        while i > 0
          invariant 0 <= i <= |files|
          invariant Downgrade(files, |files|, version, target, call.failing, old(View())) == Downgrade(files, i, version, target, call.failing, View())
        {
          i := i - 1;
          if target < files[i].version <= version {
            var ok := RevertMigration(files[i], call.failing);
            if !ok { return false, version; }
          }
        }
      }
      return true, Current(rows);
    }
  }
}
