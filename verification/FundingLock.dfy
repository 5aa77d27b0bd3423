/**
 The per-user lock around deposits, withdrawals and wallet transfers: `SET NX EX 600` when a
 request arrives, an unconditional delete when its background job ends.
 */
module FundingLock {
  import opened Common

  const LOCK_TTL: real := 600.0

  type User = string
  type JobId = nat

  datatype Direction = Deposit | Withdraw | WalletTransfer

  /** An operation is in progress from the moment its lock is granted until its delete. */
  datatype Job = Job(user: User, direction: Direction, since: real, inserted: bool)

  /** An entry of the store; past its deadline it no longer exists for readers. */
  datatype Lock = Lock(job: JobId, deadline: real)

  datatype State = State(locks: map<User, Lock>, jobs: map<JobId, Job>, next: JobId)

  const START := State(map[], map[], 0)

  /** `deleted` is false when the store refused the delete, an error the code ignores. */
  datatype Event =
    | Request(at: real, user: User, direction: Direction)
    | InsertRow(at: real, job: JobId, ok: bool, deleted: bool)
    | Finish(at: real, job: JobId, deleted: bool)

  predicate Held(s: State, user: User, now: real) {
    user in s.locks && now < s.locks[user].deadline
  }

  function End(s: State, job: JobId, deleted: bool): State
    requires job in s.jobs
  {
    s.(jobs := s.jobs - {job}, locks := if deleted then s.locks - {s.jobs[job].user} else s.locks)
  }

  function Step(s: State, e: Event): State {
    match e
    case Request(at, user, direction) =>
      if Held(s, user, at) then s
      else State(s.locks[user := Lock(s.next, at + LOCK_TTL)], s.jobs[s.next := Job(user, direction, at, false)], s.next + 1)
    case InsertRow(_, job, ok, deleted) =>
      if job !in s.jobs || s.jobs[job].inserted then s
      else if ok then s.(jobs := s.jobs[job := s.jobs[job].(inserted := true)])
      else End(s, job, deleted)
    case Finish(_, job, deleted) =>
      if job !in s.jobs || !s.jobs[job].inserted then s else End(s, job, deleted)
  }

  function After(es: seq<Event>, n: nat): State
    requires n <= |es|
  {
    if n == 0 then START else Step(After(es, n - 1), es[n - 1])
  }

  lemma Unfold(es: seq<Event>, n: nat)
    requires n <= |es|
    ensures After(es, n) == if n == 0 then START else Step(After(es, n - 1), es[n - 1])
  {
  }

  // ------------------------------------------------------------------ what can be asked of a run

  predicate Exclusive(s: State) {
    forall j, k :: j in s.jobs && k in s.jobs && s.jobs[j].user == s.jobs[k].user ==> j == k
  }

  predicate Overdue(job: Job, now: real) { now >= job.since + 600.0 }

  /** A request arrives while an operation of the same user has outlived its lock. */
  predicate RequestDuringOverrun(s: State, e: Event) {
    e.Request? && exists j :: j in s.jobs && s.jobs[j].user == e.user && Overdue(s.jobs[j], e.at)
  }

  predicate AlwaysExclusive(es: seq<Event>, n: nat)
    requires n <= |es|
  {
    Exclusive(After(es, n)) && (n > 0 ==> AlwaysExclusive(es, n - 1))
  }

  predicate Orderly(es: seq<Event>, n: nat)
    requires n <= |es|
  {
    n > 0 ==> !RequestDuringOverrun(After(es, n - 1), es[n - 1]) && Orderly(es, n - 1)
  }

  /** No operation is still in progress 600 s after it was granted, at any of the first `n` events of the run. */
  predicate Prompt(es: seq<Event>, n: nat)
    requires n <= |es|
  {
    n > 0 ==> NoneOverdue(After(es, n - 1), es[n - 1].at) && Prompt(es, n - 1)
  }

  predicate NoneOverdue(s: State, now: real) {
    forall j :: j in s.jobs ==> !Overdue(s.jobs[j], now)
  }

  /** The event would delete a lock that another operation placed. */
  predicate DeletesForeign(s: State, e: Event) {
    && !e.Request? && e.deleted && e.job in s.jobs
    && (if e.InsertRow? then !e.ok && !s.jobs[e.job].inserted else s.jobs[e.job].inserted)
    && s.jobs[e.job].user in s.locks && s.locks[s.jobs[e.job].user].job != e.job
  }

  predicate NoForeignDelete(es: seq<Event>, n: nat)
    requires n <= |es|
  {
    n > 0 ==> !DeletesForeign(After(es, n - 1), es[n - 1]) && NoForeignDelete(es, n - 1)
  }

  // ------------------------------------------------------------------ the invariant

  /** Every operation in progress still owns its user's entry, expired or not. */
  predicate Owns(s: State) {
    && (forall j :: j in s.jobs ==> j < s.next)
    && (forall j :: j in s.jobs ==>
          && s.jobs[j].user in s.locks
          && s.locks[s.jobs[j].user] == Lock(j, s.jobs[j].since + LOCK_TTL))
  }

  lemma OwnsKept(s: State, e: Event)
    requires Owns(s) && !RequestDuringOverrun(s, e)
    ensures Owns(Step(s, e)) && !DeletesForeign(s, e)
  {
  }

  lemma {:induction false} OwnsOnRun(es: seq<Event>, n: nat)
    requires n <= |es| && Orderly(es, n)
    ensures Owns(After(es, n))
  {
    assert Owns(START);
    hide Step, Owns, RequestDuringOverrun, After;
    Unfold(es, n);
    if n > 0 {
      OwnsOnRun(es, n - 1);
      OwnsKept(After(es, n - 1), es[n - 1]);
    }
  }

  lemma OwnersExclude(s: State)
    requires Owns(s)
    ensures Exclusive(s)
  {
  }

  // ------------------------------------------------------------------ main results

  lemma {:induction false} OrderlyIsSafe(es: seq<Event>, n: nat)
    requires n <= |es| && Orderly(es, n)
    ensures AlwaysExclusive(es, n) && NoForeignDelete(es, n)
  {
    OwnsOnRun(es, n);
    hide After, Owns, Exclusive, RequestDuringOverrun, DeletesForeign;
    OwnersExclude(After(es, n));
    if n > 0 {
      OrderlyIsSafe(es, n - 1);
      OwnsOnRun(es, n - 1);
      OwnsKept(After(es, n - 1), es[n - 1]);
    }
  }

  lemma {:induction false} PromptIsOrderly(es: seq<Event>, n: nat)
    requires n <= |es| && Prompt(es, n)
    ensures Orderly(es, n)
  {
    hide After;
    if n > 0 {
      PromptIsOrderly(es, n - 1);
    }
  }

  /** When no operation outlives its lock there is at most one per user at every moment, and nobody deletes another's lock. */
  lemma {:induction false} PromptRunsAreSafe(es: seq<Event>)
    requires Prompt(es, |es|)
    ensures AlwaysExclusive(es, |es|) && NoForeignDelete(es, |es|)
  {
    PromptIsOrderly(es, |es|);
    OrderlyIsSafe(es, |es|);
  }

  /** The run keeps one operation per user exactly when no request arrives during an overrun of that user. */
  lemma {:induction false} ExclusiveExactly(es: seq<Event>)
    ensures AlwaysExclusive(es, |es|) <==> Orderly(es, |es|)
  {
    if Orderly(es, |es|) {
      OrderlyIsSafe(es, |es|);
    }
    if AlwaysExclusive(es, |es|) {
      ExclusiveIsOrderly(es, |es|);
    }
  }

  lemma {:induction false} ExclusiveIsOrderly(es: seq<Event>, n: nat)
    requires n <= |es|
    requires AlwaysExclusive(es, n)
    ensures Orderly(es, n)
  {
    hide Step, Owns, Exclusive, RequestDuringOverrun, After;
    if n > 0 {
      Unfold(es, n);
      ExclusiveIsOrderly(es, n - 1);
      OwnsOnRun(es, n - 1);
      if RequestDuringOverrun(After(es, n - 1), es[n - 1]) {
        OverrunIsGranted(After(es, n - 1), es[n - 1]);
      }
    }
  }

  lemma {:induction false} OverrunIsGranted(s: State, e: Event)
    requires Owns(s) && RequestDuringOverrun(s, e)
    ensures !Exclusive(Step(s, e))
  {
    var j :| j in s.jobs && s.jobs[j].user == e.user && Overdue(s.jobs[j], e.at);
    var t := Step(s, e);
    assert j in t.jobs && s.next in t.jobs && t.jobs[j].user == t.jobs[s.next].user;
  }

  /** After an orderly run a request is turned away exactly while an entry of its user is under 600 s old. */
  lemma {:induction false} GrantedExactly(es: seq<Event>, at: real, user: User, direction: Direction)
    requires Orderly(es, |es|)
    ensures var s := After(es, |es|);
            var granted := s.next in Step(s, Request(at, user, direction)).jobs;
            && (granted <==> !Held(s, user, at))
            && (forall j :: j in s.jobs && s.jobs[j].user == user ==> (granted <==> Overdue(s.jobs[j], at)))
  {
    OwnsOnRun(es, |es|);
  }

  predicate Granted(s: State, user: User, at: real) { forall direction :: Step(s, Request(at, user, direction)) != s }

  lemma {:induction false} GrantedMeans(s: State, user: User, at: real)
    ensures Granted(s, user, at) <==> (user in s.locks ==> at >= s.locks[user].deadline)
  {
    if Held(s, user, at) {
      assert Step(s, Request(at, user, Deposit)) == s;
    } else {
      forall direction ensures Step(s, Request(at, user, direction)) != s {
        assert Step(s, Request(at, user, direction)).next != s.next;
      }
    }
  }

  /** From any state a granted request becomes one new operation, and shuts its user out for exactly 600 s while nothing ends; other users do not notice. */
  lemma {:induction false} GrantLasts(s: State, user: User, direction: Direction, at: real, other: User, later: real)
    requires Granted(s, user, at)
    ensures var t := Step(s, Request(at, user, direction));
            && t.jobs == s.jobs[s.next := Job(user, direction, at, false)]
            && (Granted(t, user, later) <==> later - at >= 600.0)
            && (other != user ==> (Granted(t, other, later) <==> Granted(s, other, later)))
  {
    var t := Step(s, Request(at, user, direction));
    GrantedMeans(s, user, at);
    GrantedMeans(t, user, later);
    GrantedMeans(s, other, later);
    GrantedMeans(t, other, later);
    hide Granted;
  }

  /** The end of operation `job`: its row could not be inserted, or its row was there and it finished. */
  predicate Ends(s: State, e: Event) {
    && !e.Request? && e.job in s.jobs
    && match e
       case InsertRow(_, job, ok, _) => !ok && !s.jobs[job].inserted
       case Finish(_, job, _) => s.jobs[job].inserted
  }

  /**
   From any state: the end takes this operation away and no other.  When its delete went through,
   its user's next request is granted at any time; when it did not, exactly as before; other users
   do not notice either way.  Any other insert or finish leaves every lock as it was.
   */
  lemma {:induction false} EndFreesUser(s: State, e: Event, user: User, at: real)
    requires !e.Request?
    ensures var t := Step(s, e);
            && t.jobs.Keys == s.jobs.Keys - (if Ends(s, e) then {e.job} else {})
            && (forall j :: j in t.jobs ==> t.jobs[j].user == s.jobs[j].user && t.jobs[j].since == s.jobs[j].since)
            && (Granted(t, user, at) <==> Granted(s, user, at) || (Ends(s, e) && e.deleted && s.jobs[e.job].user == user))
  {
    GrantedMeans(s, user, at);
    GrantedMeans(Step(s, e), user, at);
    hide Granted;
  }

  /** One overrun spoils more than itself: its late delete lets a third operation in beside a prompt second one. */
  lemma {:induction false} OverrunCascades(user: User)
    ensures exists es: seq<Event>, second: JobId, third: JobId :: second != third
                 && var s := After(es, |es|);
                    && second in s.jobs && third in s.jobs && s.jobs[second].user == s.jobs[third].user == user
                    && (forall i :: 0 <= i < |es| ==> es[i].at <= 602.0)
                    && !Overdue(s.jobs[second], 602.0) && !Overdue(s.jobs[third], 602.0)
  {
    var first, inserted := Request(0.0, user, Deposit), InsertRow(1.0, 0, true, false);
    var second, late, third := Request(600.0, user, Withdraw), Finish(601.0, 0, true), Request(602.0, user, WalletTransfer);
    var es := [first, inserted, second, late, third];
    var s1 := State(map[user := Lock(0, 600.0)], map[0 := Job(user, Deposit, 0.0, false)], 1);
    assert After(es, 1) == s1;
    var s2 := s1.(jobs := map[0 := Job(user, Deposit, 0.0, true)]);
    assert After(es, 2) == s2;
    var s3 := State(map[user := Lock(1, 1200.0)], s2.jobs[1 := Job(user, Withdraw, 600.0, false)], 2);
    assert After(es, 3) == s3;
    var s4 := State(map[], map[1 := Job(user, Withdraw, 600.0, false)], 2);
    assert After(es, 4) == s4;
    var s5 := State(map[user := Lock(2, 1202.0)], s4.jobs[2 := Job(user, WalletTransfer, 602.0, false)], 3);
    assert After(es, 5) == s5;
    assert 1 in s5.jobs && 2 in s5.jobs;
  }

  // ------------------------------------------------------------------ the endpoints and their jobs

  class FundingService {
    var locks: map<User, Lock>
    var jobs: map<JobId, Job>
    var next: JobId

    constructor ()
      ensures View() == START
    {
      locks, jobs, next := map[], map[], 0;
    }

    function View(): State
      reads this
    {
      State(locks, jobs, next)
    }

    /** `None` stands for the 409 response. */
    method Submit(at: real, user: User, direction: Direction) returns (job: Option<JobId>)
      modifies this
      ensures View() == Step(old(View()), Request(at, user, direction))
      ensures job == if Held(old(View()), user, at) then None else Some(old(next))
    {
      var id := next;
      if user in locks && at < locks[user].deadline {
        return None;
      }
      locks := locks[user := Lock(id, at + LOCK_TTL)];
      jobs := jobs[id := Job(user, direction, at, false)];
      next := next + 1;
      return Some(id);
    }

    method CreateRow(at: real, job: JobId, ok: bool, deleted: bool)
      modifies this
      ensures View() == Step(old(View()), InsertRow(at, job, ok, deleted))
    {
      if job in jobs && !jobs[job].inserted {
        if ok {
          jobs := jobs[job := jobs[job].(inserted := true)];
        } else {
          Release(job, deleted);
        }
      }
    }

    method FinishJob(at: real, job: JobId, deleted: bool)
      modifies this
      ensures View() == Step(old(View()), Finish(at, job, deleted))
    {
      if job in jobs && jobs[job].inserted {
        Release(job, deleted);
      }
    }

    method Release(job: JobId, deleted: bool)
      requires job in jobs
      modifies this
      ensures View() == End(old(View()), job, deleted)
    {
      if deleted {
        locks := locks - {jobs[job].user};
      }
      jobs := jobs - {job};
    }
  }
}
