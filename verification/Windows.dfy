/** Sliding windows over lists of times, shared by the trackers that keep one. */
module Windows {
  /** The times later than `start`, in their order. */
  function Recent(times: seq<real>, start: real): seq<real> {
    if times == [] then []
    else
      var last := times[|times| - 1];
      Recent(times[..|times| - 1], start) + if last > start then [last] else []
  }

  lemma {:induction false} RecentAppend(a: seq<real>, b: seq<real>, start: real)
    ensures Recent(a + b, start) == Recent(a, start) + Recent(b, start)
  {
    if b == [] {
      assert a + b == a;
    } else {
      assert (a + b)[..|a + b| - 1] == a + b[..|b| - 1];
      RecentAppend(a, b[..|b| - 1], start);
    }
  }

  lemma RecentOne(t: real, start: real)
    ensures Recent([t], start) == if t > start then [t] else []
  {
  }

  lemma {:induction false} RecentTwice(times: seq<real>, early: real, late: real)
    requires early <= late
    ensures Recent(Recent(times, early), late) == Recent(times, late)
  {
    if times != [] {
      var before, last := times[..|times| - 1], times[|times| - 1];
      RecentTwice(before, early, late);
      RecentAppend(Recent(before, early), if last > early then [last] else [], late);
    }
  }

  lemma {:induction false} RecentIsShorter(times: seq<real>, start: real)
    ensures |Recent(times, start)| <= |times|
  {
    if times != [] {
      RecentIsShorter(times[..|times| - 1], start);
    }
  }

  /** In a sorted list the recent times are the last ones. */
  lemma {:induction false} RecentIsSuffix(times: seq<real>, start: real, k: nat)
    requires forall i, j :: 0 <= i < j < |times| ==> times[i] <= times[j]
    requires 0 < k
    ensures |Recent(times, start)| >= k <==> |times| >= k && times[|times| - k] > start
  {
    RecentIsShorter(times, start);
    if times != [] {
      var before := times[..|times| - 1];
      if k > 1 {
        RecentIsSuffix(before, start, k - 1);
      }
      if times[|times| - 1] <= start {
        NoneRecent(before, start);
      }
    }
  }

  lemma {:induction false} NoneRecent(times: seq<real>, start: real)
    requires forall i :: 0 <= i < |times| ==> times[i] <= start
    ensures Recent(times, start) == []
  {
    if times != [] {
      NoneRecent(times[..|times| - 1], start);
    }
  }
}
