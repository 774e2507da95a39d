/** Counting over a moving time window. Both limiters of the system (quiz attempts and
    failed logins) admit an event when too few earlier ones lie inside the window. */
module SlidingWindow {
  /** How many of the recorded times are later than `cut`. */
  function CountAfter(times: seq<int>, cut: int): nat {
    if times == [] then 0
    else CountAfter(times[..|times| - 1], cut) + (if times[|times| - 1] > cut then 1 else 0)
  }

  /** How many of the recorded times lie in the interval (low, high]. */
  function CountIn(times: seq<int>, low: int, high: int): nat {
    if times == [] then 0
    else CountIn(times[..|times| - 1], low, high) + (if low < times[|times| - 1] <= high then 1 else 0)
  }

  ghost predicate AdmittedAt(times: seq<int>, window: int, limit: nat, i: nat)
    requires i < |times|
  {
    CountAfter(times[..i], times[i] - window) < limit
  }

  /** Every event was recorded while fewer than `limit` earlier ones lay in its own window. */
  ghost predicate Admitted(times: seq<int>, window: int, limit: nat) {
    forall i :: 0 <= i < |times| ==> AdmittedAt(times, window, limit, i)
  }

  lemma {:induction false} CountInAtMostAfter(times: seq<int>, low: int, high: int, cut: int)
    requires cut <= low
    ensures CountIn(times, low, high) <= CountAfter(times, cut)
  {
    if times != [] {
      CountInAtMostAfter(times[..|times| - 1], low, high, cut);
    }
  }

  lemma {:induction false} CountAfterMonotone(times: seq<int>, cut: int, earlier: int)
    requires earlier <= cut
    ensures CountAfter(times, cut) <= CountAfter(times, earlier)
  {
    if times != [] {
      CountAfterMonotone(times[..|times| - 1], cut, earlier);
    }
  }

  /** The limit holds for every window position, not only for those that end at an event. */
  lemma {:induction false} WindowBound(times: seq<int>, window: int, limit: nat, t: int)
    requires Admitted(times, window, limit)
    ensures CountIn(times, t - window, t) <= limit
  {
    if times != [] {
      var init, last := times[..|times| - 1], times[|times| - 1];
      forall i | 0 <= i < |init| ensures AdmittedAt(init, window, limit, i) {
        assert AdmittedAt(times, window, limit, i);
        assert init[..i] == times[..i];
      }
      assert AdmittedAt(times, window, limit, |times| - 1);
      if t - window < last <= t {
        CountInAtMostAfter(init, t - window, t, last - window);
      } else {
        WindowBound(init, window, limit, t);
      }
    }
  }

  lemma AdmittedAppend(times: seq<int>, time: int, window: int, limit: nat)
    requires Admitted(times, window, limit)
    requires CountAfter(times, time - window) < limit
    ensures Admitted(times + [time], window, limit)
  {
    var all := times + [time];
    forall i | 0 <= i < |all| ensures AdmittedAt(all, window, limit, i) {
      if i < |times| {
        assert AdmittedAt(times, window, limit, i);
        assert all[..i] == times[..i] && all[i] == times[i];
      } else {
        assert all[..i] == times && all[i] == time;
      }
    }
  }

  /** Moving the cut up to a recorded time drops at least that event. */
  lemma {:induction false} CountAfterDrops(times: seq<int>, cut: int, later: int, k: nat)
    requires k < |times| && cut < times[k] <= later
    ensures CountAfter(times, later) < CountAfter(times, cut)
  {
    var init := times[..|times| - 1];
    if k < |init| {
      CountAfterDrops(init, cut, later, k);
    } else {
      CountAfterMonotone(init, later, cut);
    }
  }

  lemma CountAfterMore(times: seq<int>, time: int, cut: int)
    ensures CountAfter(times + [time], cut) == CountAfter(times, cut) + (if time > cut then 1 else 0)
  {
    assert (times + [time])[..|times|] == times;
  }

  lemma CountInMore(times: seq<int>, time: int, low: int, high: int)
    ensures CountIn(times + [time], low, high) == CountIn(times, low, high) + (if low < time <= high then 1 else 0)
  {
    assert (times + [time])[..|times|] == times;
  }

  /** Several events at one moment. */
  function Same(time: int, n: nat): (times: seq<int>)
    ensures |times| == n
  {
    if n == 0 then [] else Same(time, n - 1) + [time]
  }

  lemma {:induction false} CountSame(time: int, n: nat, low: int, high: int)
    ensures CountAfter(Same(time, n), low) == if time > low then n else 0
    ensures CountIn(Same(time, n), low, high) == if low < time <= high then n else 0
  {
    if n > 0 {
      CountSame(time, n - 1, low, high);
      CountAfterMore(Same(time, n - 1), time, low);
      CountInMore(Same(time, n - 1), time, low, high);
    }
  }
}
