/** The limiter of model requests: times are real numbers of seconds, read from a monotone clock. */
module RateLimiter {
  import Orders

  const WINDOW := 60.0
  const MARGIN := 0.1

  ghost predicate Ordered(grants: seq<real>) {
    forall i, j :: 0 <= i <= j < |grants| ==> InOrder(grants, i, j)
  }

  ghost predicate InOrder(grants: seq<real>, i: nat, j: nat)
    requires i <= j < |grants|
  {
    grants[i] <= grants[j]
  }

  /** Grant `j` comes at least a window after grant `j - n`. */
  ghost predicate Spaced(grants: seq<real>, n: nat) {
    forall j :: n <= j < |grants| ==> SpacedAt(grants, n, j)
  }

  ghost predicate SpacedAt(grants: seq<real>, n: nat, j: nat)
    requires n <= j < |grants|
  {
    grants[j] - grants[j - n] >= WINDOW
  }

  /** Fewer than `n` grants lie in the window that ends now. */
  predicate Open(grants: seq<real>, n: nat, now: real)
    requires n >= 1
  {
    |grants| < n || now - grants[|grants| - n] >= WINDOW
  }

  /** When the next request is granted: at once, or a window after the `n`-th last grant. */
  function NextGrant(grants: seq<real>, n: nat, now: real, lateness: real): real
    requires n >= 1
  {
    (if Open(grants, n, now) then now else grants[|grants| - n] + WINDOW + MARGIN) + lateness
  }

  lemma NextIsSpaced(grants: seq<real>, n: nat, now: real, lateness: real)
    requires n >= 1 && lateness >= 0.0 && Ordered(grants) && Spaced(grants, n)
    requires grants == [] || grants[|grants| - 1] <= now
    ensures var t := NextGrant(grants, n, now, lateness);
      t >= now && Ordered(grants + [t]) && Spaced(grants + [t], n)
  {
    var t := NextGrant(grants, n, now, lateness);
    var all := grants + [t];
    forall i, j | 0 <= i <= j < |all| ensures InOrder(all, i, j) {
      if j < |grants| {
        assert InOrder(grants, i, j);
      } else if i < |grants| {
        assert InOrder(grants, i, |grants| - 1);
      }
    }
    forall j | n <= j < |all| ensures SpacedAt(all, n, j) {
      if j < |grants| {
        assert SpacedAt(grants, n, j);
      }
    }
  }

  /** Python's `[t for t in times if now - t < 60]`. */
  function Pruned(times: seq<real>, now: real): seq<real> {
    if times == [] then []
    else if now - times[0] < WINDOW then [times[0]] + Pruned(times[1..], now)
    else Pruned(times[1..], now)
  }

  /** On ordered times pruning drops a prefix: exactly the expired entries. */
  lemma {:induction false} PrunedIsSuffix(times: seq<real>, now: real) returns (k: nat)
    requires Ordered(times)
    ensures k <= |times| && Pruned(times, now) == times[k..]
    ensures Expired(times, k, now)
    ensures forall i :: k <= i < |times| ==> now - times[i] < WINDOW
  {
    if times == [] {
      k := 0;
    } else {
      forall i, j | 0 <= i <= j < |times[1..]| ensures InOrder(times[1..], i, j) {
        assert InOrder(times, i + 1, j + 1);
      }
      var rest := PrunedIsSuffix(times[1..], now);
      if rest > 0 {
        assert now - times[1..][0] >= WINDOW && InOrder(times, 0, 1);
      }
      if now - times[0] < WINDOW {
        k := 0;
      } else {
        k := rest + 1;
        assert forall i :: 0 < i < k ==> times[i] == times[1..][i - 1];
        assert forall i :: k <= i < |times| ==> times[i] == times[1..][i - 1];
      }
    }
  }

  /** The grants in the minute that begins at `a`. */
  ghost function Within(grants: seq<real>, a: real): set<int> {
    set i | 0 <= i < |grants| && a <= grants[i] < a + 60.0
  }

  ghost function Range(lo: int, hi: int): (r: set<int>)
    requires lo <= hi
    ensures |r| == hi - lo && forall i :: i in r <==> lo <= i < hi
    decreases hi - lo
  {
    if lo == hi then {} else Range(lo, hi - 1) + {hi - 1}
  }

  lemma LeastIndex(s: set<int>, from: int, x: int) returns (lo: int)
    requires from <= x && x in s && forall i :: i in s ==> from <= i
    ensures lo in s && forall i :: i in s ==> lo <= i
    decreases x - from
  {
    if from in s {
      lo := from;
    } else {
      lo := LeastIndex(s, from + 1, x);
    }
  }

  /** The limit the class is named for: no window of sixty seconds, wherever it begins, holds more than
      `n` grants. */
  lemma WindowHoldsAtMost(grants: seq<real>, n: nat, a: real)
    requires n >= 1 && Ordered(grants) && Spaced(grants, n)
    ensures |Within(grants, a)| <= n
  {
    var within := Within(grants, a);
    if x :| x in within {
      var lo := LeastIndex(within, 0, x);
      forall i | lo + n <= i < |grants| ensures grants[i] >= a + WINDOW {
        assert SpacedAt(grants, n, lo + n) && InOrder(grants, lo + n, i);
      }
      assert within <= Range(lo, lo + n);
      Orders.SubsetCard(within, Range(lo, lo + n));
    } else {
      assert within == {};
    }
  }

  /** A request waits only when it must: it is delayed exactly when the window that ends now is full. */
  lemma OpenIffWindowHasRoom(grants: seq<real>, n: nat, now: real)
    requires n >= 1 && Ordered(grants) && (grants == [] || grants[|grants| - 1] <= now)
    ensures Open(grants, n, now) <==> |set i | 0 <= i < |grants| && now - grants[i] < 60.0| < n
  {
    var recent := set i | 0 <= i < |grants| && now - grants[i] < 60.0;
    var m := |grants|;
    if Open(grants, n, now) {
      var lo := if m < n then 0 else m - n + 1;
      forall i | 0 <= i < lo ensures now - grants[i] >= WINDOW {
        assert InOrder(grants, i, m - n);
      }
      assert recent <= Range(lo, m);
      Orders.SubsetCard(recent, Range(lo, m));
    } else {
      forall i | m - n <= i < m ensures i in recent {
        assert InOrder(grants, m - n, i);
      }
      assert Range(m - n, m) <= recent;
      Orders.SubsetCard(Range(m - n, m), recent);
    }
  }

  /** The grant comes at once when fewer than `n` lie in the last minute, otherwise a minute and a tenth after
      the `n`-th last, plus what passes until the clock is read again. */
  lemma GrantTells(grants: seq<real>, n: nat, now: real, lateness: real)
    requires n >= 1 && Ordered(grants) && (grants == [] || grants[|grants| - 1] <= now)
    ensures NextGrant(grants, n, now, lateness) ==
      if |set i | 0 <= i < |grants| && now - grants[i] < 60.0| < n then now + lateness
      else if |grants| >= n then grants[|grants| - n] + 60.1 + lateness else now
  {
    OpenIffWindowHasRoom(grants, n, now);
  }

  // ---------- Any sequence of calls ----------

  datatype Call = Call(now: real, lateness: real)

  function Granted(calls: seq<Call>, n: nat): seq<real>
    requires n >= 1
  {
    if calls == [] then []
    else
      var before, call := Granted(calls[..|calls| - 1], n), calls[|calls| - 1];
      before + [NextGrant(before, n, call.now, call.lateness)]
  }

  /** The clock never runs backwards and sleeps are never shorter than asked. */
  ghost predicate Monotone(calls: seq<Call>, n: nat)
    requires n >= 1
  {
    calls == [] ||
    (var init, call := calls[..|calls| - 1], calls[|calls| - 1];
     && Monotone(init, n) && call.lateness >= 0.0
     && (Granted(init, n) == [] || Last(Granted(init, n)) <= call.now))
  }

  /** Over every sequence of calls: no minute, wherever it begins, holds more than `n` grants. */
  lemma {:induction false} EveryMinuteIsLimited(calls: seq<Call>, n: nat, a: real)
    requires n >= 1 && Monotone(calls, n)
    ensures Ordered(Granted(calls, n)) && Spaced(Granted(calls, n), n)
    ensures |Within(Granted(calls, n), a)| <= n
  {
    if calls != [] {
      var init, call := calls[..|calls| - 1], calls[|calls| - 1];
      EveryMinuteIsLimited(init, n, a);
      NextIsSpaced(Granted(init, n), n, call.now, call.lateness);
    }
    WindowHoldsAtMost(Granted(calls, n), n, a);
  }

  // ---------- The list the code keeps ----------

  /** The list holds the latest grants, at most one more than the limit; at the given time all earlier
      ones have expired. */
  ghost predicate Tracks(times: seq<real>, grants: seq<real>, n: nat, asOf: real) {
    && |times| <= n + 1 && |times| <= |grants| && times == grants[|grants| - |times|..]
    && Expired(grants, |grants| - |times|, asOf)
  }

  ghost predicate Expired(grants: seq<real>, k: nat, asOf: real)
    requires k <= |grants|
  {
    forall i :: 0 <= i < k ==> asOf - grants[i] >= WINDOW
  }

  function Last(grants: seq<real>): real {
    if grants == [] then 0.0 else grants[|grants| - 1]
  }

  lemma DropTracks(times: seq<real>, grants: seq<real>, n: nat, now: real, k: nat)
    requires Tracks(times, grants, n, Last(grants)) && k <= |times| && (grants == [] || Last(grants) <= now)
    requires Expired(times, k, now)
    ensures Tracks(times[k..], grants, n, now)
  {
    var older := |grants| - |times|;
    DropExpired(grants, older, k, Last(grants), now);
    SliceOfSlice(grants, older, k);
  }

  lemma DropExpired(grants: seq<real>, older: nat, k: nat, last: real, now: real)
    requires older + k <= |grants| && (older > 0 ==> last <= now)
    requires Expired(grants, older, last) && Expired(grants[older..], k, now)
    ensures Expired(grants, older + k, now)
  {
    var times := grants[older..];
    forall i | 0 <= i < older + k ensures now - grants[i] >= WINDOW {
      if i >= older {
        assert times[i - older] == grants[i];
      }
    }
  }

  lemma SliceOfSlice<T>(s: seq<T>, a: nat, k: nat)
    requires a + k <= |s|
    ensures s[a..][k..] == s[a + k..]
  {
  }

  /** A list one longer than the limit begins with an expired entry. */
  lemma OverfullExpires(times: seq<real>, grants: seq<real>, n: nat, now: real)
    requires n >= 1 && Spaced(grants, n) && Tracks(times, grants, n, now) && |times| == n + 1 && Last(grants) <= now
    ensures now - times[0] >= WINDOW
  {
    assert SpacedAt(grants, n, |grants| - 1);
  }

  lemma LengthTellsOpen(times: seq<real>, grants: seq<real>, n: nat, now: real)
    requires n >= 1 && |times| <= n && Tracks(times, grants, n, now)
    requires forall i :: 0 <= i < |times| ==> now - times[i] < WINDOW
    ensures |times| < n <==> Open(grants, n, now)
    ensures |times| == n ==> times[0] == grants[|grants| - n]
  {
  }

  lemma TimesOrdered(times: seq<real>, grants: seq<real>, n: nat, asOf: real)
    requires Ordered(grants) && Tracks(times, grants, n, asOf)
    ensures Ordered(times)
  {
    var older := |grants| - |times|;
    forall i, j | 0 <= i <= j < |times| ensures InOrder(times, i, j) {
      assert InOrder(grants, older + i, older + j);
    }
  }

  /** The pruned list never exceeds the limit, although expired entries stay in it after a sleep, and its
      length tells whether the window is full. */
  lemma PruningTracks(times: seq<real>, grants: seq<real>, n: nat, now: real)
    requires n >= 1 && Ordered(grants) && Spaced(grants, n) && Tracks(times, grants, n, Last(grants))
    requires grants == [] || Last(grants) <= now
    ensures var pruned := Pruned(times, now);
      && |pruned| <= n && Tracks(pruned, grants, n, now)
      && (|pruned| < n <==> Open(grants, n, now))
      && (|pruned| == n ==> now - pruned[0] < WINDOW && pruned[0] == grants[|grants| - n])
  {
    TimesOrdered(times, grants, n, Last(grants));
    var k := PrunedIsSuffix(times, now);
    DropTracks(times, grants, n, now, k);
    var pruned := times[k..];
    assert forall i :: 0 <= i < |pruned| ==> now - pruned[i] < WINDOW;
    if |pruned| == n + 1 {
      OverfullExpires(pruned, grants, n, now);
    }
    LengthTellsOpen(pruned, grants, n, now);
  }

  lemma TracksSnoc(times: seq<real>, grants: seq<real>, n: nat, now: real, t: real)
    requires Tracks(times, grants, n, now) && |times| <= n && now <= t
    ensures Tracks(times + [t], grants + [t], n, t)
  {
    assert (grants + [t])[|grants| - |times|..] == times + [t];
  }

  /** The code's own arithmetic gives the next grant, and the list with it appended still tracks. */
  lemma AcquireStep(times: seq<real>, grants: seq<real>, n: nat, now: real, lateness: real)
    requires n >= 1 && Ordered(grants) && Spaced(grants, n) && Tracks(times, grants, n, Last(grants))
    requires lateness >= 0.0 && (grants == [] || Last(grants) <= now)
    ensures var pruned, t := Pruned(times, now), NextGrant(grants, n, now, lateness);
      && |pruned| <= n
      && (|pruned| == n ==> WINDOW - (now - pruned[0]) + MARGIN > 0.0
                            && t == now + (WINDOW - (now - pruned[0]) + MARGIN) + lateness)
      && (|pruned| < n ==> t == now + lateness)
      && Sound(pruned + [t], grants + [t], n)
  {
    NextIsSpaced(grants, n, now, lateness);
    PruningTracks(times, grants, n, now);
    TracksSnoc(Pruned(times, now), grants, n, now, NextGrant(grants, n, now, lateness));
  }

  ghost predicate Sound(times: seq<real>, grants: seq<real>, n: nat) {
    Ordered(grants) && Spaced(grants, n) && Tracks(times, grants, n, Last(grants))
  }

  class Limiter {
    const perMinute: int
    var times: seq<real>
    ghost var grants: seq<real>

    ghost predicate Valid()
      reads this
    {
      && (perMinute <= 0 ==> grants == times == [])
      && (perMinute >= 1 ==> Sound(times, grants, perMinute))
    }

    constructor (perMinute: int)
      ensures Valid() && this.perMinute == perMinute && grants == []
    {
      this.perMinute := perMinute;
      times, grants := [], [];
    }

    /** `now` is the first clock reading; the sleep lasts at least as long as asked, and `lateness` is
        what passes beyond that until the second reading. A limit of zero or less indexes an empty list. */
    method Acquire(now: real, lateness: real) returns (granted: bool)
      requires Valid() && lateness >= 0.0 && (grants == [] || Last(grants) <= now)
      modifies this
      ensures Valid()
      ensures granted <==> perMinute >= 1
      ensures grants ==
        if granted then old(grants) + [NextGrant(old(grants), perMinute, now, lateness)] else old(grants)
    {
      if perMinute >= 1 {
        AcquireStep(times, grants, perMinute, now, lateness);
      }
      times := Pruned(times, now);
      var clock := now;
      if |times| >= perMinute {
        if times == [] {
          return false;
        }
        var wait := WINDOW - (now - times[0]) + MARGIN;
        if wait > 0.0 {
          clock := clock + wait;
        }
      }
      clock := clock + lateness;
      times := times + [clock];
      grants := grants + [clock];
      return true;
    }
  }
}
