/** The per-connection chat limiter (backend/internal/control/client.go): at most ten messages in any second. */
module RateLimiter {
  import opened Basics

  const MAX_PER_WINDOW := 10

  /** One second in the clock's unit, nanoseconds. */
  const WINDOW := 1_000_000_000

  // ---------------------------------------------------------------------------
  // Specification: the stamps kept, as a sequence

  /** The stamps after the cutoff. */
  ghost function Recent(stamps: seq<int>, cutoff: int): seq<int> {
    if stamps == [] then []
    else Recent(stamps[..|stamps| - 1], cutoff) + if stamps[|stamps| - 1] > cutoff then [stamps[|stamps| - 1]] else []
  }

  ghost predicate Allowed(stamps: seq<int>, now: int) {
    |Recent(stamps, now - WINDOW)| < MAX_PER_WINDOW
  }

  ghost function Next(stamps: seq<int>, now: int): seq<int> {
    Recent(stamps, now - WINDOW) + if Allowed(stamps, now) then [now] else []
  }

  // ---------------------------------------------------------------------------
  // The code

  class Client {
    /** The backing array of msgTimestamps, whose capacity is never exceeded, and the slice's length. */
    const backing: array<int>
    var count: nat

    ghost predicate Valid()
      reads this, backing
    {
      backing.Length == 16 && count <= MAX_PER_WINDOW
    }

    ghost function Stamps(): seq<int>
      requires Valid()
      reads this, backing
    {
      backing[..count]
    }

    constructor ()
      ensures Valid() && Stamps() == [] && fresh(backing)
    {
      backing := new int[16];
      count := 0;
    }

    /** Filters the stamps into the front of their own backing array, then admits the message if there is room. */
    method AllowMessage(now: int) returns (ok: bool)
      requires Valid()
      modifies this, backing
      ensures Valid()
      ensures ok == Allowed(old(Stamps()), now)
      ensures Stamps() == Next(old(Stamps()), now)
    {
      ghost var stamps := Stamps();
      var cutoff, n, valid := now - WINDOW, count, 0;
      for i := 0 to n
        invariant valid <= i && count == n
        invariant backing[..valid] == Recent(stamps[..i], cutoff)
        invariant forall k :: i <= k < n ==> backing[k] == stamps[k]
      {
        var t := backing[i];
        assert stamps[..i + 1][..i] == stamps[..i];
        if t > cutoff {
          backing[valid] := t;
          assert backing[..valid + 1] == Recent(stamps[..i], cutoff) + [t];
          valid := valid + 1;
        }
      }
      assert stamps[..n] == stamps;
      count := valid;
      if count >= MAX_PER_WINDOW {
        return false;
      }
      backing[count] := now;
      count := count + 1;
      return true;
    }
  }

  // ---------------------------------------------------------------------------
  // Whole runs.  stamps[i] is what is kept before the i-th message, which arrives at clock[i].

  ghost predicate Nondecreasing(xs: seq<int>) {
    forall i, j :: 0 <= i < j < |xs| ==> xs[i] <= xs[j]
  }

  ghost predicate Run(stamps: seq<seq<int>>, clock: seq<int>) {
    && |stamps| == |clock| + 1
    && stamps[0] == []
    && forall i :: 0 <= i < |clock| ==> stamps[i + 1] == Next(stamps[i], clock[i])
  }

  /** The times of the messages accepted among the first n. */
  ghost function Accepted(stamps: seq<seq<int>>, clock: seq<int>, n: nat): seq<int>
    requires |stamps| == |clock| + 1 && n <= |clock|
  {
    if n == 0 then []
    else Accepted(stamps, clock, n - 1) + if Allowed(stamps[n - 1], clock[n - 1]) then [clock[n - 1]] else []
  }

  lemma {:induction false} RecentOfAppend(a: seq<int>, b: seq<int>, cutoff: int)
    ensures Recent(a + b, cutoff) == Recent(a, cutoff) + Recent(b, cutoff)
  {
    if b == [] {
      assert a + b == a;
    } else {
      var front := b[..|b| - 1];
      assert (a + b)[..|a + b| - 1] == a + front;
      RecentOfAppend(a, front, cutoff);
    }
  }

  /** Filtering by a later cutoff makes an earlier filtering unobservable. */
  lemma {:induction false} RecentOfRecent(a: seq<int>, early: int, late: int)
    requires early <= late
    ensures Recent(Recent(a, early), late) == Recent(a, late)
  {
    if a == [] {
    } else {
      var front, last := a[..|a| - 1], a[|a| - 1];
      RecentOfRecent(front, early, late);
      var kept := if last > early then [last] else [];
      assert Recent(kept, late) == if last > late then [last] else [] by {
        assert kept[..|kept|] == kept;
        if last > early { assert [last][..0] == []; }
      }
      RecentOfAppend(Recent(front, early), kept, late);
    }
  }

  lemma {:induction false} AllRecent(a: seq<int>, cutoff: int)
    requires forall i :: 0 <= i < |a| ==> a[i] > cutoff
    ensures Recent(a, cutoff) == a
  {
    if a == [] {
    } else {
      AllRecent(a[..|a| - 1], cutoff);
    }
  }

  lemma {:induction false} NoneRecent(a: seq<int>, cutoff: int)
    requires forall i :: 0 <= i < |a| ==> a[i] <= cutoff
    ensures Recent(a, cutoff) == []
  {
    if a == [] {
    } else {
      NoneRecent(a[..|a| - 1], cutoff);
    }
  }

  lemma {:induction false} RecentShorter(a: seq<int>, cutoff: int)
    ensures |Recent(a, cutoff)| <= |a|
  {
    if a == [] {
    } else {
      RecentShorter(a[..|a| - 1], cutoff);
    }
  }

  /** In sorted stamps, ten are recent exactly when the tenth from the end is. */
  lemma TenRecent(a: seq<int>, cutoff: int)
    requires Nondecreasing(a)
    ensures |Recent(a, cutoff)| >= MAX_PER_WINDOW <==>
      |a| >= MAX_PER_WINDOW && a[|a| - MAX_PER_WINDOW] > cutoff
  {
    RecentShorter(a, cutoff);
    if |a| >= MAX_PER_WINDOW {
      var m := |a| - MAX_PER_WINDOW;
      if a[m] > cutoff {
        assert a == a[..m] + a[m..];
        RecentOfAppend(a[..m], a[m..], cutoff);
        AllRecent(a[m..], cutoff);
      } else {
        assert a == a[..m + 1] + a[m + 1..];
        RecentOfAppend(a[..m + 1], a[m + 1..], cutoff);
        NoneRecent(a[..m + 1], cutoff);
        RecentShorter(a[m + 1..], cutoff);
      }
    }
  }

  lemma {:induction false} AcceptedSorted(stamps: seq<seq<int>>, clock: seq<int>, n: nat)
    requires |stamps| == |clock| + 1 && Nondecreasing(clock) && n <= |clock|
    ensures Nondecreasing(Accepted(stamps, clock, n))
    ensures forall k :: 0 <= k < |Accepted(stamps, clock, n)| ==>
      exists i :: 0 <= i < n && Accepted(stamps, clock, n)[k] == clock[i]
  {
    if n == 0 {
    } else {
      AcceptedSorted(stamps, clock, n - 1);
      var before, all := Accepted(stamps, clock, n - 1), Accepted(stamps, clock, n);
      forall k | 0 <= k < |all| ensures exists i :: 0 <= i < n && all[k] == clock[i] {
        if k < |before| {
          var i :| 0 <= i < n - 1 && before[k] == clock[i];
        } else {
          assert all[k] == clock[n - 1];
        }
      }
    }
  }

  lemma KeptStep(kept: seq<int>, accepted: seq<int>, now: int, cutoff: int)
    requires Recent(kept, cutoff) == Recent(accepted, cutoff) && now - WINDOW <= cutoff
    ensures Recent(Next(kept, now), cutoff) == Recent(accepted + if Allowed(kept, now) then [now] else [], cutoff)
  {
    var extra := if Allowed(kept, now) then [now] else [];
    RecentOfAppend(Recent(kept, now - WINDOW), extra, cutoff);
    RecentOfRecent(kept, now - WINDOW, cutoff);
    RecentOfAppend(accepted, extra, cutoff);
  }

  /** What was forgotten does not matter: from the latest cutoff on, the kept stamps and all accepted ones look alike. */
  lemma {:induction false} KeptIsEnough(stamps: seq<seq<int>>, clock: seq<int>, n: nat, cutoff: int)
    requires Run(stamps, clock) && Nondecreasing(clock) && n <= |clock|
    requires n > 0 ==> clock[n - 1] - WINDOW <= cutoff
    ensures Recent(stamps[n], cutoff) == Recent(Accepted(stamps, clock, n), cutoff)
  {
    if n == 0 {
    } else {
      KeptIsEnough(stamps, clock, n - 1, cutoff);
      KeptStep(stamps[n - 1], Accepted(stamps, clock, n - 1), clock[n - 1], cutoff);
    }
  }

  /**
  For any nondecreasing clock a message is refused exactly when the tenth latest accepted message is less than a
  second old.
  */
  lemma RefusedExactly(stamps: seq<seq<int>>, clock: seq<int>, n: nat)
    requires Run(stamps, clock) && Nondecreasing(clock) && n < |clock|
    ensures var accepted := Accepted(stamps, clock, n);
      Allowed(stamps[n], clock[n]) <==>
        !(|accepted| >= MAX_PER_WINDOW && accepted[|accepted| - MAX_PER_WINDOW] > clock[n] - WINDOW)
  {
    KeptIsEnough(stamps, clock, n, clock[n] - WINDOW);
    AcceptedSorted(stamps, clock, n);
    TenRecent(Accepted(stamps, clock, n), clock[n] - WINDOW);
  }

  /** The tenth accepted message after any accepted one comes at least a second later. */
  lemma {:induction false} AcceptedSpacing(stamps: seq<seq<int>>, clock: seq<int>, n: nat, k: nat)
    requires Run(stamps, clock) && Nondecreasing(clock) && n <= |clock|
    requires k + MAX_PER_WINDOW < |Accepted(stamps, clock, n)|
    ensures var accepted := Accepted(stamps, clock, n); accepted[k + MAX_PER_WINDOW] - accepted[k] >= WINDOW
  {
    var before := Accepted(stamps, clock, n - 1);
    if k + MAX_PER_WINDOW < |before| {
      AcceptedSpacing(stamps, clock, n - 1, k);
    } else {
      RefusedExactly(stamps, clock, n - 1);
    }
  }
}
