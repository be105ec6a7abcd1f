/** Doing one step again and again, and following a partial step until it stops. */
module Iteration {
  import opened Wrappers
  import opened Counting

  function Iterate<T>(f: T -> T, x: T, n: nat): T {
    if n == 0 then x else f(Iterate(f, x, n - 1))
  }

  lemma {:induction false} IterateJoin<T>(f: T -> T, x: T, m: nat, n: nat)
    ensures Iterate(f, x, m + n) == Iterate(f, Iterate(f, x, m), n)
  {
    if n > 0 { IterateJoin(f, x, m, n - 1); }
  }

  lemma {:induction false} IterateFixed<T>(f: T -> T, x: T, n: nat)
    requires f(x) == x
    ensures Iterate(f, x, n) == x
  {
    if n > 0 { IterateFixed(f, x, n - 1); }
  }

  // ---- walks -----------------------------------------------------------------------------------------------------

  /** Where at most `n` steps lead; a walk that has stopped stays. */
  function Climb<T>(next: T -> Option<T>, x: T, n: nat): T {
    if n == 0 || next(x).None? then x else Climb(next, next(x).value, n - 1)
  }

  /** The number of those steps that were taken. */
  function Rises<T>(next: T -> Option<T>, x: T, n: nat): nat {
    if n == 0 || next(x).None? then 0 else 1 + Rises(next, next(x).value, n - 1)
  }

  predicate Stops<T>(next: T -> Option<T>, x: T, n: nat) { next(Climb(next, x, n)).None? }

  lemma {:induction false} ClimbJoin<T>(next: T -> Option<T>, x: T, m: nat, n: nat)
    ensures Climb(next, x, m + n) == Climb(next, Climb(next, x, m), n)
  {
    if m > 0 && next(x).Some? { ClimbJoin(next, next(x).value, m - 1, n); }
  }

  lemma StopsLater<T>(next: T -> Option<T>, x: T, m: nat, n: nat)
    requires Stops(next, x, m) && m <= n
    ensures Stops(next, x, n) && Climb(next, x, n) == Climb(next, x, m)
  {
    ClimbJoin(next, x, m, n - m);
  }

  /** The steps that were taken lead to the same place, and each of them started from a link. */
  lemma {:induction false} RisesLead<T>(next: T -> Option<T>, x: T, n: nat)
    ensures var k := Rises(next, x, n);
      && k <= n && Climb(next, x, k) == Climb(next, x, n)
      && (forall i: nat :: i < k ==> next(Climb(next, x, i)).Some?)
      && (k < n ==> Stops(next, x, n))
  {
    if n > 0 && next(x).Some? {
      var y, k := next(x).value, Rises(next, x, n);
      RisesLead(next, y, n - 1);
      forall i: nat | i < k ensures next(Climb(next, x, i)).Some? {
        if i > 0 { assert next(Climb(next, y, i - 1)).Some?; }
      }
    }
  }

  lemma {:induction false} RisesStable<T>(next: T -> Option<T>, x: T, m: nat, n: nat)
    requires Stops(next, x, m) && m <= n
    ensures Rises(next, x, n) == Rises(next, x, m)
  {
    if m > 0 && next(x).Some? { RisesStable(next, next(x).value, m - 1, n - 1); }
  }

  /** Before it stops a walk never comes to a place twice. */
  lemma NoReturn<T>(next: T -> Option<T>, x: T, n: nat, i: nat, j: nat)
    requires Stops(next, x, n) && i < j <= n && forall k: nat :: k < n ==> !Stops(next, x, k)
    ensures Climb(next, x, i) != Climb(next, x, j)
  {
    if Climb(next, x, i) == Climb(next, x, j) {
      ClimbJoin(next, x, i, n - j);
      ClimbJoin(next, x, j, n - j);
      assert Stops(next, x, i + (n - j));
    }
  }

  /** The places of the first `k` steps: as many as steps. */
  lemma {:induction false} Trail<T>(next: T -> Option<T>, x: T, n: nat, k: nat, places: set<T>) returns (trail: set<T>)
    requires Stops(next, x, n) && k <= n && forall i: nat :: i < n ==> !Stops(next, x, i)
    requires forall y :: next(y).Some? ==> y in places
    ensures |trail| == k && trail <= places && forall y :: y in trail ==> WithinSteps(next, x, k, y)
  {
    if k == 0 {
      trail := {};
    } else {
      var shorter := Trail(next, x, n, k - 1, places);
      var y := Climb(next, x, k - 1);
      if y in shorter {
        var i: nat :| i < k - 1 && Climb(next, x, i) == y;
        NoReturn(next, x, n, i, k - 1);
        assert false;
      }
      assert !Stops(next, x, k - 1);
      trail := shorter + {y};
      forall z | z in trail ensures WithinSteps(next, x, k, z) {
        if z in shorter { var i: nat :| i < k - 1 && Climb(next, x, i) == z; }
      }
    }
  }

  ghost predicate WithinSteps<T>(next: T -> Option<T>, x: T, k: nat, y: T) {
    exists i: nat :: i < k && Climb(next, x, i) == y
  }

  /** A walk over finitely many places that has not stopped after as many steps never stops. */
  lemma {:induction false} StopsSoonOrNever<T>(next: T -> Option<T>, x: T, n: nat, places: set<T>)
    requires Stops(next, x, n) && forall y :: next(y).Some? ==> y in places
    ensures Stops(next, x, |places|)
  {
    if k: nat :| k < n && Stops(next, x, k) {
      StopsSoonOrNever(next, x, k, places);
    } else {
      var trail := Trail(next, x, n, n, places);
      SubsetSize(trail, places);
      StopsLater(next, x, n, |places|);
    }
  }

  // ---- redirecting one place ---------------------------------------------------------------------------------------

  ghost predicate EndsEverywhere<T(!new)>(next: T -> Option<T>) { forall y :: EndsFrom(next, y) }

  ghost predicate EndsFrom<T>(next: T -> Option<T>, x: T) { exists n: nat :: Stops(next, x, n) }

  /** The walk from `y` comes to `x`. */
  ghost predicate Meets<T>(next: T -> Option<T>, y: T, x: T) { exists n: nat :: Climb(next, y, n) == x }

  ghost predicate AgreeOutside<T(!new)>(next: T -> Option<T>, other: T -> Option<T>, x: T) {
    forall y :: y != x ==> other(y) == next(y)
  }

  /** Up to the redirected place both walks are one. */
  lemma {:induction false} SameUpTo<T(!new)>(next: T -> Option<T>, other: T -> Option<T>, x: T, y: T, n: nat)
    requires AgreeOutside(next, other, x) && forall i: nat :: i < n ==> Climb(next, y, i) != x
    ensures Climb(other, y, n) == Climb(next, y, n)
  {
    if n > 0 {
      assert Climb(next, y, 0) != x;
      if next(y).Some? {
        var p := next(y).value;
        forall i: nat | i < n - 1 ensures Climb(next, p, i) != x { assert Climb(next, y, i + 1) != x; }
        SameUpTo(next, other, x, p, n - 1);
      }
    }
  }

  lemma StillEnds<T(!new)>(next: T -> Option<T>, other: T -> Option<T>, x: T, y: T)
    requires AgreeOutside(next, other, x) && EndsFrom(next, y) && !Meets(next, y, x)
    ensures EndsFrom(other, y)
  {
    var n: nat :| Stops(next, y, n);
    SameUpTo(next, other, x, y, n);
    assert Climb(next, y, n) != x;
    assert Stops(other, y, n);
  }

  /** The first step at which the walk comes to `x`. */
  lemma {:induction false} FirstMeeting<T>(next: T -> Option<T>, y: T, x: T, n: nat) returns (first: nat)
    requires Climb(next, y, n) == x
    ensures first <= n && Climb(next, y, first) == x && forall i: nat :: i < first ==> Climb(next, y, i) != x
  {
    if i: nat :| i < n && Climb(next, y, i) == x {
      first := FirstMeeting(next, y, x, i);
    } else {
      first := n;
    }
  }

  /** Over finitely many places a walk comes to a place within as many steps, or never. */
  lemma MeetsSoonOrNever<T(!new)>(next: T -> Option<T>, y: T, x: T, n: nat, places: set<T>) returns (first: nat)
    requires Climb(next, y, n) == x && forall z :: next(z).Some? ==> z in places
    ensures first <= |places| && Climb(next, y, first) == x
  {
    var m := FirstMeeting(next, y, x, n);
    var other := z => if z == x then None else next(z);
    SameUpTo(next, other, x, y, m);
    assert Stops(other, y, m);
    StopsSoonOrNever(other, y, m, places);
    if m <= |places| { first := m; } else {
      StopsLater(other, y, |places|, m);
      first := FirstMeeting(other, y, x, |places|);
      SameUpTo(other, next, x, y, first);
    }
  }

  lemma EndsThrough<T(!new)>(next: T -> Option<T>, other: T -> Option<T>, x: T, y: T)
    requires AgreeOutside(next, other, x) && Meets(next, y, x) && EndsFrom(other, x)
    ensures EndsFrom(other, y)
  {
    var n: nat :| Climb(next, y, n) == x;
    var first := FirstMeeting(next, y, x, n);
    SameUpTo(next, other, x, y, first);
    var m: nat :| Stops(other, x, m);
    ClimbJoin(other, y, first, m);
    assert Stops(other, y, first + m);
  }

  /** A walk that comes back never ends. */
  lemma {:induction false} CircleNeverEnds<T>(next: T -> Option<T>, x: T, lap: nat, n: nat)
    requires lap > 0 && next(x).Some? && Climb(next, x, lap) == x
    ensures !Stops(next, x, n)
  {
    if n >= lap {
      ClimbJoin(next, x, lap, n - lap);
      CircleNeverEnds(next, x, lap, n - lap);
    } else if Stops(next, x, n) {
      StopsLater(next, x, n, lap);
    }
  }

  /** Redirecting one place keeps every walk ending exactly when the walk from its new target does not come to it. */
  lemma RedirectedExactly<T(!new)>(next: T -> Option<T>, other: T -> Option<T>, x: T)
    requires AgreeOutside(next, other, x) && EndsEverywhere(next)
    ensures EndsEverywhere(other) <==> (other(x).None? || !Meets(next, other(x).value, x))
  {
    if other(x).None? {
      assert Stops(other, x, 0);
    } else if Meets(next, other(x).value, x) {
      var p := other(x).value;
      var n: nat :| Climb(next, p, n) == x;
      var first := FirstMeeting(next, p, x, n);
      SameUpTo(next, other, x, p, first);
      assert Climb(other, x, first + 1) == x;
      forall k: nat ensures !Stops(other, x, k) { CircleNeverEnds(other, x, first + 1, k); }
      assert !EndsFrom(other, x);
    } else {
      assert EndsFrom(next, other(x).value);
      StillEnds(next, other, x, other(x).value);
      var m: nat :| Stops(other, other(x).value, m);
      assert Stops(other, x, m + 1);
    }
    if EndsFrom(other, x) {
      forall y ensures EndsFrom(other, y) {
        assert EndsFrom(next, y);
        if Meets(next, y, x) { EndsThrough(next, other, x, y); } else { StillEnds(next, other, x, y); }
      }
    }
  }
}
