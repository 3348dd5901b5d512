/**
 * Capacity planning for the session packer: the estimated number of
 * sessions (min_sessions_needed) and the per-session room capacities with
 * the idle rooms pushed to the end (capacities_with_free_spread_at_end).
 */
module Capacity {
  import opened Common

  /** Python's math.ceil(x / d) for a positive divisor, in integer arithmetic. */
  function CeilDiv(x: int, d: int): int
    requires d > 0
  {
    -((-x) / d)
  }

  lemma CeilDivBounds(x: int, d: int)
    requires d > 0
    ensures (CeilDiv(x, d) - 1) * d < x <= CeilDiv(x, d) * d
  {
    var q := (-x) / d;
    var r := (-x) % d;
    assert -x == q * d + r && 0 <= r < d;
    assert CeilDiv(x, d) * d == -(q * d);
    assert (CeilDiv(x, d) - 1) * d == -(q * d) - d;
  }

  /** sum((len(v) * g) // 2 for v in teams_by_level.values()), from the team counts. */
  function TotalMatches(teamCounts: seq<nat>, g: int): int
  {
    if teamCounts == [] then 0
    else TotalMatches(teamCounts[..|teamCounts| - 1], g) + (teamCounts[|teamCounts| - 1] * g) / 2
  }

  /**
   * min_sessions_needed: at least g sessions, and the fewest sessions of
   * `rooms` rooms that hold all matches.
   */
  function MinSessionsNeeded(rooms: int, teamCounts: seq<nat>, g: int): (r: int)
    requires rooms >= 1
    ensures r >= g
    ensures r * rooms >= TotalMatches(teamCounts, g)
    ensures r == g || (r - 1) * rooms < TotalMatches(teamCounts, g)
  {
    CeilDivBounds(TotalMatches(teamCounts, g), rooms);
    Max(g, CeilDiv(TotalMatches(teamCounts, g), rooms))
  }

  /** The number of sessions S that capacities_with_free_spread_at_end settles on. */
  function SessionCount(rooms: int, total: nat, minSessions: int): int
    requires rooms >= 1
  {
    var s := Max(2, minSessions);
    if s * rooms < total then CeilDiv(total, rooms) else s
  }

  lemma SessionCountBounds(rooms: int, total: nat, minSessions: int)
    requires rooms >= 1
    ensures SessionCount(rooms, total, minSessions) >= Max(2, minSessions) >= 2
    ensures SessionCount(rooms, total, minSessions) * rooms >= total
  {
    var s := Max(2, minSessions);
    if s * rooms < total {
      CeilDivBounds(total, rooms);
    }
  }

  /** `total` matches over s sessions, the first total % s sessions one match fuller than the rest. */
  function Spread(total: nat, s: nat): seq<nat>
    requires s > 0
  {
    var q: nat, r: nat := total / s, total % s;
    seq(s, j requires 0 <= j < s => if j < r then q + 1 else q)
  }

  /** The plan in closed form: the balanced spread over SessionCount sessions. */
  function CapacityPlan(rooms: int, total: nat, minSessions: int): seq<nat>
    requires rooms >= 1
  {
    SessionCountBounds(rooms, total, minSessions);
    Spread(total, SessionCount(rooms, total, minSessions))
  }

  function Sum(s: seq<nat>): nat
  {
    if s == [] then 0 else Sum(s[..|s| - 1]) + s[|s| - 1]
  }

  lemma {:induction false} SumUpdate(s: seq<nat>, i: nat, x: nat)
    requires i < |s|
    ensures Sum(s[i := x]) == Sum(s) - s[i] + x
    decreases |s|
  {
    var n := |s| - 1;
    assert s[i := x][..n] == if i < n then s[..n][i := x] else s[..n];
    if i < n {
      SumUpdate(s[..n], i, x);
    }
  }

  lemma MulSucc(a: int, v: int)
    ensures (a + 1) * v == a * v + v
  {
  }

  /** A sequence of v's followed by w's sums to k * v + (|s| - k) * w. */
  lemma {:induction false} SumTwoLevels(s: seq<nat>, k: nat, v: nat, w: nat)
    requires k <= |s|
    requires forall j :: 0 <= j < k ==> s[j] == v
    requires forall j :: k <= j < |s| ==> s[j] == w
    ensures Sum(s) == k * v + (|s| - k) * w
    decreases |s|
  {
    if s != [] {
      var n := |s| - 1;
      assert Sum(s) == Sum(s[..n]) + s[n];
      if k == |s| {
        SumTwoLevels(s[..n], n, v, w);
        MulSucc(n, v);
      } else {
        SumTwoLevels(s[..n], k, v, w);
        MulSucc(n - k, w);
      }
    }
  }

  lemma {:induction false} SumPositiveBound(s: seq<nat>, v: nat)
    requires forall j :: 0 <= j < |s| ==> s[j] <= v
    requires Sum(s) > 0
    ensures v > 0
    decreases |s|
  {
    if s[|s| - 1] == 0 {
      SumPositiveBound(s[..|s| - 1], v);
    }
  }

  lemma SpreadSum(total: nat, s: nat)
    requires s > 0
    ensures Sum(Spread(total, s)) == total
  {
    var q, r := total / s, total % s;
    SumTwoLevels(Spread(total, s), r, q + 1, q);
    assert r * (q + 1) + (s - r) * q == s * q + r;
  }

  lemma {:induction false} MulMonotone(d: nat, a: int, b: int)
    requires a <= b
    ensures d * a <= d * b
    decreases d
  {
    if d > 0 {
      MulMonotone(d - 1, a, b);
      assert d * a == (d - 1) * a + a;
      assert d * b == (d - 1) * b + b;
    }
  }

  lemma SpreadBound(total: nat, s: nat, rooms: int)
    requires s > 0 && s * rooms >= total
    ensures forall j :: 0 <= j < s ==> Spread(total, s)[j] <= rooms
  {
    var q, r := total / s, total % s;
    assert total == s * q + r;
    if q > rooms {
      MulMonotone(s, rooms + 1, q);
    }
  }

  lemma SpreadOrdered(total: nat, s: nat)
    requires s > 0
    ensures forall i, j :: 0 <= i <= j < s ==> Spread(total, s)[j] <= Spread(total, s)[i] <= Spread(total, s)[j] + 1
    ensures total > 0 ==> Spread(total, s)[0] > 0
  {
    var q, r := total / s, total % s;
    var plan := Spread(total, s);
    assert forall j :: 0 <= j < s ==> plan[j] == if j < r then q + 1 else q;
    if total > 0 && q == 0 {
      assert total == s * q + r;
      assert r > 0;
    }
  }

  /** The plan's promises: S sessions, each within [0, rooms], non-increasing, summing to total. */
  lemma CapacityPlanShape(rooms: int, total: nat, minSessions: int)
    requires rooms >= 1
    ensures var plan := CapacityPlan(rooms, total, minSessions);
            && |plan| == SessionCount(rooms, total, minSessions)
            && |plan| >= 2
            && (forall j :: 0 <= j < |plan| ==> plan[j] <= rooms)
            && (forall i, j :: 0 <= i <= j < |plan| ==> plan[j] <= plan[i] <= plan[j] + 1)
            && Sum(plan) == total
            && (total > 0 ==> plan[0] > 0)
  {
    SessionCountBounds(rooms, total, minSessions);
    var s := SessionCount(rooms, total, minSessions);
    SpreadSum(total, s);
    SpreadBound(total, s, rooms);
    SpreadOrdered(total, s);
  }

  /** Some sessions at v followed by sessions at v - 1, summing to total, are the spread of total. */
  lemma TwoLevelsAreSpread(caps: seq<nat>, k: nat, v: nat, total: nat)
    requires 0 < |caps| && k <= |caps|
    requires forall j :: 0 <= j < k ==> caps[j] == v
    requires forall j :: k <= j < |caps| ==> caps[j] + 1 == v
    requires Sum(caps) == total
    ensures caps == Spread(total, |caps|)
  {
    var s := |caps|;
    if k == s {
      SumTwoLevels(caps, k, v, 0);
      assert total == s * v;
      DivModUnique(total, s, v, 0);
    } else {
      SumTwoLevels(caps, k, v, v - 1);
      assert total == s * (v - 1) + k by {
        assert k * v + (s - k) * (v - 1) == s * (v - 1) + k;
      }
      DivModUnique(total, s, v - 1, k);
    }
  }

  /**
   * capacities_with_free_spread_at_end: start every session at `rooms` and
   * take idle rooms away as the loop below does.
   */
  method Capacities(rooms: int, total: nat, minSessions: int) returns (caps: seq<nat>)
    requires rooms >= 1
    ensures caps == CapacityPlan(rooms, total, minSessions)
  {
    var s := Max(2, minSessions);
    var totalCapacity := s * rooms;
    if totalCapacity < total {
      // not enough sessions, bump S to fit all matches
      s := CeilDiv(total, rooms);
      totalCapacity := s * rooms;
    }
    SessionCountBounds(rooms, total, minSessions);
    assert s == SessionCount(rooms, total, minSessions);
    var a := new nat[s](_ => rooms);
    SpreadFreeAtEnd(a, rooms, totalCapacity - total);
    caps := a[..];
  }

  /**
   * The loop of capacities_with_free_spread_at_end: take one room from
   * each session from the last one backwards, wrapping round to the last
   * session again while idle rooms are left.
   */
  method SpreadFreeAtEnd(a: array<nat>, rooms: nat, free0: nat)
    requires a.Length > 0
    requires forall j :: 0 <= j < a.Length ==> a[j] == rooms
    requires free0 <= a.Length * rooms
    modifies a
    ensures a[..] == Spread(a.Length * rooms - free0, a.Length)
  {
    var s := a.Length;
    ghost var total: nat := s * rooms - free0;
    var free := free0;
    var i := s - 1;
    ghost var v: nat := rooms;
    SumTwoLevels(a[..], s, v, 0);
    while free > 0 && i >= 0
      invariant -1 <= i < s
      invariant i == -1 ==> free == 0
      invariant forall j :: 0 <= j <= i ==> a[j] == v
      invariant forall j :: i < j < s ==> a[j] + 1 == v
      invariant Sum(a[..]) == total + free
      decreases free
    {
      TakeOneRoom(a[..], i, v, total + free);
      if a[i] > 0 {
        a[i] := a[i] - 1;
        free := free - 1;
      } else {
        assert false;
      }
      i := i - 1;
      if i < 0 && free > 0 {
        i := s - 1;  // wrap again if more free than sessions
        v := v - 1;
      }
    }
    TwoLevelsAreSpread(a[..], i + 1, v, total);
  }

  /** Taking a room from session i of a two-level plan with rooms to spare. */
  lemma TakeOneRoom(caps: seq<nat>, i: int, v: nat, sum: nat)
    requires 0 <= i < |caps|
    requires forall j :: 0 <= j <= i ==> caps[j] == v
    requires forall j :: i < j < |caps| ==> caps[j] + 1 == v
    requires Sum(caps) == sum && sum > 0
    ensures caps[i] > 0
    ensures Sum(caps[i := caps[i] - 1]) == sum - 1
  {
    assert forall j :: 0 <= j < |caps| ==> caps[j] <= v;
    SumPositiveBound(caps, v);
    SumUpdate(caps, i, caps[i] - 1);
  }

  lemma DivModUnique(x: nat, d: nat, q: int, r: int)
    requires d > 0 && 0 <= r < d && x == d * q + r
    ensures q == x / d && r == x % d
  {
    var q', r' := x / d, x % d;
    assert x == d * q' + r' && 0 <= r' < d;
    if q > q' {
      MulMonotone(d, q' + 1, q);
    } else if q < q' {
      MulMonotone(d, q + 1, q');
    }
  }

  /**
   * With 4 rooms and 6 matches the plan is [3, 3]: the idle rooms are
   * spread one per session from the end, so the first session gets one too.
   */
  lemma SixMatchesInFourRooms()
    ensures CapacityPlan(4, 6, 2) == [3, 3]
  {
  }

  /**
   * Nine matches in four rooms with an estimate of three sessions: the
   * three idle rooms go one to each session, the first one included.
   */
  lemma NineMatchesInFourRooms()
    ensures CapacityPlan(4, 9, 3) == [3, 3, 3]
  {
  }

  /**
   * A single match still gets two sessions (S is at least 2): the match
   * in the first, the second session entirely free.
   */
  lemma OneMatchTwoSessions()
    ensures CapacityPlan(4, 1, 1) == [1, 0]
  {
  }
}
