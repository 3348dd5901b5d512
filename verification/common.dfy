/**
 * Shared vocabulary of the debate scheduler: teams, schools, levels
 * (categories), matches, room assignments, and the counting functions
 * that the pairing generator, the session packer and the checker all
 * speak about.
 */
module Common {

  type Team = string
  type School = string
  /** A category label; the packer only ever produces "S1" and "S2". */
  type Level = string

  const S1: Level := "S1"
  const S2: Level := "S2"

  datatype Option<T> = None | Some(value: T)

  /** A match between two teams of one category, as the pair (a, b). */
  datatype Match = Match(a: Team, b: Team)

  /** One occupied room of a session: (level, team a, team b). */
  datatype Assignment = Assignment(level: Level, a: Team, b: Team)

  /** How often team t is one of the two sides a, b (0, 1 or 2). */
  function Occurrences(t: Team, a: Team, b: Team): nat
  {
    (if a == t then 1 else 0) + (if b == t then 1 else 0)
  }

  /** How many games team t has in the match list (a Counter over both sides). */
  function MatchCount(t: Team, ms: seq<Match>): nat
  {
    if ms == [] then 0
    else MatchCount(t, ms[..|ms| - 1]) + Occurrences(t, ms[|ms| - 1].a, ms[|ms| - 1].b)
  }

  /** How many games team t has among the assignments. */
  function AssignmentCount(t: Team, s: seq<Assignment>): nat
  {
    if s == [] then 0
    else AssignmentCount(t, s[..|s| - 1]) + Occurrences(t, s[|s| - 1].a, s[|s| - 1].b)
  }

  /** The matches of the entries labelled l, in order. */
  function LevelMatches(l: Level, s: seq<Assignment>): seq<Match>
  {
    if s == [] then []
    else
      var e := s[|s| - 1];
      LevelMatches(l, s[..|s| - 1]) + (if e.level == l then [Match(e.a, e.b)] else [])
  }

  /** All teams used by the assignments. */
  function TeamsIn(s: seq<Assignment>): set<Team>
  {
    if s == [] then {}
    else TeamsIn(s[..|s| - 1]) + {s[|s| - 1].a, s[|s| - 1].b}
  }

  /** The sessions of a schedule, one after the other. */
  function Flatten(ss: seq<seq<Assignment>>): seq<Assignment>
  {
    if ss == [] then [] else Flatten(ss[..|ss| - 1]) + ss[|ss| - 1]
  }

  /** Python's max of two integers. */
  function Max(x: int, y: int): (r: int)
    ensures r >= x && r >= y
    ensures r == x || r == y
  {
    if x < y then y else x
  }

  /** Two assignments share no team. */
  predicate Disjoint(e: Assignment, f: Assignment)
  {
    e.a != f.a && e.a != f.b && e.b != f.a && e.b != f.b
  }

  /** No team appears in two different entries of s. */
  predicate DistinctTeams(s: seq<Assignment>)
  {
    forall i, j :: 0 <= i < j < |s| ==> Disjoint(s[i], s[j])
  }

  /** Room order inside a session: S1 rooms come first, then everything else. */
  function Rank(l: Level): nat
  {
    if l == S1 then 0 else 1
  }

  predicate LevelOrdered(s: seq<Assignment>)
  {
    forall i, j :: 0 <= i < j < |s| ==> Rank(s[i].level) <= Rank(s[j].level)
  }

  // ---------------------------------------------------------------------
  // Unfolding facts for appending at the end
  // ---------------------------------------------------------------------

  lemma MatchCountSnoc(t: Team, ms: seq<Match>, m: Match)
    ensures MatchCount(t, ms + [m]) == MatchCount(t, ms) + Occurrences(t, m.a, m.b)
  {
    assert (ms + [m])[..|ms|] == ms;
  }

  lemma {:induction false} MatchCountAppend(t: Team, x: seq<Match>, y: seq<Match>)
    ensures MatchCount(t, x + y) == MatchCount(t, x) + MatchCount(t, y)
    decreases |y|
  {
    if y == [] {
      assert x + y == x;
    } else {
      var y' := y[..|y| - 1];
      assert x + y == (x + y') + [y[|y| - 1]];
      MatchCountSnoc(t, x + y', y[|y| - 1]);
      MatchCountAppend(t, x, y');
      assert y == y' + [y[|y| - 1]];
      MatchCountSnoc(t, y', y[|y| - 1]);
    }
  }

  /** Removing the entry at j takes that match's occurrences out of the count. */
  lemma MatchCountRemove(t: Team, y: seq<Match>, j: nat)
    requires j < |y|
    ensures MatchCount(t, y) == MatchCount(t, y[..j] + y[j + 1..]) + Occurrences(t, y[j].a, y[j].b)
  {
    assert y == (y[..j] + [y[j]]) + y[j + 1..];
    MatchCountAppend(t, y[..j] + [y[j]], y[j + 1..]);
    MatchCountSnoc(t, y[..j], y[j]);
    MatchCountAppend(t, y[..j], y[j + 1..]);
  }

  /** A Counter over matches does not depend on their order. */
  lemma {:induction false} MatchCountPermutation(t: Team, x: seq<Match>, y: seq<Match>)
    requires multiset(x) == multiset(y)
    ensures MatchCount(t, x) == MatchCount(t, y)
    decreases |x|
  {
    if x == [] {
      assert |y| == |multiset(y)| == 0;
    } else {
      var m := x[|x| - 1];
      var x' := x[..|x| - 1];
      assert x == x' + [m];
      assert m in multiset(y);
      var j :| 0 <= j < |y| && y[j] == m;
      var y' := y[..j] + y[j + 1..];
      RemoveFromBoth(x, y, j);
      MatchCountPermutation(t, x', y');
      MatchCountSnoc(t, x', m);
      MatchCountRemove(t, y, j);
    }
  }

  /** Taking the last match off one list and the same match off another keeps them permutations. */
  lemma RemoveFromBoth(x: seq<Match>, y: seq<Match>, j: nat)
    requires multiset(x) == multiset(y)
    requires |x| > 0 && j < |y| && y[j] == x[|x| - 1]
    ensures multiset(x[..|x| - 1]) == multiset(y[..j] + y[j + 1..])
  {
    var m := x[|x| - 1];
    assert x == x[..|x| - 1] + [m];
    assert y == y[..j] + [m] + y[j + 1..];
    assert multiset(x[..|x| - 1]) == multiset(x) - multiset{m};
    assert multiset(y[..j] + y[j + 1..]) == multiset(y) - multiset{m};
  }

  lemma {:induction false} MatchCountAbsent(t: Team, ms: seq<Match>)
    requires forall m :: m in ms ==> m.a != t && m.b != t
    ensures MatchCount(t, ms) == 0
    decreases |ms|
  {
    if ms != [] {
      MatchCountAbsent(t, ms[..|ms| - 1]);
    }
  }

  lemma AssignmentCountSnoc(t: Team, s: seq<Assignment>, e: Assignment)
    ensures AssignmentCount(t, s + [e]) == AssignmentCount(t, s) + Occurrences(t, e.a, e.b)
  {
    assert (s + [e])[..|s|] == s;
  }

  lemma LevelMatchesSnoc(l: Level, s: seq<Assignment>, e: Assignment)
    ensures LevelMatches(l, s + [e])
         == LevelMatches(l, s) + (if e.level == l then [Match(e.a, e.b)] else [])
  {
    assert (s + [e])[..|s|] == s;
  }

  lemma {:induction false} LevelMatchesAppend(l: Level, x: seq<Assignment>, y: seq<Assignment>)
    ensures LevelMatches(l, x + y) == LevelMatches(l, x) + LevelMatches(l, y)
    decreases |y|
  {
    if y == [] {
      assert x + y == x;
    } else {
      var e := y[|y| - 1];
      var y' := y[..|y| - 1];
      assert x + y == (x + y') + [e];
      assert y == y' + [e];
      LevelMatchesSnoc(l, x + y', e);
      LevelMatchesSnoc(l, y', e);
      LevelMatchesAppend(l, x, y');
    }
  }

  /** Entries of another level contribute nothing to LevelMatches(l, _). */
  lemma {:induction false} LevelMatchesOther(l: Level, s: seq<Assignment>)
    requires forall e :: e in s ==> e.level != l
    ensures LevelMatches(l, s) == []
    decreases |s|
  {
    if s != [] {
      LevelMatchesOther(l, s[..|s| - 1]);
    }
  }

  /** Every entry labelled l shows up among LevelMatches(l, s). */
  lemma {:induction false} LevelMatchesContains(l: Level, s: seq<Assignment>, i: nat)
    requires i < |s| && s[i].level == l
    ensures Match(s[i].a, s[i].b) in LevelMatches(l, s)
    decreases |s|
  {
    var e := s[|s| - 1];
    LevelMatchesSnoc(l, s[..|s| - 1], e);
    assert s == s[..|s| - 1] + [e];
    if i < |s| - 1 {
      LevelMatchesContains(l, s[..|s| - 1], i);
    }
  }

  /**
   * When every entry is labelled S1 or S2, the per-team count over the
   * entries splits into the counts over the two levels' matches.
   */
  lemma {:induction false} AssignmentCountSplit(t: Team, s: seq<Assignment>)
    requires forall e :: e in s ==> e.level == S1 || e.level == S2
    ensures AssignmentCount(t, s)
         == MatchCount(t, LevelMatches(S1, s)) + MatchCount(t, LevelMatches(S2, s))
    decreases |s|
  {
    if s != [] {
      var e := s[|s| - 1];
      var s' := s[..|s| - 1];
      assert s == s' + [e];
      assert forall f :: f in s' ==> f in s;
      AssignmentCountSplit(t, s');
      AssignmentCountSnoc(t, s', e);
      LevelMatchesSnoc(S1, s', e);
      LevelMatchesSnoc(S2, s', e);
      assert e in s;
      if e.level == S1 {
        assert LevelMatches(S2, s) == LevelMatches(S2, s');
        MatchCountSnoc(t, LevelMatches(S1, s'), Match(e.a, e.b));
      } else {
        assert LevelMatches(S1, s) == LevelMatches(S1, s');
        MatchCountSnoc(t, LevelMatches(S2, s'), Match(e.a, e.b));
      }
    }
  }

  lemma TeamsInSnoc(s: seq<Assignment>, e: Assignment)
    ensures TeamsIn(s + [e]) == TeamsIn(s) + {e.a, e.b}
  {
    assert (s + [e])[..|s|] == s;
  }

  /** A team in TeamsIn(s) is a side of some entry. */
  lemma {:induction false} TeamsInWitness(s: seq<Assignment>, x: Team) returns (i: nat)
    requires x in TeamsIn(s)
    ensures i < |s| && (s[i].a == x || s[i].b == x)
    decreases |s|
  {
    var e := s[|s| - 1];
    if x == e.a || x == e.b {
      i := |s| - 1;
    } else {
      i := TeamsInWitness(s[..|s| - 1], x);
    }
  }

  lemma {:induction false} TeamsInAppend(x: seq<Assignment>, y: seq<Assignment>)
    ensures TeamsIn(x + y) == TeamsIn(x) + TeamsIn(y)
    decreases |y|
  {
    if y == [] {
      assert x + y == x;
    } else {
      var e := y[|y| - 1];
      var y' := y[..|y| - 1];
      assert x + y == (x + y') + [e];
      assert y == y' + [e];
      TeamsInSnoc(x + y', e);
      TeamsInSnoc(y', e);
      TeamsInAppend(x, y');
    }
  }

  /** A new entry whose teams are not yet used is disjoint from every earlier entry. */
  lemma FreshEntryDisjoint(s: seq<Assignment>, e: Assignment)
    requires e.a !in TeamsIn(s) && e.b !in TeamsIn(s)
    ensures forall i :: 0 <= i < |s| ==> Disjoint(s[i], e)
  {
    forall i | 0 <= i < |s|
      ensures Disjoint(s[i], e)
    {
      TeamsInAppend(s[..i], s[i..]);
      assert s == s[..i] + s[i..];
      assert s[i..] == [s[i]] + s[i + 1..];
      TeamsInAppend([s[i]], s[i + 1..]);
      TeamsInSnoc([], s[i]);
    }
  }

  /** Extending a session keeps its teams distinct exactly when the new entry's teams are unused. */
  lemma DistinctTeamsSnoc(s: seq<Assignment>, e: Assignment)
    ensures DistinctTeams(s + [e]) <==> DistinctTeams(s) && e.a !in TeamsIn(s) && e.b !in TeamsIn(s)
  {
    var s' := s + [e];
    if DistinctTeams(s') {
      forall i, j | 0 <= i < j < |s|
        ensures Disjoint(s[i], s[j])
      {
        assert s[i] == s'[i] && s[j] == s'[j];
      }
    }
    if e.a in TeamsIn(s) {
      var i := TeamsInWitness(s, e.a);
      assert !Disjoint(s'[i], s'[|s|]);
    }
    if e.b in TeamsIn(s) {
      var i := TeamsInWitness(s, e.b);
      assert !Disjoint(s'[i], s'[|s|]);
    }
    if DistinctTeams(s) && e.a !in TeamsIn(s) && e.b !in TeamsIn(s) {
      FreshEntryDisjoint(s, e);
      forall i, j | 0 <= i < j < |s'|
        ensures Disjoint(s'[i], s'[j])
      {
        if j < |s| {
          assert s'[i] == s[i] && s'[j] == s[j];
        } else {
          assert s'[i] == s[i] && s'[j] == e;
        }
      }
    }
  }

  /** A team repeated in a prefix is repeated in the whole sequence. */
  lemma RepeatInPrefix(x: seq<Assignment>, y: seq<Assignment>)
    requires !DistinctTeams(x)
    ensures !DistinctTeams(x + y)
  {
    var i, j :| 0 <= i < j < |x| && !Disjoint(x[i], x[j]);
    assert (x + y)[i] == x[i] && (x + y)[j] == x[j];
  }

  lemma FlattenSnoc(ss: seq<seq<Assignment>>, s: seq<Assignment>)
    ensures Flatten(ss + [s]) == Flatten(ss) + s
  {
    assert (ss + [s])[..|ss|] == ss;
  }

  lemma {:induction false} FlattenAppend(x: seq<seq<Assignment>>, y: seq<seq<Assignment>>)
    ensures Flatten(x + y) == Flatten(x) + Flatten(y)
    decreases |y|
  {
    if y == [] {
      assert x + y == x;
    } else {
      var s := y[|y| - 1];
      var y' := y[..|y| - 1];
      assert x + y == (x + y') + [s];
      assert y == y' + [s];
      FlattenSnoc(x + y', s);
      FlattenSnoc(y', s);
      FlattenAppend(x, y');
    }
  }

  /** Every entry of every session is an entry of the flattened schedule. */
  lemma {:induction false} FlattenContains(ss: seq<seq<Assignment>>, k: nat, i: nat)
    requires k < |ss| && i < |ss[k]|
    ensures ss[k][i] in Flatten(ss)
    decreases |ss|
  {
    var last := ss[|ss| - 1];
    assert Flatten(ss) == Flatten(ss[..|ss| - 1]) + last;
    if k < |ss| - 1 {
      FlattenContains(ss[..|ss| - 1], k, i);
    } else {
      assert ss[k][i] == Flatten(ss)[|Flatten(ss[..|ss| - 1])| + i];
    }
  }

  /** Every entry of the flattened schedule comes from some session. */
  lemma {:induction false} FlattenSource(ss: seq<seq<Assignment>>, e: Assignment) returns (k: nat)
    requires e in Flatten(ss)
    ensures k < |ss| && e in ss[k]
    decreases |ss|
  {
    var last := ss[|ss| - 1];
    if e in last {
      k := |ss| - 1;
    } else {
      k := FlattenSource(ss[..|ss| - 1], e);
    }
  }
}
