/**
 * The session packer (schedule_sessions): lays the S1 and S2 matches into
 * sessions of planned capacity, no team twice in a session, S1 rooms
 * before S2 rooms, then drains whatever is left into extra sessions.
 *
 * random.shuffle of each level's list is the caller's choice of
 * `shuffled1`/`shuffled2`, any permutation of the pairings.
 */
module Packing {
  import opened Common
  import opened Capacity

  /** Neither team of m is used in the session yet. */
  predicate Placeable(m: Match, used: set<Team>)
  {
    m.a !in used && m.b !in used
  }

  /** The per-session promises: no team twice, S1 rooms first, only S1/S2 labels. */
  predicate SessionShape(s: seq<Assignment>)
  {
    && DistinctTeams(s)
    && LevelOrdered(s)
    && (forall e :: e in s ==> e.level == S1 || e.level == S2)
  }

  /** The teams appearing in a match list (teams_by_level of schedule_sessions). */
  function TeamsOf(ms: seq<Match>): (r: set<Team>)
    ensures forall t :: t in r <==> exists i :: 0 <= i < |ms| && (ms[i].a == t || ms[i].b == t)
  {
    if ms == [] then {}
    else
      var init := ms[..|ms| - 1];
      assert forall i :: 0 <= i < |init| ==> init[i] == ms[i];
      TeamsOf(init) + {ms[|ms| - 1].a, ms[|ms| - 1].b}
  }

  /**
   * The index pop_match stops at: the first match in `rem` whose teams are
   * both free, None when there is none.
   */
  function FirstPlaceable(rem: seq<Match>, used: set<Team>): (r: Option<nat>)
    ensures r.None? <==> forall k :: 0 <= k < |rem| ==> !Placeable(rem[k], used)
    ensures r.Some? ==> && r.value < |rem| && Placeable(rem[r.value], used)
                        && forall k :: 0 <= k < r.value ==> !Placeable(rem[k], used)
    decreases |rem|
  {
    if rem == [] then None
    else if Placeable(rem[0], used) then Some(0)
    else
      match FirstPlaceable(rem[1..], used)
      case None =>
        assert forall k :: 1 <= k < |rem| ==> rem[k] == rem[1..][k - 1];
        None
      case Some(i) =>
        assert forall k :: 1 <= k <= i ==> rem[k] == rem[1..][k - 1];
        Some(i + 1)
  }

  /** The list with its i-th entry taken out, the rest in order (list.pop(i)). */
  function RemoveAt(s: seq<Match>, i: nat): (r: seq<Match>)
    requires i < |s|
    ensures |r| + 1 == |s|
    ensures multiset(s) == multiset(r) + multiset{s[i]}
    ensures forall k :: 0 <= k < i ==> r[k] == s[k]
    ensures forall k :: i <= k < |r| ==> r[k] == s[k + 1]
  {
    assert s == s[..i] + [s[i]] + s[i + 1..];
    s[..i] + s[i + 1..]
  }

  /** The remaining list of a level (remaining[level]). */
  function ListOf(level: Level, rest1: seq<Match>, rest2: seq<Match>): seq<Match>
  {
    if level == S1 then rest1 else rest2
  }

  /** The level that is not `level` (the `other` of the fill loops). */
  function Other(level: Level): Level
  {
    if level == S1 then S2 else S1
  }

  /**
   * pop_match: remove and return the first match whose teams are both free
   * in this session; the list keeps its order otherwise.
   */
  method PopMatch(rem: seq<Match>, used: set<Team>) returns (m: Option<Match>, rest: seq<Match>)
    ensures m.None? <==> FirstPlaceable(rem, used).None?
    ensures m.None? ==> rest == rem
    ensures m.Some? ==> var i := FirstPlaceable(rem, used).value;
                        m.value == rem[i] && rest == RemoveAt(rem, i)
  {
    for i := 0 to |rem|
      invariant forall k :: 0 <= k < i ==> !Placeable(rem[k], used)
    {
      if rem[i].a !in used && rem[i].b !in used {
        var f := FirstPlaceable(rem, used);
        assert f.Some? && f.value == i;
        m, rest := Some(rem[i]), RemoveAt(rem, i);
        return;
      }
    }
    m, rest := None, rem;
  }

  /**
   * Taking `m` from the list of `level`: it is that list's first placeable
   * match, the list loses exactly that entry and the other list is untouched.
   */
  predicate Popped(level: Level, rest1: seq<Match>, rest2: seq<Match>, used: set<Team>,
                   m: Match, next1: seq<Match>, next2: seq<Match>)
  {
    var l := ListOf(level, rest1, rest2);
    && FirstPlaceable(l, used).Some?
    && m == l[FirstPlaceable(l, used).value]
    && (if level == S1
        then next1 == RemoveAt(rest1, FirstPlaceable(l, used).value) && next2 == rest2
        else next1 == rest1 && next2 == RemoveAt(rest2, FirstPlaceable(l, used).value))
  }

  /** Pop from the list of the given level (the pop half of place_from_level). */
  method PopFromLevel(level: Level, rest1: seq<Match>, rest2: seq<Match>, used: set<Team>)
    returns (m: Option<Match>, next1: seq<Match>, next2: seq<Match>)
    requires level == S1 || level == S2
    ensures m.None? <==> FirstPlaceable(ListOf(level, rest1, rest2), used).None?
    ensures m.None? ==> next1 == rest1 && next2 == rest2
    ensures m.Some? ==> Popped(level, rest1, rest2, used, m.value, next1, next2)
    ensures level == S1 ==> (m.None? <==> forall p :: p in rest1 ==> !Placeable(p, used))
    ensures level == S2 ==> (m.None? <==> forall p :: p in rest2 ==> !Placeable(p, used))
    ensures m.Some? ==> Placeable(m.value, used)
    ensures m.Some? && level == S1 ==> next2 == rest2 && multiset(rest1) == multiset(next1) + multiset{m.value}
    ensures m.Some? && level == S2 ==> next1 == rest1 && multiset(rest2) == multiset(next2) + multiset{m.value}
    ensures m.Some? ==> |next1| + |next2| + 1 == |rest1| + |rest2|
  {
    next1, next2 := rest1, rest2;
    var l := ListOf(level, rest1, rest2);
    if level == S1 {
      m, next1 := PopMatch(rest1, used);
    } else {
      m, next2 := PopMatch(rest2, used);
    }
    if m.None? {
      forall p | p in l
        ensures !Placeable(p, used)
      {
        var k :| 0 <= k < |l| && l[k] == p;
      }
    }
  }

  /** Appending an S1 entry to the S1 part keeps the session's shape. */
  lemma ShapeConcat(s1: seq<Assignment>, s2: seq<Assignment>)
    requires forall e :: e in s1 ==> e.level == S1
    requires forall e :: e in s2 ==> e.level == S2
    requires DistinctTeams(s1) && DistinctTeams(s2)
    requires forall i, j :: 0 <= i < |s1| && 0 <= j < |s2| ==> Disjoint(s1[i], s2[j])
    ensures SessionShape(s1 + s2)
  {
    var s := s1 + s2;
    forall i, j | 0 <= i < j < |s|
      ensures Disjoint(s[i], s[j]) && Rank(s[i].level) <= Rank(s[j].level)
    {
      if j < |s1| {
        assert s[i] == s1[i] && s[j] == s1[j];
      } else if i >= |s1| {
        assert s[i] == s2[i - |s1|] && s[j] == s2[j - |s1|];
      } else {
        assert s[i] == s1[i] && s[j] == s2[j - |s1|];
        assert s[i] in s1 && s[j] in s2;
      }
    }
  }

  /** The two halves of a session under construction, and the teams they use. */
  predicate Parts(s1: seq<Assignment>, s2: seq<Assignment>, used: set<Team>)
  {
    && used == TeamsIn(s1 + s2)
    && (forall e :: e in s1 ==> e.level == S1)
    && (forall e :: e in s2 ==> e.level == S2)
    && DistinctTeams(s1) && DistinctTeams(s2)
    && (forall i, j :: 0 <= i < |s1| && 0 <= j < |s2| ==> Disjoint(s1[i], s2[j]))
  }

  /** Placing a match with two unused teams in the S1 half keeps the halves well formed. */
  lemma PartsAddS1(s1: seq<Assignment>, s2: seq<Assignment>, used: set<Team>, m: Match)
    requires Parts(s1, s2, used) && Placeable(m, used)
    ensures Parts(s1 + [Assignment(S1, m.a, m.b)], s2, used + {m.a, m.b})
  {
    var e := Assignment(S1, m.a, m.b);
    var s1' := s1 + [e];
    TeamsInAppend(s1, s2);
    DistinctTeamsSnoc(s1, e);
    FreshEntryDisjoint(s2, e);
    forall i, j | 0 <= i < |s1'| && 0 <= j < |s2|
      ensures Disjoint(s1'[i], s2[j])
    {
      if i < |s1| {
        assert s1'[i] == s1[i];
      }
    }
    TeamsInAppend(s1', s2);
    TeamsInSnoc(s1, e);
  }

  /** Placing a match with two unused teams in the S2 half keeps the halves well formed. */
  lemma PartsAddS2(s1: seq<Assignment>, s2: seq<Assignment>, used: set<Team>, m: Match)
    requires Parts(s1, s2, used) && Placeable(m, used)
    ensures Parts(s1, s2 + [Assignment(S2, m.a, m.b)], used + {m.a, m.b})
  {
    var e := Assignment(S2, m.a, m.b);
    var s2' := s2 + [e];
    TeamsInAppend(s1, s2);
    DistinctTeamsSnoc(s2, e);
    FreshEntryDisjoint(s1, e);
    forall i, j | 0 <= i < |s1| && 0 <= j < |s2'|
      ensures Disjoint(s1[i], s2'[j])
    {
      if j < |s2| {
        assert s2'[j] == s2[j];
      }
    }
    TeamsInAppend(s1, s2');
    TeamsInSnoc(s2, e);
  }

  /**
   * The level the fill loop tries first: when mixing, the first of S1, S2
   * that is below its target and still has matches; otherwise (or when
   * neither is) the level with more matches left, S1 on a tie, switching
   * to the other level when that one is empty. None when both are empty.
   */
  function ChooseLevel(mix: bool, n1: nat, n2: nat, target1: int, target2: int, left1: nat, left2: nat): (c: Option<Level>)
    ensures c.None? <==> left1 == 0 && left2 == 0
    ensures c == Some(S1) || c == Some(S2) || c.None?
    ensures c == Some(S1) ==> left1 > 0
    ensures c == Some(S2) ==> left2 > 0
    ensures mix && n1 < target1 && left1 > 0 ==> c == Some(S1)
    ensures mix && !(n1 < target1 && left1 > 0) && n2 < target2 && left2 > 0 ==> c == Some(S2)
    ensures !(mix && n1 < target1 && left1 > 0) && !(mix && n2 < target2 && left2 > 0) ==>
              (left1 > 0 && left1 >= left2 ==> c == Some(S1)) && (left2 > left1 ==> c == Some(S2))
  {
    if mix && n1 < target1 && left1 > 0 then Some(S1)
    else if mix && n2 < target2 && left2 > 0 then Some(S2)
    else if left1 >= left2 then (if left1 > 0 then Some(S1) else if left2 > 0 then Some(S2) else None)
    else (if left2 > 0 then Some(S2) else if left1 > 0 then Some(S1) else None)
  }

  /**
   * One successful place_from_level(level): the first placeable match of
   * that level's list leaves the list, is appended to that level's half as
   * an entry labelled with the level, and its two teams become used; the
   * other half and the other list are untouched.
   */
  predicate PlacedFrom(level: Level, s1: seq<Assignment>, s2: seq<Assignment>, used: set<Team>,
                       rest1: seq<Match>, rest2: seq<Match>,
                       s1': seq<Assignment>, s2': seq<Assignment>, used': set<Team>,
                       rest1': seq<Match>, rest2': seq<Match>)
  {
    var l := ListOf(level, rest1, rest2);
    && FirstPlaceable(l, used).Some?
    && var m := l[FirstPlaceable(l, used).value];
    && Popped(level, rest1, rest2, used, m, rest1', rest2')
    && used' == used + {m.a, m.b}
    && (if level == S1
        then s1' == s1 + [Assignment(S1, m.a, m.b)] && s2' == s2
        else s1' == s1 && s2' == s2 + [Assignment(S2, m.a, m.b)])
  }

  /**
   * place_from_level: pop the first placeable match of `level` and append
   * it to that level's half of the session; false when none is placeable.
   */
  method PlaceFromLevel(level: Level, s1: seq<Assignment>, s2: seq<Assignment>, used: set<Team>,
                        rest1: seq<Match>, rest2: seq<Match>)
    returns (placed: bool, s1': seq<Assignment>, s2': seq<Assignment>, used': set<Team>,
             rest1': seq<Match>, rest2': seq<Match>)
    requires level == S1 || level == S2
    requires Parts(s1, s2, used)
    ensures Parts(s1', s2', used')
    ensures placed <==> FirstPlaceable(ListOf(level, rest1, rest2), used).Some?
    ensures placed ==> PlacedFrom(level, s1, s2, used, rest1, rest2, s1', s2', used', rest1', rest2')
    ensures level == S1 ==> (!placed <==> forall p :: p in rest1 ==> !Placeable(p, used))
    ensures level == S2 ==> (!placed <==> forall p :: p in rest2 ==> !Placeable(p, used))
    ensures !placed ==> s1' == s1 && s2' == s2 && used' == used && rest1' == rest1 && rest2' == rest2
    ensures placed ==> |s1'| + |s2'| == |s1| + |s2| + 1 && |rest1'| + |rest2'| + 1 == |rest1| + |rest2|
    ensures multiset(rest1) + multiset(LevelMatches(S1, s1)) == multiset(rest1') + multiset(LevelMatches(S1, s1'))
    ensures multiset(rest2) + multiset(LevelMatches(S2, s2)) == multiset(rest2') + multiset(LevelMatches(S2, s2'))
  {
    var m;
    m, rest1', rest2' := PopFromLevel(level, rest1, rest2, used);
    s1', s2', used' := s1, s2, used;
    placed := m.Some?;
    if placed {
      s1', s2', used' := AddToHalf(level, s1, s2, used, m.value);
      PoppedThenPlaced(level, s1, s2, used, rest1, rest2, m.value, s1', s2', used', rest1', rest2');
      PlacedAccounts(level, rest1, rest2, m.value, rest1', rest2', s1, s2, s1', s2');
    }
  }

  /** A match moved from a level's list to that level's half leaves both levels accounted. */
  lemma PlacedAccounts(level: Level, rest1: seq<Match>, rest2: seq<Match>, m: Match,
                       rest1': seq<Match>, rest2': seq<Match>,
                       s1: seq<Assignment>, s2: seq<Assignment>, s1': seq<Assignment>, s2': seq<Assignment>)
    requires level == S1 || level == S2
    requires level == S1 ==> rest2' == rest2 && multiset(rest1) == multiset(rest1') + multiset{m}
    requires level == S2 ==> rest1' == rest1 && multiset(rest2) == multiset(rest2') + multiset{m}
    requires LevelMatches(S1, s1') == LevelMatches(S1, s1) + (if level == S1 then [m] else [])
    requires LevelMatches(S2, s2') == LevelMatches(S2, s2) + (if level == S2 then [m] else [])
    ensures multiset(rest1) + multiset(LevelMatches(S1, s1)) == multiset(rest1') + multiset(LevelMatches(S1, s1'))
    ensures multiset(rest2) + multiset(LevelMatches(S2, s2)) == multiset(rest2') + multiset(LevelMatches(S2, s2'))
  {
  }

  lemma PoppedThenPlaced(level: Level, s1: seq<Assignment>, s2: seq<Assignment>, used: set<Team>,
                         rest1: seq<Match>, rest2: seq<Match>, m: Match,
                         s1': seq<Assignment>, s2': seq<Assignment>, used': set<Team>,
                         rest1': seq<Match>, rest2': seq<Match>)
    requires level == S1 || level == S2
    requires Popped(level, rest1, rest2, used, m, rest1', rest2')
    requires used' == used + {m.a, m.b}
    requires level == S1 ==> s1' == s1 + [Assignment(S1, m.a, m.b)] && s2' == s2
    requires level == S2 ==> s1' == s1 && s2' == s2 + [Assignment(S2, m.a, m.b)]
    ensures PlacedFrom(level, s1, s2, used, rest1, rest2, s1', s2', used', rest1', rest2')
  {
  }

  /** Append a placeable match to the half of its level and mark its teams used. */
  method AddToHalf(level: Level, s1: seq<Assignment>, s2: seq<Assignment>, used: set<Team>, m: Match)
    returns (s1': seq<Assignment>, s2': seq<Assignment>, used': set<Team>)
    requires level == S1 || level == S2
    requires Parts(s1, s2, used) && Placeable(m, used)
    ensures Parts(s1', s2', used')
    ensures used' == used + {m.a, m.b}
    ensures level == S1 ==> s1' == s1 + [Assignment(S1, m.a, m.b)] && s2' == s2
    ensures level == S2 ==> s1' == s1 && s2' == s2 + [Assignment(S2, m.a, m.b)]
    ensures |s1'| + |s2'| == |s1| + |s2| + 1
    ensures LevelMatches(S1, s1') == LevelMatches(S1, s1) + (if level == S1 then [m] else [])
    ensures LevelMatches(S2, s2') == LevelMatches(S2, s2) + (if level == S2 then [m] else [])
  {
    var e := Assignment(level, m.a, m.b);
    s1', s2' := s1, s2;
    if level == S1 {
      PartsAddS1(s1, s2, used, m);
      LevelMatchesSnoc(S1, s1, e);
      s1' := s1 + [e];
    } else {
      PartsAddS2(s1, s2, used, m);
      LevelMatchesSnoc(S2, s2, e);
      s2' := s2 + [e];
    }
    used' := used + {m.a, m.b};
  }

  /** The halves joined, S1 rooms first, have the session's shape and per-level contents. */
  lemma JoinParts(s1: seq<Assignment>, s2: seq<Assignment>, used: set<Team>)
    requires Parts(s1, s2, used)
    ensures SessionShape(s1 + s2) && TeamsIn(s1 + s2) == used
    ensures LevelMatches(S1, s1 + s2) == LevelMatches(S1, s1)
    ensures LevelMatches(S2, s1 + s2) == LevelMatches(S2, s2)
  {
    ShapeConcat(s1, s2);
    LevelMatchesAppend(S1, s1, s2);
    LevelMatchesAppend(S2, s1, s2);
    LevelMatchesOther(S1, s2);
    LevelMatchesOther(S2, s1);
  }

  /**
   * One pass of the fill loop body: place from the level ChooseLevel names;
   * when that level has nothing placeable, from the other level; when
   * neither has, stop with nothing changed.
   */
  method FillStep(mix: bool, target1: int, target2: int, s1: seq<Assignment>, s2: seq<Assignment>,
                  used: set<Team>, rest1: seq<Match>, rest2: seq<Match>)
    returns (stop: bool, s1': seq<Assignment>, s2': seq<Assignment>, used': set<Team>,
             rest1': seq<Match>, rest2': seq<Match>)
    requires Parts(s1, s2, used)
    requires |rest1| + |rest2| > 0
    ensures Parts(s1', s2', used')
    ensures var c := ChooseLevel(mix, |s1|, |s2|, target1, target2, |rest1|, |rest2|).value;
            FirstPlaceable(ListOf(c, rest1, rest2), used).Some? ==>
              !stop && PlacedFrom(c, s1, s2, used, rest1, rest2, s1', s2', used', rest1', rest2')
    ensures var c := ChooseLevel(mix, |s1|, |s2|, target1, target2, |rest1|, |rest2|).value;
            FirstPlaceable(ListOf(c, rest1, rest2), used).None? &&
            FirstPlaceable(ListOf(Other(c), rest1, rest2), used).Some? ==>
              !stop && PlacedFrom(Other(c), s1, s2, used, rest1, rest2, s1', s2', used', rest1', rest2')
    ensures stop <==> FirstPlaceable(rest1, used).None? && FirstPlaceable(rest2, used).None?
    ensures stop ==> s1' == s1 && s2' == s2 && used' == used && rest1' == rest1 && rest2' == rest2
    ensures stop ==> forall p :: p in rest1 + rest2 ==> !Placeable(p, used)
    ensures !stop ==> |s1'| + |s2'| == |s1| + |s2| + 1 && |rest1'| + |rest2'| + 1 == |rest1| + |rest2|
    ensures multiset(rest1) + multiset(LevelMatches(S1, s1)) == multiset(rest1') + multiset(LevelMatches(S1, s1'))
    ensures multiset(rest2) + multiset(LevelMatches(S2, s2)) == multiset(rest2') + multiset(LevelMatches(S2, s2'))
  {
    var level := ChooseLevel(mix, |s1|, |s2|, target1, target2, |rest1|, |rest2|).value;
    var placed;
    placed, s1', s2', used', rest1', rest2' := PlaceFromLevel(level, s1, s2, used, rest1, rest2);
    stop := false;
    if !placed {
      // the chosen level is blocked by teams already in this session
      placed, s1', s2', used', rest1', rest2' := PlaceFromLevel(Other(level), s1, s2, used, rest1, rest2);
      // nothing placeable: stop this session
      stop := !placed;
    }
  }

  /**
   * The fill loop of one session (with mix off it is also the fill loop of
   * the drain): FillStep while the session has room and matches remain,
   * stopping early when FillStep finds nothing placeable.
   */
  method FillHalves(cap: nat, rem1: seq<Match>, rem2: seq<Match>, target1: int, target2: int, mix: bool)
    returns (s1: seq<Assignment>, s2: seq<Assignment>, used: set<Team>, rest1: seq<Match>, rest2: seq<Match>)
    ensures Parts(s1, s2, used)
    ensures |s1| + |s2| <= cap
    ensures multiset(rem1) == multiset(rest1) + multiset(LevelMatches(S1, s1))
    ensures multiset(rem2) == multiset(rest2) + multiset(LevelMatches(S2, s2))
    ensures |rest1| + |rest2| + |s1| + |s2| == |rem1| + |rem2|
    ensures |s1| + |s2| < cap ==> forall p :: p in rest1 + rest2 ==> !Placeable(p, used)
  {
    used := {};
    s1, s2 := [], [];
    rest1, rest2 := rem1, rem2;
    while |s1| + |s2| < cap && |rest1| + |rest2| > 0
      invariant Parts(s1, s2, used)
      invariant |s1| + |s2| <= cap
      invariant multiset(rem1) == multiset(rest1) + multiset(LevelMatches(S1, s1))
      invariant multiset(rem2) == multiset(rest2) + multiset(LevelMatches(S2, s2))
      invariant |rest1| + |rest2| + |s1| + |s2| == |rem1| + |rem2|
      decreases |rest1| + |rest2|
    {
      var stop;
      stop, s1, s2, used, rest1, rest2 := FillStep(mix, target1, target2, s1, s2, used, rest1, rest2);
      if stop {
        return;
      }
    }
  }

  /**
   * One session: the matches FillHalves places, S1 rooms first. At most
   * `cap` matches, no team twice, and when the session is not full no
   * remaining match fits beside it; a session with room never comes out
   * empty while matches remain.
   */
  method FillSession(cap: nat, rem1: seq<Match>, rem2: seq<Match>, target1: int, target2: int, mix: bool)
    returns (session: seq<Assignment>, rest1: seq<Match>, rest2: seq<Match>)
    ensures |session| <= cap
    ensures SessionShape(session)
    ensures multiset(rem1) == multiset(rest1) + multiset(LevelMatches(S1, session))
    ensures multiset(rem2) == multiset(rest2) + multiset(LevelMatches(S2, session))
    ensures |rest1| + |rest2| + |session| == |rem1| + |rem2|
    ensures |session| < cap ==> forall m :: m in rest1 + rest2 ==> !Placeable(m, TeamsIn(session))
    ensures cap > 0 && |rem1| + |rem2| > 0 ==> |session| > 0
  {
    var s1, s2;
    var used;
    s1, s2, used, rest1, rest2 := FillHalves(cap, rem1, rem2, target1, target2, mix);
    session := s1 + s2;
    JoinParts(s1, s2, used);
    if session == [] && |rest1| + |rest2| > 0 {
      assert (rest1 + rest2)[0] in rest1 + rest2;
    }
  }

  /** Every session within the room count and of the right shape. */
  predicate SessionsFit(ss: seq<seq<Assignment>>, rooms: int)
  {
    forall k :: 0 <= k < |ss| ==> |ss[k]| <= rooms && SessionShape(ss[k])
  }

  /**
   * The matches of one level are split between what is still to place
   * and what the sessions so far hold.
   */
  predicate Accounted(whole: multiset<Match>, l: Level, rest: seq<Match>, ss: seq<seq<Assignment>>)
  {
    whole == multiset(rest) + multiset(LevelMatches(l, Flatten(ss)))
  }

  lemma AccountedAppend(whole: multiset<Match>, l: Level, rest: seq<Match>, ss: seq<seq<Assignment>>,
                        rest': seq<Match>, more: seq<seq<Assignment>>)
    requires Accounted(whole, l, rest, ss)
    requires multiset(rest) == multiset(rest') + multiset(LevelMatches(l, Flatten(more)))
    ensures Accounted(whole, l, rest', ss + more)
  {
    FlattenAppend(ss, more);
    LevelMatchesAppend(l, Flatten(ss), Flatten(more));
  }

  lemma FlattenOne(s: seq<Assignment>)
    ensures Flatten([s]) == s
  {
    FlattenSnoc([], s);
  }

  lemma SessionsFitAppend(ss: seq<seq<Assignment>>, more: seq<seq<Assignment>>, rooms: int)
    requires SessionsFit(ss, rooms) && SessionsFit(more, rooms)
    ensures SessionsFit(ss + more, rooms)
  {
    forall k | 0 <= k < |ss + more|
      ensures |(ss + more)[k]| <= rooms && SessionShape((ss + more)[k])
    {
      if k >= |ss| {
        assert (ss + more)[k] == more[k - |ss|];
      }
    }
  }

  /** Each session holds no more matches than the plan gives it. */
  predicate WithinPlan(ss: seq<seq<Assignment>>, plan: seq<nat>)
  {
    forall k :: 0 <= k < |ss| && k < |plan| ==> |ss[k]| <= plan[k]
  }

  lemma WithinPlanSnoc(ss: seq<seq<Assignment>>, s: seq<Assignment>, plan: seq<nat>)
    requires WithinPlan(ss, plan)
    requires |ss| < |plan| ==> |s| <= plan[|ss|]
    ensures WithinPlan(ss + [s], plan)
  {
    forall k | 0 <= k < |ss| + 1 && k < |plan|
      ensures |(ss + [s])[k]| <= plan[k]
    {
      if k < |ss| {
        assert (ss + [s])[k] == ss[k];
      }
    }
  }

  lemma WithinPlanBeyond(ss: seq<seq<Assignment>>, more: seq<seq<Assignment>>, plan: seq<nat>)
    requires WithinPlan(ss, plan) && |ss| >= |plan|
    ensures WithinPlan(ss + more, plan)
  {
    forall k | 0 <= k < |ss + more| && k < |plan|
      ensures |(ss + more)[k]| <= plan[k]
    {
      assert (ss + more)[k] == ss[k];
    }
  }

  /** Appending one session to the sessions so far keeps one level accounted. */
  lemma AccountedSnoc(whole: multiset<Match>, l: Level, rest: seq<Match>, ss: seq<seq<Assignment>>,
                      session: seq<Assignment>, next: seq<Match>)
    requires Accounted(whole, l, rest, ss)
    requires multiset(rest) == multiset(next) + multiset(LevelMatches(l, session))
    ensures Accounted(whole, l, next, ss + [session])
  {
    FlattenOne(session);
    AccountedAppend(whole, l, rest, ss, next, [session]);
  }

  /** Appending one filled session keeps the bookkeeping of the loops below. */
  lemma AppendSession(rooms: int, caps: seq<nat>, rem1: seq<Match>, rem2: seq<Match>,
                      ss: seq<seq<Assignment>>, rest1: seq<Match>, rest2: seq<Match>,
                      session: seq<Assignment>, next1: seq<Match>, next2: seq<Match>)
    requires SessionsFit(ss, rooms) && WithinPlan(ss, caps)
    requires Accounted(multiset(rem1), S1, rest1, ss) && Accounted(multiset(rem2), S2, rest2, ss)
    requires |session| <= rooms && SessionShape(session)
    requires |ss| < |caps| ==> |session| <= caps[|ss|]
    requires multiset(rest1) == multiset(next1) + multiset(LevelMatches(S1, session))
    requires multiset(rest2) == multiset(next2) + multiset(LevelMatches(S2, session))
    ensures SessionsFit(ss + [session], rooms) && WithinPlan(ss + [session], caps)
    ensures Accounted(multiset(rem1), S1, next1, ss + [session])
    ensures Accounted(multiset(rem2), S2, next2, ss + [session])
  {
    AccountedSnoc(multiset(rem1), S1, rest1, ss, session, next1);
    AccountedSnoc(multiset(rem2), S2, rest2, ss, session, next2);
    FitsSnoc(rooms, caps, ss, session);
  }

  lemma FitsSnoc(rooms: int, caps: seq<nat>, ss: seq<seq<Assignment>>, session: seq<Assignment>)
    requires SessionsFit(ss, rooms) && WithinPlan(ss, caps)
    requires |session| <= rooms && SessionShape(session)
    requires |ss| < |caps| ==> |session| <= caps[|ss|]
    ensures SessionsFit(ss + [session], rooms) && WithinPlan(ss + [session], caps)
  {
    assert SessionsFit([session], rooms) by {
      assert [session][0] == session;
    }
    SessionsFitAppend(ss, [session], rooms);
    WithinPlanSnoc(ss, session, caps);
  }

  /**
   * Session k was closed short of its capacity only because every match
   * placed in a later session, and every match still left, shares a team
   * with it.
   */
  predicate ClosedShort(ss: seq<seq<Assignment>>, k: nat, rest1: seq<Match>, rest2: seq<Match>)
    requires k < |ss|
  {
    && (forall m :: m in rest1 + rest2 ==> !Placeable(m, TeamsIn(ss[k])))
    && (forall j, i :: k < j < |ss| && 0 <= i < |ss[j]| ==>
          !Placeable(Match(ss[j][i].a, ss[j][i].b), TeamsIn(ss[k])))
  }

  /** Every session that is not filled to its capacity was closed short. */
  predicate Maximal(ss: seq<seq<Assignment>>, caps: seq<nat>, rest1: seq<Match>, rest2: seq<Match>)
  {
    forall k :: 0 <= k < |ss| && k < |caps| && |ss[k]| < caps[k] ==> ClosedShort(ss, k, rest1, rest2)
  }

  /** What later sessions place, and what stays left after them, was left before them. */
  lemma DrawnFrom(more: seq<seq<Assignment>>, rest1: seq<Match>, rest2: seq<Match>,
                  next1: seq<Match>, next2: seq<Match>)
    requires forall j :: 0 <= j < |more| ==> SessionShape(more[j])
    requires multiset(rest1) == multiset(next1) + multiset(LevelMatches(S1, Flatten(more)))
    requires multiset(rest2) == multiset(next2) + multiset(LevelMatches(S2, Flatten(more)))
    ensures forall j, i :: 0 <= j < |more| && 0 <= i < |more[j]| ==>
              Match(more[j][i].a, more[j][i].b) in rest1 + rest2
    ensures forall m :: m in next1 + next2 ==> m in rest1 + rest2
  {
    forall j, i | 0 <= j < |more| && 0 <= i < |more[j]|
      ensures Match(more[j][i].a, more[j][i].b) in rest1 + rest2
    {
      assert more[j][i] in more[j];
      PlacedWasLeft(more, rest1, rest2, next1, next2, j, i);
    }
    forall m | m in next1 + next2
      ensures m in rest1 + rest2
    {
      if m in next1 {
        assert m in multiset(rest1);
      } else {
        assert m in multiset(rest2);
      }
    }
  }

  /** One entry of a later session was left before it. */
  lemma PlacedWasLeft(more: seq<seq<Assignment>>, rest1: seq<Match>, rest2: seq<Match>,
                      next1: seq<Match>, next2: seq<Match>, j: nat, i: nat)
    requires j < |more| && i < |more[j]|
    requires more[j][i].level == S1 || more[j][i].level == S2
    requires multiset(rest1) == multiset(next1) + multiset(LevelMatches(S1, Flatten(more)))
    requires multiset(rest2) == multiset(next2) + multiset(LevelMatches(S2, Flatten(more)))
    ensures Match(more[j][i].a, more[j][i].b) in rest1 + rest2
  {
    var f := Flatten(more);
    var e := more[j][i];
    FlattenContains(more, j, i);
    var x :| 0 <= x < |f| && f[x] == e;
    LevelMatchesContains(e.level, f, x);
    if e.level == S1 {
      assert Match(e.a, e.b) in multiset(LevelMatches(S1, f));
      assert Match(e.a, e.b) in multiset(rest1);
    } else {
      assert Match(e.a, e.b) in multiset(LevelMatches(S2, f));
      assert Match(e.a, e.b) in multiset(rest2);
    }
  }

  /** Sessions drawn from what maximal sessions left, and maximal themselves, keep the whole maximal. */
  lemma MaximalAppend(ss: seq<seq<Assignment>>, caps: seq<nat>, rest1: seq<Match>, rest2: seq<Match>,
                      more: seq<seq<Assignment>>, capsMore: seq<nat>, next1: seq<Match>, next2: seq<Match>)
    requires |ss| == |caps|
    requires Maximal(ss, caps, rest1, rest2) && Maximal(more, capsMore, next1, next2)
    requires forall j :: 0 <= j < |more| ==> SessionShape(more[j])
    requires multiset(rest1) == multiset(next1) + multiset(LevelMatches(S1, Flatten(more)))
    requires multiset(rest2) == multiset(next2) + multiset(LevelMatches(S2, Flatten(more)))
    ensures Maximal(ss + more, caps + capsMore, next1, next2)
  {
    DrawnFrom(more, rest1, rest2, next1, next2);
    var all, allCaps := ss + more, caps + capsMore;
    forall k | 0 <= k < |all| && k < |allCaps| && |all[k]| < allCaps[k]
      ensures ClosedShort(all, k, next1, next2)
    {
      if k < |ss| {
        assert all[k] == ss[k] && allCaps[k] == caps[k];
        assert ClosedShort(ss, k, rest1, rest2);
        forall j, i | k < j < |all| && 0 <= i < |all[j]|
          ensures !Placeable(Match(all[j][i].a, all[j][i].b), TeamsIn(all[k]))
        {
          if j < |ss| {
            assert all[j] == ss[j];
          } else {
            assert all[j] == more[j - |ss|];
          }
        }
      } else {
        assert all[k] == more[k - |ss|] && allCaps[k] == capsMore[k - |ss|];
        assert ClosedShort(more, k - |ss|, next1, next2);
        forall j, i | k < j < |all| && 0 <= i < |all[j]|
          ensures !Placeable(Match(all[j][i].a, all[j][i].b), TeamsIn(all[k]))
        {
          assert all[j] == more[j - |ss|];
        }
      }
    }
  }

  /** One session filled as FillSession promises keeps the sessions so far maximal. */
  lemma MaximalSnoc(ss: seq<seq<Assignment>>, caps: seq<nat>, rest1: seq<Match>, rest2: seq<Match>,
                    session: seq<Assignment>, cap: nat, next1: seq<Match>, next2: seq<Match>)
    requires |ss| == |caps|
    requires Maximal(ss, caps, rest1, rest2)
    requires SessionShape(session)
    requires |session| < cap ==> forall m :: m in next1 + next2 ==> !Placeable(m, TeamsIn(session))
    requires multiset(rest1) == multiset(next1) + multiset(LevelMatches(S1, session))
    requires multiset(rest2) == multiset(next2) + multiset(LevelMatches(S2, session))
    ensures Maximal(ss + [session], caps + [cap], next1, next2)
  {
    FlattenOne(session);
    MaximalOne(session, cap, next1, next2);
    ShapeOne(session);
    MaximalAppend(ss, caps, rest1, rest2, [session], [cap], next1, next2);
  }

  lemma ShapeOne(session: seq<Assignment>)
    requires SessionShape(session)
    ensures forall j :: 0 <= j < |[session]| ==> SessionShape([session][j])
  {
    assert [session][0] == session;
  }

  lemma MaximalOne(session: seq<Assignment>, cap: nat, next1: seq<Match>, next2: seq<Match>)
    requires |session| < cap ==> forall m :: m in next1 + next2 ==> !Placeable(m, TeamsIn(session))
    ensures Maximal([session], [cap], next1, next2)
  {
    assert [session][0] == session;
  }

  /** A session holding nothing yet comes only after sessions that hold every match are empty. */
  predicate EmptyOnceDone(ss: seq<seq<Assignment>>, total: nat)
  {
    forall k :: 0 <= k < |ss| && |Flatten(ss[..k])| == total ==> ss[k] == []
  }

  /**
   * When the sessions hold `total` matches in all, every session after the
   * first `total` matches are placed is empty (a plan's `sessions.append([])`
   * and the drain's empty fills).
   */
  lemma AllPlacedThenEmpty(ss: seq<seq<Assignment>>, total: nat)
    requires |Flatten(ss)| == total
    ensures EmptyOnceDone(ss, total)
  {
    forall k | 0 <= k < |ss| && |Flatten(ss[..k])| == total
      ensures ss[k] == []
    {
      assert ss == ss[..k] + [ss[k]] + ss[k + 1..];
      FlattenAppend(ss[..k] + [ss[k]], ss[k + 1..]);
      FlattenSnoc(ss[..k], ss[k]);
    }
  }

  /** Positive counts, each below the one before and none above `total`. */
  predicate Descending(counts: seq<nat>, total: nat)
  {
    && (forall i :: 0 <= i < |counts| ==> 0 < counts[i] <= total)
    && (forall i :: 0 < i < |counts| ==> counts[i] < counts[i - 1])
  }

  lemma DescendingSnoc(counts: seq<nat>, c: nat, total: nat)
    requires Descending(counts, total) && 0 < c <= total
    requires |counts| > 0 ==> c < counts[|counts| - 1]
    ensures Descending(counts + [c], total)
  {
    assert forall i :: 0 <= i < |counts| ==> (counts + [c])[i] == counts[i];
  }

  /** The capacities of successive drain rounds: CapacityPlan(rooms, left, 1) for each count left. */
  function RoundPlans(rooms: int, counts: seq<nat>): seq<nat>
    requires rooms >= 1
  {
    if counts == [] then []
    else RoundPlans(rooms, counts[..|counts| - 1]) + CapacityPlan(rooms, counts[|counts| - 1], 1)
  }

  /** One more drain round appends its plan to the capacities, after the planned ones `caps`. */
  lemma RoundPlansSnoc(rooms: int, caps: seq<nat>, counts: seq<nat>, c: nat)
    requires rooms >= 1
    ensures RoundPlans(rooms, counts + [c]) == RoundPlans(rooms, counts) + CapacityPlan(rooms, c, 1)
    ensures caps + RoundPlans(rooms, counts + [c]) == caps + RoundPlans(rooms, counts) + CapacityPlan(rooms, c, 1)
  {
    assert (counts + [c])[..|counts|] == counts;
  }

  /**
   * The state of a loop filling one session per capacity of `caps`: the
   * sessions so far fit the rooms and their capacities, are maximal, and
   * with what is left they hold exactly the matches the loop started with.
   */
  predicate Filled(rooms: int, caps: seq<nat>, rem1: seq<Match>, rem2: seq<Match>,
                   ss: seq<seq<Assignment>>, rest1: seq<Match>, rest2: seq<Match>)
  {
    && |ss| <= |caps|
    && SessionsFit(ss, rooms) && WithinPlan(ss, caps)
    && Maximal(ss, caps[..|ss|], rest1, rest2)
    && Accounted(multiset(rem1), S1, rest1, ss)
    && Accounted(multiset(rem2), S2, rest2, ss)
    && |Flatten(ss)| + |rest1| + |rest2| == |rem1| + |rem2|
  }

  /** A session filled as FillSession promises, for the next capacity, keeps the loop state. */
  lemma FilledSnoc(rooms: int, caps: seq<nat>, rem1: seq<Match>, rem2: seq<Match>,
                   ss: seq<seq<Assignment>>, rest1: seq<Match>, rest2: seq<Match>,
                   session: seq<Assignment>, next1: seq<Match>, next2: seq<Match>)
    requires Filled(rooms, caps, rem1, rem2, ss, rest1, rest2) && |ss| < |caps|
    requires |session| <= caps[|ss|] <= rooms && SessionShape(session)
    requires multiset(rest1) == multiset(next1) + multiset(LevelMatches(S1, session))
    requires multiset(rest2) == multiset(next2) + multiset(LevelMatches(S2, session))
    requires |next1| + |next2| + |session| == |rest1| + |rest2|
    requires |session| < caps[|ss|] ==> forall m :: m in next1 + next2 ==> !Placeable(m, TeamsIn(session))
    ensures Filled(rooms, caps, rem1, rem2, ss + [session], next1, next2)
  {
    var k := |ss|;
    AppendSession(rooms, caps, rem1, rem2, ss, rest1, rest2, session, next1, next2);
    MaximalSnoc(ss, caps[..k], rest1, rest2, session, caps[k], next1, next2);
    TakeSnoc(caps, k);
    FlattenSnoc(ss, session);
  }

  lemma TakeSnoc(caps: seq<nat>, k: nat)
    requires k < |caps|
    ensures caps[..k] + [caps[k]] == caps[..k + 1]
  {
  }

  /**
   * The state of the drain loop of schedule_sessions, first half: the
   * sessions fit the rooms and the plan, and with what is left they hold
   * exactly the pairings.
   */
  predicate DrainedPlan(rooms: int, caps: seq<nat>, whole1: multiset<Match>, whole2: multiset<Match>, total: nat,
                        ss: seq<seq<Assignment>>, rest1: seq<Match>, rest2: seq<Match>)
  {
    && |ss| >= |caps|
    && SessionsFit(ss, rooms) && WithinPlan(ss, caps)
    && Accounted(whole1, S1, rest1, ss) && Accounted(whole2, S2, rest2, ss)
    && |Flatten(ss)| + |rest1| + |rest2| == total
  }

  /**
   * The state of the drain loop, second half: the capacities so far are
   * the plan followed by one CapacityPlan per drain round, each round
   * starting with fewer matches left than the one before, and the
   * sessions are within and maximal for those capacities.
   */
  predicate DrainedRounds(rooms: int, caps: seq<nat>, total: nat,
                          ss: seq<seq<Assignment>>, rest1: seq<Match>, rest2: seq<Match>,
                          allCaps: seq<nat>, counts: seq<nat>)
    requires rooms >= 1
  {
    && allCaps == caps + RoundPlans(rooms, counts)
    && Descending(counts, total)
    && (|counts| > 0 ==> |rest1| + |rest2| < counts[|counts| - 1])
    && |ss| == |allCaps| && WithinPlan(ss, allCaps)
    && Maximal(ss, allCaps, rest1, rest2)
  }

  /**
   * Each drain round's count is the number of matches the sessions before
   * it left unplaced: `total` less what the plan's sessions and the
   * earlier rounds' sessions hold.
   */
  predicate CountsLeft(rooms: int, caps: seq<nat>, total: nat, ss: seq<seq<Assignment>>, counts: seq<nat>)
    requires rooms >= 1
  {
    forall i :: 0 <= i < |counts| ==> CountLeftAt(rooms, caps, total, ss, counts, i)
  }

  /** Round `i` starts after the plan and rounds before it, with `counts[i]` matches not yet placed. */
  predicate CountLeftAt(rooms: int, caps: seq<nat>, total: nat, ss: seq<seq<Assignment>>, counts: seq<nat>, i: nat)
    requires rooms >= 1 && i < |counts|
  {
    && |caps| + |RoundPlans(rooms, counts[..i])| <= |ss|
    && counts[i] == total - |Flatten(ss[..|caps| + |RoundPlans(rooms, counts[..i])|])|
  }

  /** No drain round happens exactly when the planned sessions already hold every match. */
  lemma NoDrainIffPlanHoldsAll(rooms: int, caps: seq<nat>, total: nat, ss: seq<seq<Assignment>>,
                               allCaps: seq<nat>, counts: seq<nat>)
    requires rooms >= 1
    requires allCaps == caps + RoundPlans(rooms, counts) && |ss| == |allCaps|
    requires Descending(counts, total) && CountsLeft(rooms, caps, total, ss, counts)
    requires |Flatten(ss)| == total
    ensures |caps| <= |ss|
    ensures counts == [] <==> |Flatten(ss[..|caps|])| == total
  {
    if counts == [] {
      assert ss[..|caps|] == ss;
    } else {
      assert CountLeftAt(rooms, caps, total, ss, counts, 0);
      assert counts[..0] == [];
    }
  }

  /** A round starting when the sessions so far leave `c` matches keeps the counts tied to the sessions. */
  lemma CountsLeftSnoc(rooms: int, caps: seq<nat>, total: nat, ss: seq<seq<Assignment>>, counts: seq<nat>,
                       c: nat, extra: seq<seq<Assignment>>)
    requires rooms >= 1
    requires CountsLeft(rooms, caps, total, ss, counts)
    requires |ss| == |caps| + |RoundPlans(rooms, counts)|
    requires |Flatten(ss)| + c == total
    ensures CountsLeft(rooms, caps, total, ss + extra, counts + [c])
  {
    forall i | 0 <= i < |counts| + 1
      ensures CountLeftAt(rooms, caps, total, ss + extra, counts + [c], i)
    {
      if i < |counts| {
        CountLeftKept(rooms, caps, total, ss, counts, c, extra, i);
      } else {
        CountLeftLast(rooms, caps, total, ss, counts, c, extra);
      }
    }
  }

  lemma CountLeftKept(rooms: int, caps: seq<nat>, total: nat, ss: seq<seq<Assignment>>, counts: seq<nat>,
                      c: nat, extra: seq<seq<Assignment>>, i: nat)
    requires rooms >= 1 && i < |counts|
    requires CountLeftAt(rooms, caps, total, ss, counts, i)
    ensures CountLeftAt(rooms, caps, total, ss + extra, counts + [c], i)
  {
    assert (counts + [c])[..i] == counts[..i];
    PrefixKept(ss, extra, |caps| + |RoundPlans(rooms, counts[..i])|);
  }

  lemma CountLeftLast(rooms: int, caps: seq<nat>, total: nat, ss: seq<seq<Assignment>>, counts: seq<nat>,
                      c: nat, extra: seq<seq<Assignment>>)
    requires rooms >= 1
    requires |ss| == |caps| + |RoundPlans(rooms, counts)|
    requires |Flatten(ss)| + c == total
    ensures CountLeftAt(rooms, caps, total, ss + extra, counts + [c], |counts|)
  {
    assert (counts + [c])[..|counts|] == counts;
    PrefixKept(ss, extra, |ss|);
    assert ss[..|ss|] == ss;
  }

  lemma PrefixKept(ss: seq<seq<Assignment>>, extra: seq<seq<Assignment>>, n: nat)
    requires n <= |ss|
    ensures (ss + extra)[..n] == ss[..n]
  {
  }

  /**
   * One round of the drain: a fresh capacity plan for what is left, with
   * a minimum of one session, and one fill per planned session.
   * The first planned session has room, so every round places something.
   */
  method DrainRound(rooms: int, rem1: seq<Match>, rem2: seq<Match>)
    returns (extra: seq<seq<Assignment>>, rest1: seq<Match>, rest2: seq<Match>)
    requires rooms >= 1
    requires |rem1| + |rem2| > 0
    ensures SessionsFit(extra, rooms)
    ensures |extra| == |CapacityPlan(rooms, |rem1| + |rem2|, 1)|
    ensures WithinPlan(extra, CapacityPlan(rooms, |rem1| + |rem2|, 1))
    ensures Maximal(extra, CapacityPlan(rooms, |rem1| + |rem2|, 1), rest1, rest2)
    ensures Accounted(multiset(rem1), S1, rest1, extra)
    ensures Accounted(multiset(rem2), S2, rest2, extra)
    ensures |Flatten(extra)| + |rest1| + |rest2| == |rem1| + |rem2|
    ensures |rest1| + |rest2| < |rem1| + |rem2|
  {
    var caps := Capacities(rooms, |rem1| + |rem2|, 1);
    CapacityPlanShape(rooms, |rem1| + |rem2|, 1);
    extra, rest1, rest2 := DrainSessions(rooms, caps, rem1, rem2);
  }

  /**
   * The sessions of one drain round, one per capacity: each filled with
   * mixing off, so the level with more matches left goes first.
   */
  method DrainSessions(rooms: int, caps: seq<nat>, rem1: seq<Match>, rem2: seq<Match>)
    returns (extra: seq<seq<Assignment>>, rest1: seq<Match>, rest2: seq<Match>)
    requires |caps| > 0 && caps[0] > 0
    requires forall k :: 0 <= k < |caps| ==> caps[k] <= rooms
    requires |rem1| + |rem2| > 0
    ensures |extra| == |caps|
    ensures SessionsFit(extra, rooms) && WithinPlan(extra, caps)
    ensures Maximal(extra, caps, rest1, rest2)
    ensures Accounted(multiset(rem1), S1, rest1, extra)
    ensures Accounted(multiset(rem2), S2, rest2, extra)
    ensures |Flatten(extra)| + |rest1| + |rest2| == |rem1| + |rem2|
    ensures |rest1| + |rest2| < |rem1| + |rem2|
  {
    extra, rest1, rest2 := [], rem1, rem2;
    LevelMatchesOther(S1, []);
    LevelMatchesOther(S2, []);
    for k := 0 to |caps|
      invariant |extra| == k
      invariant Filled(rooms, caps, rem1, rem2, extra, rest1, rest2)
      invariant k > 0 ==> |rest1| + |rest2| < |rem1| + |rem2|
    {
      var session, next1, next2 := FillSession(caps[k], rest1, rest2, 0, 0, false);
      FilledSnoc(rooms, caps, rem1, rem2, extra, rest1, rest2, session, next1, next2);
      extra, rest1, rest2 := extra + [session], next1, next2;
    }
    assert caps[..|caps|] == caps;
  }

  /** The estimate min_sessions_needed makes for the two levels' pairings. */
  function Estimate(rooms: int, pairings1: seq<Match>, pairings2: seq<Match>, g: int): (r: int)
    requires rooms >= 1
    ensures r >= g
    ensures r * rooms >= TotalMatches([|TeamsOf(pairings1)|, |TeamsOf(pairings2)|], g)
  {
    MinSessionsNeeded(rooms, [|TeamsOf(pairings1)|, |TeamsOf(pairings2)|], g)
  }

  /**
   * The planned sessions of schedule_sessions: once nothing is left a
   * session stays entirely free; otherwise it is filled with mixing as
   * asked and per-level targets ceil(left / sessions left).
   */
  method PlannedSessions(rooms: int, caps: seq<nat>, rem1: seq<Match>, rem2: seq<Match>, mix: bool)
    returns (sessions: seq<seq<Assignment>>, rest1: seq<Match>, rest2: seq<Match>)
    requires rooms >= 1
    requires forall k :: 0 <= k < |caps| ==> caps[k] <= rooms
    ensures |sessions| == |caps|
    ensures SessionsFit(sessions, rooms) && WithinPlan(sessions, caps)
    ensures Maximal(sessions, caps, rest1, rest2)
    ensures Accounted(multiset(rem1), S1, rest1, sessions)
    ensures Accounted(multiset(rem2), S2, rest2, sessions)
    ensures |Flatten(sessions)| + |rest1| + |rest2| == |rem1| + |rem2|
  {
    sessions, rest1, rest2 := [], rem1, rem2;
    LevelMatchesOther(S1, []);
    LevelMatchesOther(S2, []);
    for sIdx := 0 to |caps|
      invariant |sessions| == sIdx
      invariant Filled(rooms, caps, rem1, rem2, sessions, rest1, rest2)
    {
      var session := [];
      var next1, next2 := rest1, rest2;
      if |rest1| + |rest2| > 0 {
        var left := |caps| - sIdx;
        session, next1, next2 := FillSession(caps[sIdx], rest1, rest2,
                                             CeilDiv(|rest1|, left), CeilDiv(|rest2|, left), mix);
      } else {
        assert LevelMatches(S1, session) == [] && LevelMatches(S2, session) == [];
      }
      FilledSnoc(rooms, caps, rem1, rem2, sessions, rest1, rest2, session, next1, next2);
      sessions, rest1, rest2 := sessions + [session], next1, next2;
    }
    assert caps[..|caps|] == caps;
  }

  /**
   * schedule_sessions: the planned sessions for the estimate, then drain
   * rounds until every match is placed. `shuffled1` and `shuffled2` are
   * the shuffled copies of the two levels' pairings; the count of matches
   * still to place is |rest1| + |rest2|. `allCaps` is the capacity each
   * session was filled against: the plan, then one CapacityPlan per drain
   * round, the rounds starting with `counts` matches left.
   */
  method ScheduleSessions(rooms: int, pairings1: seq<Match>, pairings2: seq<Match>, g: int, mix: bool,
                          shuffled1: seq<Match>, shuffled2: seq<Match>)
    returns (sessions: seq<seq<Assignment>>, ghost allCaps: seq<nat>, ghost counts: seq<nat>)
    requires rooms >= 1
    requires multiset(shuffled1) == multiset(pairings1) && multiset(shuffled2) == multiset(pairings2)
    ensures SessionsFit(sessions, rooms)
    ensures multiset(LevelMatches(S1, Flatten(sessions))) == multiset(pairings1)
    ensures multiset(LevelMatches(S2, Flatten(sessions))) == multiset(pairings2)
    ensures |sessions| >= |CapacityPlan(rooms, |pairings1| + |pairings2|, Estimate(rooms, pairings1, pairings2, g))|
    ensures WithinPlan(sessions, CapacityPlan(rooms, |pairings1| + |pairings2|, Estimate(rooms, pairings1, pairings2, g)))
    ensures allCaps == CapacityPlan(rooms, |pairings1| + |pairings2|, Estimate(rooms, pairings1, pairings2, g))
                       + RoundPlans(rooms, counts)
    ensures Descending(counts, |pairings1| + |pairings2|)
    ensures |sessions| == |allCaps| && WithinPlan(sessions, allCaps)
    ensures Maximal(sessions, allCaps, [], [])
    ensures CountsLeft(rooms, CapacityPlan(rooms, |pairings1| + |pairings2|, Estimate(rooms, pairings1, pairings2, g)),
                       |pairings1| + |pairings2|, sessions, counts)
    ensures counts == [] <==>
              |Flatten(sessions[..|CapacityPlan(rooms, |pairings1| + |pairings2|, Estimate(rooms, pairings1, pairings2, g))|])|
              == |pairings1| + |pairings2|
    ensures EmptyOnceDone(sessions, |pairings1| + |pairings2|)
  {
    var est := Estimate(rooms, pairings1, pairings2, g);
    assert |shuffled1| == |multiset(shuffled1)| == |multiset(pairings1)| == |pairings1|;
    assert |shuffled2| == |multiset(shuffled2)| == |multiset(pairings2)| == |pairings2|;
    var caps := Capacities(rooms, |shuffled1| + |shuffled2|, est);
    CapacityPlanShape(rooms, |shuffled1| + |shuffled2|, est);
    assert caps == CapacityPlan(rooms, |pairings1| + |pairings2|, Estimate(rooms, pairings1, pairings2, g));
    var planned, rest1, rest2 := PlannedSessions(rooms, caps, shuffled1, shuffled2, mix);
    // matches that did not fit the plan go into extra sessions
    sessions, allCaps, counts := Drain(rooms, caps, multiset(pairings1), multiset(pairings2),
                                       |pairings1| + |pairings2|, planned, rest1, rest2);
    AllPlacedThenEmpty(sessions, |pairings1| + |pairings2|);
  }

  /**
   * The drain loop of schedule_sessions: while matches are left, one more
   * DrainRound. It ends with nothing left.
   */
  method Drain(rooms: int, caps: seq<nat>, whole1: multiset<Match>, whole2: multiset<Match>, total: nat,
               planned: seq<seq<Assignment>>, rem1: seq<Match>, rem2: seq<Match>)
    returns (sessions: seq<seq<Assignment>>, ghost allCaps: seq<nat>, ghost counts: seq<nat>)
    requires rooms >= 1
    requires DrainedPlan(rooms, caps, whole1, whole2, total, planned, rem1, rem2)
    requires |planned| == |caps| && WithinPlan(planned, caps) && Maximal(planned, caps, rem1, rem2)
    ensures DrainedPlan(rooms, caps, whole1, whole2, total, sessions, [], [])
    ensures DrainedRounds(rooms, caps, total, sessions, [], [], allCaps, counts)
    ensures CountsLeft(rooms, caps, total, sessions, counts)
    ensures |sessions| >= |planned| && sessions[..|planned|] == planned
    ensures counts == [] <==> |Flatten(planned)| == total
  {
    var rest1, rest2 := rem1, rem2;
    sessions, allCaps, counts := planned, caps, [];
    assert planned[..|planned|] == planned;
    while |rest1| + |rest2| > 0
      invariant Draining(rooms, caps, whole1, whole2, total, planned, sessions, rest1, rest2, allCaps, counts)
      decreases |rest1| + |rest2|
    {
      var extra, next1, next2 := DrainRound(rooms, rest1, rest2);
      DrainStep(rooms, caps, whole1, whole2, total, planned, sessions, rest1, rest2, allCaps, counts,
                extra, next1, next2);
      allCaps, counts := allCaps + CapacityPlan(rooms, |rest1| + |rest2|, 1), counts + [|rest1| + |rest2|];
      sessions, rest1, rest2 := sessions + extra, next1, next2;
    }
    NoDrainIffPlanHoldsAll(rooms, caps, total, sessions, allCaps, counts);
  }

  /** The whole state of the drain loop: both halves, the counts left, and the planned sessions kept first. */
  predicate Draining(rooms: int, caps: seq<nat>, whole1: multiset<Match>, whole2: multiset<Match>, total: nat,
                     planned: seq<seq<Assignment>>, ss: seq<seq<Assignment>>, rest1: seq<Match>, rest2: seq<Match>,
                     allCaps: seq<nat>, counts: seq<nat>)
    requires rooms >= 1
  {
    && DrainedPlan(rooms, caps, whole1, whole2, total, ss, rest1, rest2)
    && DrainedRounds(rooms, caps, total, ss, rest1, rest2, allCaps, counts)
    && CountsLeft(rooms, caps, total, ss, counts)
    && |ss| >= |planned| && ss[..|planned|] == planned
  }

  /** One drain round, as DrainRound promises it, keeps the drain loop state. */
  lemma DrainStep(rooms: int, caps: seq<nat>, whole1: multiset<Match>, whole2: multiset<Match>, total: nat,
                  planned: seq<seq<Assignment>>, ss: seq<seq<Assignment>>, rest1: seq<Match>, rest2: seq<Match>,
                  allCaps: seq<nat>, counts: seq<nat>,
                  extra: seq<seq<Assignment>>, next1: seq<Match>, next2: seq<Match>)
    requires rooms >= 1 && |rest1| + |rest2| > 0
    requires Draining(rooms, caps, whole1, whole2, total, planned, ss, rest1, rest2, allCaps, counts)
    requires SessionsFit(extra, rooms)
    requires |extra| == |CapacityPlan(rooms, |rest1| + |rest2|, 1)|
    requires WithinPlan(extra, CapacityPlan(rooms, |rest1| + |rest2|, 1))
    requires Maximal(extra, CapacityPlan(rooms, |rest1| + |rest2|, 1), next1, next2)
    requires Accounted(multiset(rest1), S1, next1, extra)
    requires Accounted(multiset(rest2), S2, next2, extra)
    requires |Flatten(extra)| + |next1| + |next2| == |rest1| + |rest2|
    requires |next1| + |next2| < |rest1| + |rest2|
    ensures Draining(rooms, caps, whole1, whole2, total, planned, ss + extra, next1, next2,
                     allCaps + CapacityPlan(rooms, |rest1| + |rest2|, 1), counts + [|rest1| + |rest2|])
  {
    var c := |rest1| + |rest2|;
    DrainBookkeeping(rooms, caps, whole1, whole2, total, ss, rest1, rest2, extra, next1, next2);
    PrefixKept(ss, extra, |planned|);
    RoundStep(rooms, caps, total, ss, rest1, rest2, allCaps, counts, extra, next1, next2);
    CountsLeftSnoc(rooms, caps, total, ss, counts, c, extra);
  }

  /** Appending a drain round keeps the first half of the drain loop state. */
  lemma DrainBookkeeping(rooms: int, caps: seq<nat>, whole1: multiset<Match>, whole2: multiset<Match>, total: nat,
                         sessions: seq<seq<Assignment>>, rest1: seq<Match>, rest2: seq<Match>,
                         extra: seq<seq<Assignment>>, next1: seq<Match>, next2: seq<Match>)
    requires DrainedPlan(rooms, caps, whole1, whole2, total, sessions, rest1, rest2)
    requires SessionsFit(extra, rooms)
    requires Accounted(multiset(rest1), S1, next1, extra)
    requires Accounted(multiset(rest2), S2, next2, extra)
    requires |Flatten(extra)| + |next1| + |next2| == |rest1| + |rest2|
    ensures DrainedPlan(rooms, caps, whole1, whole2, total, sessions + extra, next1, next2)
  {
    AccountedAppend(whole1, S1, rest1, sessions, next1, extra);
    AccountedAppend(whole2, S2, rest2, sessions, next2, extra);
    SessionsFitAppend(sessions, extra, rooms);
    WithinPlanBeyond(sessions, extra, caps);
    FlattenAppend(sessions, extra);
  }

  /** Appending a drain round keeps the second half of the drain loop state. */
  lemma RoundStep(rooms: int, caps: seq<nat>, total: nat,
                  ss: seq<seq<Assignment>>, rest1: seq<Match>, rest2: seq<Match>,
                  allCaps: seq<nat>, counts: seq<nat>,
                  extra: seq<seq<Assignment>>, next1: seq<Match>, next2: seq<Match>)
    requires rooms >= 1
    requires DrainedRounds(rooms, caps, total, ss, rest1, rest2, allCaps, counts)
    requires 0 < |rest1| + |rest2| <= total
    requires forall j :: 0 <= j < |extra| ==> SessionShape(extra[j])
    requires |extra| == |CapacityPlan(rooms, |rest1| + |rest2|, 1)|
    requires WithinPlan(extra, CapacityPlan(rooms, |rest1| + |rest2|, 1))
    requires Maximal(extra, CapacityPlan(rooms, |rest1| + |rest2|, 1), next1, next2)
    requires Accounted(multiset(rest1), S1, next1, extra)
    requires Accounted(multiset(rest2), S2, next2, extra)
    requires |next1| + |next2| < |rest1| + |rest2|
    ensures DrainedRounds(rooms, caps, total, ss + extra, next1, next2,
                          allCaps + CapacityPlan(rooms, |rest1| + |rest2|, 1), counts + [|rest1| + |rest2|])
  {
    var plan := CapacityPlan(rooms, |rest1| + |rest2|, 1);
    MaximalRound(ss, allCaps, rest1, rest2, extra, plan, next1, next2);
    RoundPlansSnoc(rooms, caps, counts, |rest1| + |rest2|);
    DescendingSnoc(counts, |rest1| + |rest2|, total);
  }

  /** Appending a drain round keeps the sessions within, and maximal for, their capacities. */
  lemma MaximalRound(sessions: seq<seq<Assignment>>, allCaps: seq<nat>, rest1: seq<Match>, rest2: seq<Match>,
                     extra: seq<seq<Assignment>>, plan: seq<nat>, next1: seq<Match>, next2: seq<Match>)
    requires |sessions| == |allCaps| && WithinPlan(sessions, allCaps)
    requires Maximal(sessions, allCaps, rest1, rest2)
    requires forall j :: 0 <= j < |extra| ==> SessionShape(extra[j])
    requires |extra| == |plan| && WithinPlan(extra, plan) && Maximal(extra, plan, next1, next2)
    requires Accounted(multiset(rest1), S1, next1, extra)
    requires Accounted(multiset(rest2), S2, next2, extra)
    ensures |sessions + extra| == |allCaps + plan| && WithinPlan(sessions + extra, allCaps + plan)
    ensures Maximal(sessions + extra, allCaps + plan, next1, next2)
  {
    MaximalAppend(sessions, allCaps, rest1, rest2, extra, plan, next1, next2);
    forall k | 0 <= k < |sessions + extra| && k < |allCaps + plan|
      ensures |(sessions + extra)[k]| <= (allCaps + plan)[k]
    {
      if k >= |sessions| {
        assert (sessions + extra)[k] == extra[k - |sessions|];
      }
    }
  }
}
