/**
 * The pairing generator of one category: the list of inter-school pairs
 * (all_allowed_pairs) and the greedy weighted heuristic (build_pairings)
 * that picks n*g/2 matches so that every team plays exactly g games.
 *
 * The source's random tie-break (random.random() inside pair_cost) is the
 * parameter `tie`: tie(round, k) is the value drawn for the k-th candidate
 * of the given round.
 */
module Pairing {
  import opened Common

  /** Why build_pairings rejects its configuration (the ValueError cases). */
  datatype ConfigIssue = TooFewTeams | NoGames | OddTeamSlots | NoInterSchoolPair

  datatype PairingError =
    | ConfigError(issue: ConfigIssue)          // ValueError
    | Stuck                                    // RuntimeError
    | DegreeMismatch(team: Team, degree: nat)  // AssertionError of the final sanity check

  datatype Result<T> = Ok(value: T) | Err(error: PairingError)

  /** Every team has a school. */
  predicate Covers(teams: seq<Team>, t2s: map<Team, School>)
  {
    forall t :: t in teams ==> t in t2s
  }

  predicate DistinctNames(teams: seq<Team>)
  {
    forall i, j :: 0 <= i < j < |teams| ==> teams[i] != teams[j]
  }

  // ---------------------------------------------------------------------
  // all_allowed_pairs
  // ---------------------------------------------------------------------

  /** The pairs (teams[i], teams[k]) with i < k < j from different schools, in order of k. */
  function PartialRow(teams: seq<Team>, t2s: map<Team, School>, i: nat, j: nat): seq<Match>
    requires Covers(teams, t2s)
    requires i < j <= |teams|
    decreases j
  {
    if j == i + 1 then []
    else
      PartialRow(teams, t2s, i, j - 1)
      + (if t2s[teams[i]] != t2s[teams[j - 1]] then [Match(teams[i], teams[j - 1])] else [])
  }

  /** The inter-school pairs whose first team is one of teams[..i], in combination order. */
  function Rows(teams: seq<Team>, t2s: map<Team, School>, i: nat): seq<Match>
    requires Covers(teams, t2s)
    requires i <= |teams|
  {
    if i == 0 then [] else Rows(teams, t2s, i - 1) + PartialRow(teams, t2s, i - 1, |teams|)
  }

  /** itertools.combinations(teams, 2), keeping the inter-school pairs. */
  function AllowedPairs(teams: seq<Team>, t2s: map<Team, School>): seq<Match>
    requires Covers(teams, t2s)
  {
    Rows(teams, t2s, |teams|)
  }

  /** m is (teams[i], teams[j]) for some i < j, and the two schools differ. */
  predicate IsAllowedPair(teams: seq<Team>, t2s: map<Team, School>, m: Match)
    requires Covers(teams, t2s)
  {
    exists i, j :: 0 <= i < j < |teams| && teams[i] == m.a && teams[j] == m.b && t2s[m.a] != t2s[m.b]
  }

  method AllAllowedPairs(teams: seq<Team>, t2s: map<Team, School>) returns (out: seq<Match>)
    requires Covers(teams, t2s)
    ensures out == AllowedPairs(teams, t2s)
  {
    out := [];
    for i := 0 to |teams|
      invariant out == Rows(teams, t2s, i)
    {
      var row := AllowedRow(teams, t2s, i);
      out := out + row;
    }
  }

  /** The pairs (teams[i], teams[k]) of all_allowed_pairs for one first team teams[i]. */
  method AllowedRow(teams: seq<Team>, t2s: map<Team, School>, i: nat) returns (row: seq<Match>)
    requires Covers(teams, t2s)
    requires i < |teams|
    ensures row == PartialRow(teams, t2s, i, |teams|)
  {
    row := [];
    for j := i + 1 to |teams|
      invariant row == PartialRow(teams, t2s, i, j)
    {
      if t2s[teams[i]] != t2s[teams[j]] {
        row := row + [Match(teams[i], teams[j])];
      }
    }
  }

  lemma {:induction false} PartialRowMembers(teams: seq<Team>, t2s: map<Team, School>, i: nat, j: nat, m: Match)
    requires Covers(teams, t2s)
    requires i < j <= |teams|
    ensures m in PartialRow(teams, t2s, i, j)
        <==> exists k :: i < k < j && teams[i] == m.a && teams[k] == m.b && t2s[m.a] != t2s[m.b]
    decreases j
  {
    if j > i + 1 {
      PartialRowMembers(teams, t2s, i, j - 1, m);
    }
  }

  /** Every pair in the first i rows is (teams[i'], teams[k]) for some i' < i, i' < k, across schools. */
  lemma {:induction false} RowsSound(teams: seq<Team>, t2s: map<Team, School>, i: nat, m: Match)
    requires Covers(teams, t2s)
    requires i <= |teams|
    requires m in Rows(teams, t2s, i)
    ensures exists i', k :: 0 <= i' < i && i' < k < |teams|
                         && teams[i'] == m.a && teams[k] == m.b && t2s[m.a] != t2s[m.b]
    decreases i
  {
    assert i > 0;
    RowMembers(teams, t2s, i, m);
    if m in Rows(teams, t2s, i - 1) {
      RowsSound(teams, t2s, i - 1, m);
      var i', k :| 0 <= i' < i - 1 && i' < k < |teams| && teams[i'] == m.a && teams[k] == m.b && t2s[m.a] != t2s[m.b];
      assert 0 <= i' < i;
    } else {
      LastRowSound(teams, t2s, i, m);
    }
  }

  lemma LastRowSound(teams: seq<Team>, t2s: map<Team, School>, i: nat, m: Match)
    requires Covers(teams, t2s)
    requires 0 < i <= |teams|
    requires m in PartialRow(teams, t2s, i - 1, |teams|)
    ensures exists i', k :: 0 <= i' < i && i' < k < |teams|
                         && teams[i'] == m.a && teams[k] == m.b && t2s[m.a] != t2s[m.b]
  {
    PartialRowMembers(teams, t2s, i - 1, |teams|, m);
    var k :| i - 1 < k < |teams| && teams[i - 1] == m.a && teams[k] == m.b && t2s[m.a] != t2s[m.b];
    assert 0 <= i - 1 < i;
  }

  /** Every inter-school pair (teams[i'], teams[k]) with i' < i, i' < k is in the first i rows. */
  lemma {:induction false} RowsComplete(teams: seq<Team>, t2s: map<Team, School>, i: nat, i': nat, k: nat, m: Match)
    requires Covers(teams, t2s)
    requires i <= |teams|
    requires i' < i && i' < k < |teams| && teams[i'] == m.a && teams[k] == m.b && t2s[m.a] != t2s[m.b]
    ensures m in Rows(teams, t2s, i)
    decreases i
  {
    if i' < i - 1 {
      RowsComplete(teams, t2s, i - 1, i', k, m);
    } else {
      LastRowComplete(teams, t2s, i, k, m);
    }
    RowMembers(teams, t2s, i, m);
  }

  /** A pair is in the first i rows iff it is in the first i - 1 or in row i - 1. */
  lemma RowMembers(teams: seq<Team>, t2s: map<Team, School>, i: nat, m: Match)
    requires Covers(teams, t2s)
    requires 0 < i <= |teams|
    ensures m in Rows(teams, t2s, i) <==> m in Rows(teams, t2s, i - 1) || m in PartialRow(teams, t2s, i - 1, |teams|)
  {
  }

  lemma LastRowComplete(teams: seq<Team>, t2s: map<Team, School>, i: nat, k: nat, m: Match)
    requires Covers(teams, t2s)
    requires 0 < i <= |teams|
    requires i - 1 < k < |teams| && teams[i - 1] == m.a && teams[k] == m.b && t2s[m.a] != t2s[m.b]
    ensures m in PartialRow(teams, t2s, i - 1, |teams|)
  {
    PartialRowMembers(teams, t2s, i - 1, |teams|, m);
  }

  /** all_allowed_pairs lists exactly the inter-school pairs (a, b) with a before b. */
  lemma AllowedPairsExactly(teams: seq<Team>, t2s: map<Team, School>)
    requires Covers(teams, t2s)
    ensures forall m :: m in AllowedPairs(teams, t2s) <==> IsAllowedPair(teams, t2s, m)
  {
    forall m
      ensures m in AllowedPairs(teams, t2s) <==> IsAllowedPair(teams, t2s, m)
    {
      if m in AllowedPairs(teams, t2s) {
        RowsSound(teams, t2s, |teams|, m);
      }
      if IsAllowedPair(teams, t2s, m) {
        var i, j :| 0 <= i < j < |teams| && teams[i] == m.a && teams[j] == m.b && t2s[m.a] != t2s[m.b];
        RowsComplete(teams, t2s, |teams|, i, j, m);
      }
    }
  }

  /** Consequence used by the generator: an allowed pair is two teams of the list from different schools. */
  lemma AllowedPairsSound(teams: seq<Team>, t2s: map<Team, School>)
    requires Covers(teams, t2s)
    ensures forall m :: m in AllowedPairs(teams, t2s) ==>
              m.a in teams && m.b in teams && t2s[m.a] != t2s[m.b] && m.a != m.b
  {
    AllowedPairsExactly(teams, t2s);
  }

  // ---------------------------------------------------------------------
  // The generator's bookkeeping: degree, used_vs, school_pair_count
  // ---------------------------------------------------------------------

  /** degree[t] of the Counter (0 for an absent key). */
  function Deg(degree: map<Team, nat>, t: Team): nat
  {
    if t in degree then degree[t] else 0
  }

  /** used_vs[t] of the defaultdict(set). */
  function Opponents(usedVs: map<Team, set<Team>>, t: Team): set<Team>
  {
    if t in usedVs then usedVs[t] else {}
  }

  function SpCount(spc: map<(School, School), nat>, k: (School, School)): nat
  {
    if k in spc then spc[k] else 0
  }

  /** Python's string order `<`: lexicographic by code point. */
  predicate StrLess(x: string, y: string)
  {
    if |x| == 0 then |y| > 0
    else if |y| == 0 then false
    else if x[0] != y[0] then x[0] < y[0]
    else StrLess(x[1..], y[1..])
  }

  /** sp_key: the school pair in canonical order. */
  function SpKey(sa: School, sb: School): (r: (School, School))
    ensures r == (sa, sb) || r == (sb, sa)
    ensures r.0 == r.1 || StrLess(r.0, r.1)
  {
    StrLessTrichotomy(sa, sb);
    if StrLess(sa, sb) then (sa, sb) else (sb, sa)
  }

  lemma {:induction false} StrLessTrichotomy(x: string, y: string)
    ensures x != y ==> StrLess(x, y) || StrLess(y, x)
    ensures !(StrLess(x, y) && StrLess(y, x))
    decreases |x|
  {
    if |x| > 0 && |y| > 0 && x[0] == y[0] {
      StrLessTrichotomy(x[1..], y[1..]);
      if x != y {
        assert x == [x[0]] + x[1..] && y == [y[0]] + y[1..];
      }
    }
  }

  /** sp_key does not depend on the order of the two teams. */
  lemma SpKeySymmetric(sa: School, sb: School)
    ensures SpKey(sa, sb) == SpKey(sb, sa)
  {
    StrLessTrichotomy(sa, sb);
  }

  /** Teams a and b have already met in the history. */
  function Met(history: seq<Match>, a: Team, b: Team): bool
  {
    if history == [] then false
    else
      var m := history[|history| - 1];
      Met(history[..|history| - 1], a, b) || (m.a == a && m.b == b) || (m.a == b && m.b == a)
  }

  predicate CoversMatches(ms: seq<Match>, t2s: map<Team, School>)
  {
    forall m :: m in ms ==> m.a in t2s && m.b in t2s
  }

  /** How often the school pair k has met in the history. */
  function SchoolPairCount(t2s: map<Team, School>, history: seq<Match>, k: (School, School)): nat
    requires CoversMatches(history, t2s)
  {
    if history == [] then 0
    else
      var m := history[|history| - 1];
      SchoolPairCount(t2s, history[..|history| - 1], k) + (if SpKey(t2s[m.a], t2s[m.b]) == k then 1 else 0)
  }

  /** The three mutable tables describe the matches chosen so far. */
  ghost predicate Tracks(t2s: map<Team, School>, degree: map<Team, nat>, usedVs: map<Team, set<Team>>,
                         spc: map<(School, School), nat>, history: seq<Match>)
  {
    && CoversMatches(history, t2s)
    && (forall t :: Deg(degree, t) == MatchCount(t, history))
    && (forall a, b :: b in Opponents(usedVs, a) <==> Met(history, a, b))
    && (forall k :: SpCount(spc, k) == SchoolPairCount(t2s, history, k))
  }

  function Bump(degree: map<Team, nat>, t: Team): map<Team, nat>
  {
    degree[t := Deg(degree, t) + 1]
  }

  function Meet(usedVs: map<Team, set<Team>>, a: Team, b: Team): map<Team, set<Team>>
  {
    usedVs[a := Opponents(usedVs, a) + {b}]
  }

  function BumpPair(spc: map<(School, School), nat>, k: (School, School)): map<(School, School), nat>
  {
    spc[k := SpCount(spc, k) + 1]
  }

  /** Recording a match (lines 138-142) keeps the tables in step with the history. */
  lemma TracksStep(t2s: map<Team, School>, degree: map<Team, nat>, usedVs: map<Team, set<Team>>,
                   spc: map<(School, School), nat>, history: seq<Match>, m: Match)
    requires Tracks(t2s, degree, usedVs, spc, history)
    requires m.a in t2s && m.b in t2s
    ensures Tracks(t2s, Bump(Bump(degree, m.a), m.b), Meet(Meet(usedVs, m.a, m.b), m.b, m.a),
                   BumpPair(spc, SpKey(t2s[m.a], t2s[m.b])), history + [m])
  {
    var h := history + [m];
    assert h[..|history|] == history;
    assert CoversMatches(h, t2s);
    forall t
      ensures Deg(Bump(Bump(degree, m.a), m.b), t) == MatchCount(t, h)
    {
      MatchCountSnoc(t, history, m);
    }
    forall a, b
      ensures b in Opponents(Meet(Meet(usedVs, m.a, m.b), m.b, m.a), a) <==> Met(h, a, b)
    {
    }
    forall k
      ensures SpCount(BumpPair(spc, SpKey(t2s[m.a], t2s[m.b])), k) == SchoolPairCount(t2s, h, k)
    {
    }
  }

  // ---------------------------------------------------------------------
  // pair_cost and the choice of one match
  // ---------------------------------------------------------------------

  /** The cost tuple (c1, c2, c3, c4) of pair_cost. */
  datatype Cost = Cost(load: nat, schoolPairs: nat, repeat: nat, tie: int)

  /** Python's tuple order on costs. */
  predicate CostLess(x: Cost, y: Cost)
  {
    x.load < y.load
    || (x.load == y.load && x.schoolPairs < y.schoolPairs)
    || (x.load == y.load && x.schoolPairs == y.schoolPairs && x.repeat < y.repeat)
    || (x.load == y.load && x.schoolPairs == y.schoolPairs && x.repeat == y.repeat && x.tie < y.tie)
  }

  /** The order on (c1, c2, c3) only, which the random c4 cannot override. */
  predicate PrefixLe(x: Cost, y: Cost)
  {
    x.load < y.load
    || (x.load == y.load && x.schoolPairs < y.schoolPairs)
    || (x.load == y.load && x.schoolPairs == y.schoolPairs && x.repeat <= y.repeat)
  }

  function PairCost(t2s: map<Team, School>, degree: map<Team, nat>, usedVs: map<Team, set<Team>>,
                    spc: map<(School, School), nat>, p: Match, tieValue: int): (r: Cost)
    requires p.a in t2s && p.b in t2s
    ensures r.load >= Deg(degree, p.a) && r.load >= Deg(degree, p.b)
    ensures r.load == Deg(degree, p.a) || r.load == Deg(degree, p.b)
    ensures r.schoolPairs == SpCount(spc, SpKey(t2s[p.b], t2s[p.a]))
    ensures r.repeat <= 1 && (r.repeat == 1 <==> p.b in Opponents(usedVs, p.a))
    ensures r.tie == tieValue
  {
    SpKeySymmetric(t2s[p.a], t2s[p.b]);
    Cost(Max(Deg(degree, p.a), Deg(degree, p.b)),
         SpCount(spc, SpKey(t2s[p.a], t2s[p.b])),
         if p.b in Opponents(usedVs, p.a) then 1 else 0,
         tieValue)
  }

  /** The (c1, c2, c3) part of the cost, read off the history instead of the tables. */
  ghost function HistoryCost(t2s: map<Team, School>, history: seq<Match>, p: Match): Cost
    requires CoversMatches(history, t2s)
    requires p.a in t2s && p.b in t2s
  {
    Cost(Max(MatchCount(p.a, history), MatchCount(p.b, history)),
         SchoolPairCount(t2s, history, SpKey(t2s[p.a], t2s[p.b])),
         if Met(history, p.a, p.b) then 1 else 0,
         0)
  }

  /** Both teams still need games. */
  predicate Open(history: seq<Match>, g: int, p: Match)
  {
    MatchCount(p.a, history) < g && MatchCount(p.b, history) < g
  }

  /** The pairs, in order, whose teams both need games and have not met yet. */
  ghost function FreshFilter(pairs: seq<Match>, g: int, history: seq<Match>): (r: seq<Match>)
    ensures forall p :: p in r <==> p in pairs && Open(history, g, p) && !Met(history, p.a, p.b)
  {
    if pairs == [] then []
    else
      var init, p := pairs[..|pairs| - 1], pairs[|pairs| - 1];
      assert pairs == init + [p];
      FreshFilter(init, g, history) + (if Open(history, g, p) && !Met(history, p.a, p.b) then [p] else [])
  }

  /** The pairs, in order, whose teams both need games. */
  ghost function OpenFilter(pairs: seq<Match>, g: int, history: seq<Match>): (r: seq<Match>)
    ensures forall p :: p in r <==> p in pairs && Open(history, g, p)
  {
    if pairs == [] then []
    else
      var init, p := pairs[..|pairs| - 1], pairs[|pairs| - 1];
      assert pairs == init + [p];
      OpenFilter(init, g, history) + (if Open(history, g, p) then [p] else [])
  }

  /** The non-repeat candidates of lines 121-127, in pair order. */
  method FreshCandidates(pairs: seq<Match>, g: int, degree: map<Team, nat>, usedVs: map<Team, set<Team>>,
                         ghost history: seq<Match>)
    returns (candidates: seq<Match>)
    requires forall t :: Deg(degree, t) == MatchCount(t, history)
    requires forall a, b :: b in Opponents(usedVs, a) <==> Met(history, a, b)
    ensures candidates == FreshFilter(pairs, g, history)
    ensures forall p :: p in candidates <==> p in pairs && Open(history, g, p) && !Met(history, p.a, p.b)
  {
    candidates := [];
    for i := 0 to |pairs|
      invariant candidates == FreshFilter(pairs[..i], g, history)
    {
      assert pairs[..i + 1][..i] == pairs[..i];
      var p := pairs[i];
      if Deg(degree, p.a) >= g || Deg(degree, p.b) >= g {
        continue;
      }
      if p.b in Opponents(usedVs, p.a) {
        continue;
      }
      candidates := candidates + [p];
    }
    assert pairs[..|pairs|] == pairs;
  }

  /** The relaxed candidates of lines 131-133: every pair whose teams both need games. */
  method OpenCandidates(pairs: seq<Match>, g: int, degree: map<Team, nat>, ghost history: seq<Match>)
    returns (candidates: seq<Match>)
    requires forall t :: Deg(degree, t) == MatchCount(t, history)
    ensures candidates == OpenFilter(pairs, g, history)
    ensures forall p :: p in candidates <==> p in pairs && Open(history, g, p)
  {
    candidates := [];
    for i := 0 to |pairs|
      invariant candidates == OpenFilter(pairs[..i], g, history)
    {
      assert pairs[..i + 1][..i] == pairs[..i];
      var p := pairs[i];
      if Deg(degree, p.a) < g && Deg(degree, p.b) < g {
        candidates := candidates + [p];
      }
    }
    assert pairs[..|pairs|] == pairs;
  }

  /**
   * min(candidates, key=pair_cost): the first candidate whose cost is not
   * beaten by any other, c4 being tie(round, position).
   */
  method CheapestCandidate(candidates: seq<Match>, t2s: map<Team, School>, degree: map<Team, nat>,
                           usedVs: map<Team, set<Team>>, spc: map<(School, School), nat>,
                           round: nat, tie: (nat, nat) -> int)
    returns (best: nat)
    requires |candidates| > 0
    requires CoversMatches(candidates, t2s)
    ensures best < |candidates|
    ensures forall j :: 0 <= j < |candidates| ==>
              !CostLess(PairCost(t2s, degree, usedVs, spc, candidates[j], tie(round, j)),
                        PairCost(t2s, degree, usedVs, spc, candidates[best], tie(round, best)))
    ensures forall j :: 0 <= j < best ==>
              CostLess(PairCost(t2s, degree, usedVs, spc, candidates[best], tie(round, best)),
                       PairCost(t2s, degree, usedVs, spc, candidates[j], tie(round, j)))
  {
    best := 0;
    var bestCost := PairCost(t2s, degree, usedVs, spc, candidates[0], tie(round, 0));
    for k := 1 to |candidates|
      invariant best < k
      invariant bestCost == PairCost(t2s, degree, usedVs, spc, candidates[best], tie(round, best))
      invariant forall j :: 0 <= j < k ==>
                  !CostLess(PairCost(t2s, degree, usedVs, spc, candidates[j], tie(round, j)), bestCost)
      invariant forall j :: 0 <= j < best ==>
                  CostLess(bestCost, PairCost(t2s, degree, usedVs, spc, candidates[j], tie(round, j)))
    {
      var c := PairCost(t2s, degree, usedVs, spc, candidates[k], tie(round, k));
      if CostLess(c, bestCost) {
        best, bestCost := k, c;
      }
    }
  }

  /**
   * One round of the main loop (lines 121-137): the non-repeat candidates,
   * the relaxed candidates when there are none, and the minimum by cost.
   * The choice is open, a repeat only when every open pair is one, and
   * minimal in (c1, c2, c3) among the candidates of its round.
   */
  method ChoosePair(pairs: seq<Match>, t2s: map<Team, School>, g: int,
                    degree: map<Team, nat>, usedVs: map<Team, set<Team>>, spc: map<(School, School), nat>,
                    ghost history: seq<Match>, round: nat, tie: (nat, nat) -> int)
    returns (choice: Option<Match>)
    requires CoversMatches(pairs, t2s)
    requires Tracks(t2s, degree, usedVs, spc, history)
    ensures choice.None? <==> forall p :: p in pairs ==> !Open(history, g, p)
    ensures choice.Some? ==> choice.value in pairs && Open(history, g, choice.value)
    ensures choice.Some? && Met(history, choice.value.a, choice.value.b) ==>
              forall p :: p in pairs && Open(history, g, p) ==> Met(history, p.a, p.b)
    ensures choice.Some? ==>
              forall p :: p in pairs && Open(history, g, p)
                          && (Met(history, choice.value.a, choice.value.b) || !Met(history, p.a, p.b))
                ==> PrefixLe(HistoryCost(t2s, history, choice.value), HistoryCost(t2s, history, p))
  {
    var candidates := FreshCandidates(pairs, g, degree, usedVs, history);
    if candidates == [] {
      // allow one opponent repeat if stuck
      candidates := OpenCandidates(pairs, g, degree, history);
      if candidates == [] {
        return None;
      }
    }
    var best := CheapestCandidate(candidates, t2s, degree, usedVs, spc, round, tie);
    var chosen := candidates[best];
    choice := Some(chosen);
    CheapestByHistory(t2s, degree, usedVs, spc, history, candidates, best, round, tie);
    forall p | p in pairs && Open(history, g, p) && (Met(history, chosen.a, chosen.b) || !Met(history, p.a, p.b))
      ensures PrefixLe(HistoryCost(t2s, history, chosen), HistoryCost(t2s, history, p))
    {
      assert p in candidates;
    }
  }

  /** The candidate pair_cost ranks first is also first in (c1, c2, c3) read off the history. */
  lemma CheapestByHistory(t2s: map<Team, School>, degree: map<Team, nat>, usedVs: map<Team, set<Team>>,
                          spc: map<(School, School), nat>, history: seq<Match>,
                          candidates: seq<Match>, best: nat, round: nat, tie: (nat, nat) -> int)
    requires Tracks(t2s, degree, usedVs, spc, history)
    requires CoversMatches(candidates, t2s) && best < |candidates|
    requires forall j :: 0 <= j < |candidates| ==>
               !CostLess(PairCost(t2s, degree, usedVs, spc, candidates[j], tie(round, j)),
                         PairCost(t2s, degree, usedVs, spc, candidates[best], tie(round, best)))
    ensures forall p :: p in candidates ==>
              PrefixLe(HistoryCost(t2s, history, candidates[best]), HistoryCost(t2s, history, p))
  {
    forall p | p in candidates
      ensures PrefixLe(HistoryCost(t2s, history, candidates[best]), HistoryCost(t2s, history, p))
    {
      var j :| 0 <= j < |candidates| && candidates[j] == p;
      CostAgrees(t2s, degree, usedVs, spc, history, p, tie(round, j));
      CostAgrees(t2s, degree, usedVs, spc, history, candidates[best], tie(round, best));
    }
  }

  /** Under Tracks, pair_cost's (c1, c2, c3) is the history's. */
  lemma CostAgrees(t2s: map<Team, School>, degree: map<Team, nat>, usedVs: map<Team, set<Team>>,
                   spc: map<(School, School), nat>, history: seq<Match>, p: Match, tieValue: int)
    requires Tracks(t2s, degree, usedVs, spc, history)
    requires p.a in t2s && p.b in t2s
    ensures var c := PairCost(t2s, degree, usedVs, spc, p, tieValue);
            var h := HistoryCost(t2s, history, p);
            c.load == h.load && c.schoolPairs == h.schoolPairs && c.repeat == h.repeat
  {
  }

  // ---------------------------------------------------------------------
  // Degree bookkeeping: sums over the team list
  // ---------------------------------------------------------------------

  /** The sum of the degrees of the listed teams. */
  function SumDegrees(teams: seq<Team>, history: seq<Match>): nat
  {
    if teams == [] then 0
    else SumDegrees(teams[..|teams| - 1], history) + MatchCount(teams[|teams| - 1], history)
  }

  /** How often the listed teams are a side of the match a-b. */
  function SumOccurrences(teams: seq<Team>, a: Team, b: Team): nat
  {
    if teams == [] then 0
    else SumOccurrences(teams[..|teams| - 1], a, b) + Occurrences(teams[|teams| - 1], a, b)
  }

  function Hits(teams: seq<Team>, x: Team): nat
  {
    if teams == [] then 0
    else Hits(teams[..|teams| - 1], x) + (if teams[|teams| - 1] == x then 1 else 0)
  }

  lemma {:induction false} HitsDistinct(teams: seq<Team>, x: Team)
    requires DistinctNames(teams)
    ensures Hits(teams, x) == if x in teams then 1 else 0
    decreases |teams|
  {
    if teams != [] {
      var init := teams[..|teams| - 1];
      assert DistinctNames(init);
      HitsDistinct(init, x);
      assert teams == init + [teams[|teams| - 1]];
      if teams[|teams| - 1] == x {
        assert x !in init;
      }
    }
  }

  lemma {:induction false} SumOccurrencesSplit(teams: seq<Team>, a: Team, b: Team)
    ensures SumOccurrences(teams, a, b) == Hits(teams, a) + Hits(teams, b)
    decreases |teams|
  {
    if teams != [] {
      SumOccurrencesSplit(teams[..|teams| - 1], a, b);
    }
  }

  lemma {:induction false} SumDegreesSnoc(teams: seq<Team>, history: seq<Match>, m: Match)
    ensures SumDegrees(teams, history + [m]) == SumDegrees(teams, history) + SumOccurrences(teams, m.a, m.b)
    decreases |teams|
  {
    if teams != [] {
      SumDegreesSnoc(teams[..|teams| - 1], history, m);
      MatchCountSnoc(teams[|teams| - 1], history, m);
    }
  }

  /** Every match between two different listed teams adds 2 to the degree sum. */
  lemma {:induction false} SumDegreesIsTwiceMatches(teams: seq<Team>, history: seq<Match>)
    requires DistinctNames(teams)
    requires forall m :: m in history ==> m.a in teams && m.b in teams && m.a != m.b
    ensures SumDegrees(teams, history) == 2 * |history|
    decreases |history|
  {
    if history == [] {
      SumDegreesZero(teams);
    } else {
      var h := history[..|history| - 1];
      var m := history[|history| - 1];
      assert history == h + [m];
      SumDegreesIsTwiceMatches(teams, h);
      SumDegreesSnoc(teams, h, m);
      SumOccurrencesSplit(teams, m.a, m.b);
      HitsDistinct(teams, m.a);
      HitsDistinct(teams, m.b);
    }
  }

  lemma {:induction false} SumDegreesZero(teams: seq<Team>)
    ensures SumDegrees(teams, []) == 0
    decreases |teams|
  {
    if teams != [] {
      SumDegreesZero(teams[..|teams| - 1]);
    }
  }

  /** Degrees capped by g that sum to |teams| * g are all exactly g. */
  lemma {:induction false} CappedDegreesAreExact(teams: seq<Team>, history: seq<Match>, g: nat)
    requires forall t :: t in teams ==> MatchCount(t, history) <= g
    ensures SumDegrees(teams, history) <= |teams| * g
    ensures SumDegrees(teams, history) == |teams| * g ==>
              forall t :: t in teams ==> MatchCount(t, history) == g
    decreases |teams|
  {
    if teams != [] {
      var init := teams[..|teams| - 1];
      var last := teams[|teams| - 1];
      CappedDegreesAreExact(init, history, g);
      assert |teams| * g == |init| * g + g;
      if SumDegrees(teams, history) == |teams| * g {
        assert SumDegrees(init, history) == |init| * g;
        forall t | t in teams
          ensures MatchCount(t, history) == g
        {
          if t != last {
            assert teams == init + [last];
            assert t in init;
          }
        }
      }
    }
  }

  // ---------------------------------------------------------------------
  // build_pairings
  // ---------------------------------------------------------------------

  /** The generator's promise: inter-school matches of listed teams, g games each. */
  predicate ValidPairing(teams: seq<Team>, t2s: map<Team, School>, g: int, ms: seq<Match>)
  {
    && Covers(teams, t2s)
    && (forall m :: m in ms ==> m.a in teams && m.b in teams && t2s[m.a] != t2s[m.b])
    && (forall t :: t in teams ==> MatchCount(t, ms) == g)
  }

  /**
   * The main loop of build_pairings (lines 119-142): one greedy pick per
   * round, with the degree, opponent and school-pair tables kept in step.
   * It stops early, `stuck`, when no allowed pair is open any more.
   */
  method PickMatches(pairs: seq<Match>, t2s: map<Team, School>, g: int, requiredMatches: nat,
                     tie: (nat, nat) -> int)
    returns (result: seq<Match>, degree: map<Team, nat>, stuck: bool)
    requires CoversMatches(pairs, t2s) && g >= 1
    requires forall p :: p in pairs ==> p.a != p.b
    ensures stuck ==> |result| < requiredMatches && forall p :: p in pairs ==> !Open(result, g, p)
    ensures !stuck ==> |result| == requiredMatches
    ensures forall m :: m in result ==> m in pairs
    ensures forall t :: Deg(degree, t) == MatchCount(t, result) <= g
    ensures GreedyRun(pairs, t2s, g, result)
  {
    degree := map[];
    var usedVs: map<Team, set<Team>> := map[];
    var spc: map<(School, School), nat> := map[];
    result := [];

    for round := 0 to requiredMatches
      invariant |result| == round
      invariant Picking(pairs, t2s, g, degree, usedVs, spc, result)
    {
      var choice := ChoosePair(pairs, t2s, g, degree, usedVs, spc, result, round, tie);
      if choice.None? {
        return result, degree, true;
      }
      var m := choice.value;
      assert GreedyPick(pairs, t2s, g, result, m);
      PickStep(pairs, t2s, g, degree, usedVs, spc, result, m);
      result := result + [m];
      degree := Bump(Bump(degree, m.a), m.b);
      usedVs := Meet(Meet(usedVs, m.a, m.b), m.b, m.a);
      spc := BumpPair(spc, SpKey(t2s[m.a], t2s[m.b]));
    }
    stuck := false;
  }

  /** The state of the main loop: picks from the pairs, tables in step, no team over `g`, a greedy run. */
  ghost predicate Picking(pairs: seq<Match>, t2s: map<Team, School>, g: int, degree: map<Team, nat>,
                          usedVs: map<Team, set<Team>>, spc: map<(School, School), nat>, result: seq<Match>)
  {
    && CoversMatches(pairs, t2s)
    && (forall p :: p in pairs ==> p.a != p.b)
    && (forall m :: m in result ==> m in pairs)
    && Tracks(t2s, degree, usedVs, spc, result)
    && (forall t :: MatchCount(t, result) <= g)
    && GreedyRun(pairs, t2s, g, result)
  }

  /** One round's pick, as ChoosePair promises it, keeps the main loop's state. */
  lemma PickStep(pairs: seq<Match>, t2s: map<Team, School>, g: int, degree: map<Team, nat>,
                 usedVs: map<Team, set<Team>>, spc: map<(School, School), nat>, result: seq<Match>, m: Match)
    requires Picking(pairs, t2s, g, degree, usedVs, spc, result)
    requires GreedyPick(pairs, t2s, g, result, m)
    ensures Picking(pairs, t2s, g, Bump(Bump(degree, m.a), m.b), Meet(Meet(usedVs, m.a, m.b), m.b, m.a),
                    BumpPair(spc, SpKey(t2s[m.a], t2s[m.b])), result + [m])
  {
    GreedyRunSnoc(pairs, t2s, g, result, m);
    TracksStep(t2s, degree, usedVs, spc, result, m);
    CappedStep(result, m, g);
  }

  /** An open match between two different teams keeps every team at most `g` games. */
  lemma CappedStep(result: seq<Match>, m: Match, g: int)
    requires forall t :: MatchCount(t, result) <= g
    requires Open(result, g, m) && m.a != m.b
    ensures forall t :: MatchCount(t, result + [m]) <= g
  {
    forall t
      ensures MatchCount(t, result + [m]) <= g
    {
      MatchCountSnoc(t, result, m);
      assert MatchCount(t, result) <= g;
    }
  }

  /**
   * One greedy pick against the picks before it, as one round of lines
   * 121-137 makes it: an open allowed pair, a repeat only when every open
   * pair is one, and first in (c1, c2, c3) among that round's candidates.
   */
  ghost predicate GreedyPick(pairs: seq<Match>, t2s: map<Team, School>, g: int, history: seq<Match>, m: Match)
  {
    && CoversMatches(pairs, t2s) && CoversMatches(history, t2s)
    && m in pairs && Open(history, g, m)
    && (Met(history, m.a, m.b) ==> forall p :: p in pairs && Open(history, g, p) ==> Met(history, p.a, p.b))
    && (forall p :: p in pairs && Open(history, g, p) && (Met(history, m.a, m.b) || !Met(history, p.a, p.b))
          ==> PrefixLe(HistoryCost(t2s, history, m), HistoryCost(t2s, history, p)))
  }

  /** A run of the main loop: every match is a greedy pick against the matches before it. */
  ghost predicate GreedyRun(pairs: seq<Match>, t2s: map<Team, School>, g: int, run: seq<Match>)
  {
    forall k :: 0 <= k < |run| ==> GreedyPick(pairs, t2s, g, run[..k], run[k])
  }

  /** A greedy pick after a greedy run extends the run. */
  lemma GreedyRunSnoc(pairs: seq<Match>, t2s: map<Team, School>, g: int, run: seq<Match>, m: Match)
    requires GreedyRun(pairs, t2s, g, run)
    requires GreedyPick(pairs, t2s, g, run, m)
    ensures GreedyRun(pairs, t2s, g, run + [m])
  {
    forall k | 0 <= k < |run| + 1
      ensures GreedyPick(pairs, t2s, g, (run + [m])[..k], (run + [m])[k])
    {
      if k < |run| {
        assert (run + [m])[..k] == run[..k];
      } else {
        assert (run + [m])[..k] == run;
      }
    }
  }

  method BuildPairings(teams: seq<Team>, t2s: map<Team, School>, g: int, tie: (nat, nat) -> int)
    returns (r: Result<seq<Match>>)
    requires Covers(teams, t2s)
    ensures |teams| < 2 ==> r == Err(ConfigError(TooFewTeams))
    ensures |teams| >= 2 && g < 1 ==> r == Err(ConfigError(NoGames))
    ensures |teams| >= 2 && g >= 1 && (|teams| * g) % 2 != 0 ==> r == Err(ConfigError(OddTeamSlots))
    ensures |teams| >= 2 && g >= 1 && (|teams| * g) % 2 == 0 && AllowedPairs(teams, t2s) == [] ==>
              r == Err(ConfigError(NoInterSchoolPair))
    ensures r.Err? && r.error.ConfigError? ==>
              |teams| < 2 || g < 1 || (|teams| * g) % 2 != 0 || AllowedPairs(teams, t2s) == []
    ensures r.Ok? ==> ValidPairing(teams, t2s, g, r.value)
    ensures r.Ok? ==> |r.value| == |teams| * g / 2
    ensures r.Ok? ==> forall m :: m in r.value ==> m in AllowedPairs(teams, t2s)
    ensures r.Ok? ==> GreedyRun(AllowedPairs(teams, t2s), t2s, g, r.value)
    ensures r == Err(Stuck) ==>
              exists run :: && GreedyRun(AllowedPairs(teams, t2s), t2s, g, run)
                            && |run| < |teams| * g / 2
                            && forall p :: p in AllowedPairs(teams, t2s) ==> !Open(run, g, p)
    ensures DistinctNames(teams) ==> !(r.Err? && r.error.DegreeMismatch?)
  {
    var n := |teams|;
    if n < 2 {
      return Err(ConfigError(TooFewTeams));
    }
    if g < 1 {
      return Err(ConfigError(NoGames));
    }
    var need := n * g;
    if need % 2 != 0 {
      return Err(ConfigError(OddTeamSlots));
    }
    var requiredMatches := need / 2;
    var pairs := AllAllowedPairs(teams, t2s);
    if pairs == [] {
      return Err(ConfigError(NoInterSchoolPair));
    }
    AllowedPairsSound(teams, t2s);

    var result, degree, stuck := PickMatches(pairs, t2s, g, requiredMatches, tie);
    if stuck {
      return Err(Stuck);
    }

    if DistinctNames(teams) {
      SumDegreesIsTwiceMatches(teams, result);
      CappedDegreesAreExact(teams, result, g);
    }

    var bad := FirstMismatch(teams, degree, g);
    if bad.Some? {
      return Err(DegreeMismatch(teams[bad.value], Deg(degree, teams[bad.value])));
    }
    return Ok(result);
  }

  /** The sanity loop of lines 144-147: the first listed team whose degree is not `g`, if any. */
  method FirstMismatch(teams: seq<Team>, degree: map<Team, nat>, g: int) returns (bad: Option<nat>)
    ensures bad.None? <==> forall k :: 0 <= k < |teams| ==> Deg(degree, teams[k]) == g
    ensures bad.Some? ==> bad.value < |teams| && Deg(degree, teams[bad.value]) != g
                          && forall k :: 0 <= k < bad.value ==> Deg(degree, teams[k]) == g
  {
    for i := 0 to |teams|
      invariant forall k :: 0 <= k < i ==> Deg(degree, teams[k]) == g
    {
      if Deg(degree, teams[i]) != g {
        return Some(i);
      }
    }
    return None;
  }
}
