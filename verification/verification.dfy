/**
 * The schedule checker (verify): every session within the room count,
 * every match of a known category between two teams of that category
 * from different schools, no team twice in a session, and every team
 * with exactly the required number of games. The source raises an
 * AssertionError at the first violation; here the outcome is a boolean.
 *
 * The source counts games per team NAME over all categories, so a name
 * used in two categories gets the games of both. Verify models that;
 * VerifyByCategory counts per category and team, as the check means.
 */
module Verification {
  import opened Common

  /** The teams of each category, and each category's team-to-school table. */
  type TeamTable = map<Level, seq<Team>>
  type SchoolTable = map<Level, map<Team, School>>

  /** Every listed team of every category has a school in that category's table. */
  predicate TablesCover(tbl: TeamTable, t2sbl: SchoolTable)
  {
    forall lvl :: lvl in tbl ==> lvl in t2sbl && forall t :: t in tbl[lvl] ==> t in t2sbl[lvl]
  }

  /** The entries whose category is known; the checker skips the others. */
  function Known(s: seq<Assignment>, tbl: TeamTable): seq<Assignment>
  {
    if s == [] then []
    else
      var e := s[|s| - 1];
      Known(s[..|s| - 1], tbl) + (if e.level in tbl then [e] else [])
  }

  /** Known keeps exactly the entries of known categories. */
  lemma {:induction false} KnownMembers(s: seq<Assignment>, tbl: TeamTable)
    ensures forall e :: e in Known(s, tbl) <==> e in s && e.level in tbl
    decreases |s|
  {
    if s != [] {
      KnownMembers(s[..|s| - 1], tbl);
      assert s == s[..|s| - 1] + [s[|s| - 1]];
    }
  }

  lemma KnownSnoc(s: seq<Assignment>, e: Assignment, tbl: TeamTable)
    ensures Known(s + [e], tbl) == Known(s, tbl) + (if e.level in tbl then [e] else [])
  {
    assert (s + [e])[..|s|] == s;
  }

  lemma {:induction false} KnownAppend(x: seq<Assignment>, y: seq<Assignment>, tbl: TeamTable)
    ensures Known(x + y, tbl) == Known(x, tbl) + Known(y, tbl)
    decreases |y|
  {
    if y == [] {
      assert x + y == x;
    } else {
      var e := y[|y| - 1];
      var y' := y[..|y| - 1];
      assert x + y == (x + y') + [e];
      assert y == y' + [e];
      KnownSnoc(x + y', e, tbl);
      KnownSnoc(y', e, tbl);
      KnownAppend(x, y', tbl);
    }
  }

  /** A known entry pairs two teams of its category from different schools. */
  predicate EntryAccepted(e: Assignment, tbl: TeamTable, t2sbl: SchoolTable)
    requires TablesCover(tbl, t2sbl)
  {
    e.level in tbl ==>
      && e.a in tbl[e.level] && e.b in tbl[e.level]
      && t2sbl[e.level][e.a] != t2sbl[e.level][e.b]
  }

  /** One session passes: within the rooms, every entry accepted, no team twice. */
  predicate SessionAccepted(s: seq<Assignment>, tbl: TeamTable, t2sbl: SchoolTable, rooms: int)
    requires TablesCover(tbl, t2sbl)
  {
    && |s| <= rooms
    && (forall e :: e in s ==> EntryAccepted(e, tbl, t2sbl))
    && DistinctTeams(Known(s, tbl))
  }

  /** Every session passes. */
  predicate SessionsAccepted(sessions: seq<seq<Assignment>>, tbl: TeamTable, t2sbl: SchoolTable, rooms: int)
    requires TablesCover(tbl, t2sbl)
  {
    forall k :: 0 <= k < |sessions| ==> SessionAccepted(sessions[k], tbl, t2sbl, rooms)
  }

  /** As written: every listed team NAME has g games among all known entries, whatever their category. */
  predicate GamesExact(entries: seq<Assignment>, tbl: TeamTable, g: int)
  {
    forall lvl, t :: lvl in tbl && t in tbl[lvl] ==> AssignmentCount(t, Known(entries, tbl)) == g
  }

  /** As meant: every team of every category has g games in that category. */
  predicate GamesExactByCategory(entries: seq<Assignment>, tbl: TeamTable, g: int)
  {
    forall lvl, t :: lvl in tbl && t in tbl[lvl] ==> MatchCount(t, LevelMatches(lvl, entries)) == g
  }

  /** What verify accepts. */
  predicate ScheduleValid(sessions: seq<seq<Assignment>>, tbl: TeamTable, t2sbl: SchoolTable, g: int, rooms: int)
    requires TablesCover(tbl, t2sbl)
  {
    SessionsAccepted(sessions, tbl, t2sbl, rooms) && GamesExact(Flatten(sessions), tbl, g)
  }

  /** What verify means to accept: the same checks, games counted per category. */
  predicate ScheduleValidByCategory(sessions: seq<seq<Assignment>>, tbl: TeamTable, t2sbl: SchoolTable, g: int, rooms: int)
    requires TablesCover(tbl, t2sbl)
  {
    SessionsAccepted(sessions, tbl, t2sbl, rooms) && GamesExactByCategory(Flatten(sessions), tbl, g)
  }

  /**
   * The counter's key for team t of category lvl: the name alone as in the
   * source, or the category and the name when counting by category.
   */
  function Key(byCategory: bool, lvl: Level, t: Team): (Level, Team)
  {
    if byCategory then (lvl, t) else ("", t)
  }

  /** The number of games the counter should hold under Key(byCategory, lvl, t). */
  function Tally(byCategory: bool, lvl: Level, t: Team, entries: seq<Assignment>): nat
  {
    if byCategory then MatchCount(t, LevelMatches(lvl, entries)) else AssignmentCount(t, entries)
  }

  /** Counter lookup: 0 for a key not yet counted. */
  function Get(perTeam: map<(Level, Team), nat>, x: (Level, Team)): nat
  {
    if x in perTeam then perTeam[x] else 0
  }

  /** The counter holds each team's number of games among the entries. */
  ghost predicate Counts(byCategory: bool, perTeam: map<(Level, Team), nat>, entries: seq<Assignment>)
  {
    forall lvl, t :: Get(perTeam, Key(byCategory, lvl, t)) == Tally(byCategory, lvl, t, entries)
  }

  /** Counting one more game for a and b keeps the counter exact. */
  lemma CountsStep(byCategory: bool, perTeam: map<(Level, Team), nat>, entries: seq<Assignment>, e: Assignment)
    requires Counts(byCategory, perTeam, entries)
    ensures var ka, kb := Key(byCategory, e.level, e.a), Key(byCategory, e.level, e.b);
            var p := perTeam[ka := Get(perTeam, ka) + 1];
            Counts(byCategory, p[kb := Get(p, kb) + 1], entries + [e])
  {
    var ka, kb := Key(byCategory, e.level, e.a), Key(byCategory, e.level, e.b);
    var p := perTeam[ka := Get(perTeam, ka) + 1];
    var q := p[kb := Get(p, kb) + 1];
    forall lvl, t
      ensures Get(q, Key(byCategory, lvl, t)) == Tally(byCategory, lvl, t, entries + [e])
    {
      assert Get(perTeam, Key(byCategory, lvl, t)) == Tally(byCategory, lvl, t, entries);
      if byCategory {
        LevelMatchesSnoc(lvl, entries, e);
        if e.level == lvl {
          MatchCountSnoc(t, LevelMatches(lvl, entries), Match(e.a, e.b));
        } else {
          assert LevelMatches(lvl, entries + [e]) == LevelMatches(lvl, entries);
        }
      } else {
        AssignmentCountSnoc(t, entries, e);
      }
    }
  }

  /** Dropping entries of unknown categories does not change a known category's matches. */
  lemma {:induction false} LevelMatchesKnown(lvl: Level, s: seq<Assignment>, tbl: TeamTable)
    requires lvl in tbl
    ensures LevelMatches(lvl, Known(s, tbl)) == LevelMatches(lvl, s)
    decreases |s|
  {
    if s != [] {
      var e := s[|s| - 1];
      var s' := s[..|s| - 1];
      assert s == s' + [e];
      LevelMatchesKnown(lvl, s', tbl);
      KnownSnoc(s', e, tbl);
      LevelMatchesSnoc(lvl, s', e);
      if e.level in tbl {
        LevelMatchesSnoc(lvl, Known(s', tbl), e);
      } else {
        assert Known(s, tbl) == Known(s', tbl);
        assert LevelMatches(lvl, s) == LevelMatches(lvl, s');
      }
    }
  }

  /**
   * The checks verify makes on one entry of a session: skipped when its
   * category is unknown, else both teams of the category, different
   * schools, neither team already used in the session; then counted.
   */
  method CheckEntry(e: Assignment, tbl: TeamTable, t2sbl: SchoolTable, used: set<Team>, byCategory: bool,
                    perTeam: map<(Level, Team), nat>, ghost done: seq<Assignment>, ghost seen: seq<Assignment>)
    returns (ok: bool, used': set<Team>, perTeam': map<(Level, Team), nat>)
    requires TablesCover(tbl, t2sbl)
    requires used == TeamsIn(done) && DistinctTeams(done)
    requires Counts(byCategory, perTeam, seen)
    ensures ok == (EntryAccepted(e, tbl, t2sbl) && (e.level in tbl ==> DistinctTeams(done + [e])))
    ensures ok && e.level !in tbl ==> used' == used && perTeam' == perTeam
    ensures ok && e.level in tbl ==> used' == TeamsIn(done + [e]) && Counts(byCategory, perTeam', seen + [e])
  {
    used', perTeam' := used, perTeam;
    if e.level !in tbl {
      return true, used', perTeam';
    }
    // correct category, then no intra-school match
    if !(e.a in tbl[e.level] && e.b in tbl[e.level]) || t2sbl[e.level][e.a] == t2sbl[e.level][e.b] {
      return false, used', perTeam';
    }
    // at most one match per team per session
    DistinctTeamsSnoc(done, e);
    if e.a in used || e.b in used {
      return false, used', perTeam';
    }
    TeamsInSnoc(done, e);
    used' := used + {e.a, e.b};
    CountsStep(byCategory, perTeam, seen, e);
    var ka, kb := Key(byCategory, e.level, e.a), Key(byCategory, e.level, e.b);
    perTeam' := perTeam[ka := Get(perTeam, ka) + 1];
    perTeam' := perTeam'[kb := Get(perTeam', kb) + 1];
    ok := true;
  }

  /** The loop of verify over one session, with its room check. */
  method CheckSession(sess: seq<Assignment>, tbl: TeamTable, t2sbl: SchoolTable, rooms: int, byCategory: bool,
                      perTeam: map<(Level, Team), nat>, ghost before: seq<Assignment>)
    returns (ok: bool, perTeam': map<(Level, Team), nat>)
    requires TablesCover(tbl, t2sbl)
    requires Counts(byCategory, perTeam, Known(before, tbl))
    ensures ok == SessionAccepted(sess, tbl, t2sbl, rooms)
    ensures ok ==> Counts(byCategory, perTeam', Known(before + sess, tbl))
  {
    perTeam' := perTeam;
    if |sess| > rooms {
      return false, perTeam';
    }
    var used: set<Team> := {};
    assert before + sess[..0] == before;
    for i := 0 to |sess|
      invariant used == TeamsIn(Known(sess[..i], tbl))
      invariant forall j :: 0 <= j < i ==> EntryAccepted(sess[j], tbl, t2sbl)
      invariant DistinctTeams(Known(sess[..i], tbl))
      invariant Counts(byCategory, perTeam', Known(before + sess[..i], tbl))
    {
      var accepted;
      KnownStep(sess, i, before, tbl);
      accepted, used, perTeam' := CheckEntry(sess[i], tbl, t2sbl, used, byCategory, perTeam',
                                             Known(sess[..i], tbl), Known(before + sess[..i], tbl));
      if !accepted {
        SessionRejectedAt(sess, i, tbl, t2sbl, rooms);
        return false, perTeam';
      }
    }
    SessionAcceptedAll(sess, tbl, t2sbl, rooms);
    assert sess[..|sess|] == sess;
    ok := true;
  }

  /** How Known grows by one entry, both within the session and across the schedule. */
  lemma KnownStep(sess: seq<Assignment>, i: nat, before: seq<Assignment>, tbl: TeamTable)
    requires i < |sess|
    ensures sess[i].level in tbl ==> Known(sess[..i + 1], tbl) == Known(sess[..i], tbl) + [sess[i]]
    ensures sess[i].level in tbl ==> Known(before + sess[..i + 1], tbl) == Known(before + sess[..i], tbl) + [sess[i]]
    ensures sess[i].level !in tbl ==> Known(sess[..i + 1], tbl) == Known(sess[..i], tbl)
    ensures sess[i].level !in tbl ==> Known(before + sess[..i + 1], tbl) == Known(before + sess[..i], tbl)
  {
    assert sess[..i + 1] == sess[..i] + [sess[i]];
    assert before + sess[..i + 1] == (before + sess[..i]) + [sess[i]];
    KnownSnoc(sess[..i], sess[i], tbl);
    KnownSnoc(before + sess[..i], sess[i], tbl);
  }

  /** An entry that fails its checks makes the whole session fail. */
  lemma SessionRejectedAt(sess: seq<Assignment>, i: nat, tbl: TeamTable, t2sbl: SchoolTable, rooms: int)
    requires TablesCover(tbl, t2sbl)
    requires i < |sess|
    requires !EntryAccepted(sess[i], tbl, t2sbl)
          || (sess[i].level in tbl && !DistinctTeams(Known(sess[..i], tbl) + [sess[i]]))
    requires sess[i].level in tbl ==> Known(sess[..i + 1], tbl) == Known(sess[..i], tbl) + [sess[i]]
    ensures !SessionAccepted(sess, tbl, t2sbl, rooms)
  {
    if EntryAccepted(sess[i], tbl, t2sbl) {
      // a team repeated within the first i + 1 entries is repeated in the whole session
      assert sess == sess[..i + 1] + sess[i + 1..];
      KnownAppend(sess[..i + 1], sess[i + 1..], tbl);
      RepeatInPrefix(Known(sess[..i + 1], tbl), Known(sess[i + 1..], tbl));
    } else {
      assert sess[i] in sess;
    }
  }

  /** Checks passed by every entry make the session pass. */
  lemma SessionAcceptedAll(sess: seq<Assignment>, tbl: TeamTable, t2sbl: SchoolTable, rooms: int)
    requires TablesCover(tbl, t2sbl)
    requires |sess| <= rooms
    requires forall j :: 0 <= j < |sess| ==> EntryAccepted(sess[j], tbl, t2sbl)
    requires DistinctTeams(Known(sess[..|sess|], tbl))
    ensures SessionAccepted(sess, tbl, t2sbl, rooms)
  {
    assert sess[..|sess|] == sess;
    forall e | e in sess
      ensures EntryAccepted(e, tbl, t2sbl)
    {
      var j :| 0 <= j < |sess| && sess[j] == e;
    }
  }

  /** The final loop of verify: every listed team has exactly g games on the counter. */
  method CheckCounts(byCategory: bool, perTeam: map<(Level, Team), nat>, tbl: TeamTable, g: int) returns (ok: bool)
    ensures ok == forall lvl, t :: lvl in tbl && t in tbl[lvl] ==> Get(perTeam, Key(byCategory, lvl, t)) == g
  {
    var levels := tbl.Keys;
    while levels != {}
      invariant levels <= tbl.Keys
      invariant forall lvl, t :: lvl in tbl && lvl !in levels && t in tbl[lvl] ==> Get(perTeam, Key(byCategory, lvl, t)) == g
      decreases levels
    {
      var lvl :| lvl in levels;
      var teams := tbl[lvl];
      for i := 0 to |teams|
        invariant forall j :: 0 <= j < i ==> Get(perTeam, Key(byCategory, lvl, teams[j])) == g
      {
        if Get(perTeam, Key(byCategory, lvl, teams[i])) != g {
          return false;
        }
      }
      levels := levels - {lvl};
    }
    return true;
  }

  /**
   * The body of verify, with the counter keyed as Key(byCategory, _, _):
   * the session loop, then the per-team loop.
   */
  method CheckSchedule(sessions: seq<seq<Assignment>>, tbl: TeamTable, t2sbl: SchoolTable, g: int, rooms: int,
                       byCategory: bool)
    returns (ok: bool)
    requires TablesCover(tbl, t2sbl)
    ensures ok == (SessionsAccepted(sessions, tbl, t2sbl, rooms)
                   && forall lvl, t :: lvl in tbl && t in tbl[lvl] ==>
                        Tally(byCategory, lvl, t, Known(Flatten(sessions), tbl)) == g)
  {
    var perTeam: map<(Level, Team), nat> := map[];
    for k := 0 to |sessions|
      invariant forall j :: 0 <= j < k ==> SessionAccepted(sessions[j], tbl, t2sbl, rooms)
      invariant Counts(byCategory, perTeam, Known(Flatten(sessions[..k]), tbl))
    {
      var accepted;
      accepted, perTeam := CheckSession(sessions[k], tbl, t2sbl, rooms, byCategory, perTeam, Flatten(sessions[..k]));
      if !accepted {
        return false;
      }
      assert sessions[..k + 1] == sessions[..k] + [sessions[k]];
      FlattenSnoc(sessions[..k], sessions[k]);
    }
    assert sessions[..|sessions|] == sessions;
    ok := CheckCounts(byCategory, perTeam, tbl, g);
  }

  /**
   * verify as written: true exactly when the schedule passes every check,
   * games counted per team name. The tables must give a school to every
   * listed team (the source looks them up).
   */
  method Verify(sessions: seq<seq<Assignment>>, tbl: TeamTable, t2sbl: SchoolTable, g: int, rooms: int)
    returns (ok: bool)
    requires TablesCover(tbl, t2sbl)
    ensures ok == ScheduleValid(sessions, tbl, t2sbl, g, rooms)
  {
    ok := CheckSchedule(sessions, tbl, t2sbl, g, rooms, false);
  }

  /** verify with games counted per category and team. */
  method VerifyByCategory(sessions: seq<seq<Assignment>>, tbl: TeamTable, t2sbl: SchoolTable, g: int, rooms: int)
    returns (ok: bool)
    requires TablesCover(tbl, t2sbl)
    ensures ok == ScheduleValidByCategory(sessions, tbl, t2sbl, g, rooms)
  {
    ok := CheckSchedule(sessions, tbl, t2sbl, g, rooms, true);
    forall lvl | lvl in tbl
      ensures LevelMatches(lvl, Known(Flatten(sessions), tbl)) == LevelMatches(lvl, Flatten(sessions))
    {
      LevelMatchesKnown(lvl, Flatten(sessions), tbl);
    }
  }
}
