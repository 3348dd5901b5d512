/**
 * The program's main flow: pair each category with two games per team,
 * pack both categories into sessions, and check the schedule. The check
 * as written accepts every schedule the generator and the packer produce
 * only when no team name is used in both categories, since it counts
 * games per name across categories; counted per category, it accepts
 * them all.
 */
module Pipeline {
  import opened Common
  import opened Pairing
  import opened Packing
  import opened Verification

  /** games_per_team of the main flow. */
  const GamesPerTeam: int := 2

  function TeamsByLevel(teams1: seq<Team>, teams2: seq<Team>): TeamTable
  {
    map[S1 := teams1, S2 := teams2]
  }

  function SchoolsByLevel(t2s1: map<Team, School>, t2s2: map<Team, School>): SchoolTable
  {
    map[S1 := t2s1, S2 := t2s2]
  }

  /** A schedule whose entries are all S1 or S2 is all known to the checker. */
  lemma {:induction false} KnownAll(s: seq<Assignment>, tbl: TeamTable)
    requires forall e :: e in s ==> e.level in tbl
    ensures Known(s, tbl) == s
    decreases |s|
  {
    if s != [] {
      var e := s[|s| - 1];
      assert s == s[..|s| - 1] + [e];
      KnownAll(s[..|s| - 1], tbl);
    }
  }

  /** Every entry of a packed schedule is labelled S1 or S2. */
  lemma PackedLevels(sessions: seq<seq<Assignment>>, rooms: int)
    requires SessionsFit(sessions, rooms)
    ensures forall e :: e in Flatten(sessions) ==> e.level == S1 || e.level == S2
  {
    forall e | e in Flatten(sessions)
      ensures e.level == S1 || e.level == S2
    {
      var k := FlattenSource(sessions, e);
    }
  }

  /** An entry of the schedule is a match of its category's pairings. */
  lemma EntryFromPairings(sessions: seq<seq<Assignment>>, k: nat, i: nat, l: Level, ps: seq<Match>)
    requires k < |sessions| && i < |sessions[k]| && sessions[k][i].level == l
    requires multiset(LevelMatches(l, Flatten(sessions))) == multiset(ps)
    ensures Match(sessions[k][i].a, sessions[k][i].b) in ps
  {
    FlattenContains(sessions, k, i);
    var f := Flatten(sessions);
    var j :| 0 <= j < |f| && f[j] == sessions[k][i];
    LevelMatchesContains(l, f, j);
    assert Match(f[j].a, f[j].b) in multiset(ps);
  }

  /** A team of one category has g games overall: its own category's g and none in the other. */
  lemma GamesOfTeam(t: Team, own: seq<Match>, other: seq<Match>, otherTeams: seq<Team>, g: int)
    requires MatchCount(t, own) == g
    requires forall m :: m in other ==> m.a in otherTeams && m.b in otherTeams
    requires t !in otherTeams
    ensures MatchCount(t, own) + MatchCount(t, other) == g
  {
    MatchCountAbsent(t, other);
  }

  /** Each session of a packed schedule of two valid pairings passes the checker's session checks. */
  lemma PackedSessionsAccepted(teams1: seq<Team>, t2s1: map<Team, School>, teams2: seq<Team>, t2s2: map<Team, School>,
                               g: int, rooms: int, p1: seq<Match>, p2: seq<Match>, sessions: seq<seq<Assignment>>)
    requires ValidPairing(teams1, t2s1, g, p1) && ValidPairing(teams2, t2s2, g, p2)
    requires SessionsFit(sessions, rooms)
    requires multiset(LevelMatches(S1, Flatten(sessions))) == multiset(p1)
    requires multiset(LevelMatches(S2, Flatten(sessions))) == multiset(p2)
    ensures TablesCover(TeamsByLevel(teams1, teams2), SchoolsByLevel(t2s1, t2s2))
    ensures SessionsAccepted(sessions, TeamsByLevel(teams1, teams2), SchoolsByLevel(t2s1, t2s2), rooms)
  {
    var tbl, t2sbl := TeamsByLevel(teams1, teams2), SchoolsByLevel(t2s1, t2s2);
    assert TablesCover(tbl, t2sbl);
    forall k | 0 <= k < |sessions|
      ensures SessionAccepted(sessions[k], tbl, t2sbl, rooms)
    {
      var s := sessions[k];
      forall e | e in s
        ensures EntryAccepted(e, tbl, t2sbl)
      {
        var i :| 0 <= i < |s| && s[i] == e;
        if e.level == S1 {
          EntryFromPairings(sessions, k, i, S1, p1);
        } else {
          EntryFromPairings(sessions, k, i, S2, p2);
        }
      }
      KnownAll(s, tbl);
    }
  }

  /**
   * The end of main, as written: the checker accepts the packed schedule
   * of two valid pairings whose team names are disjoint.
   */
  lemma ScheduleAccepted(teams1: seq<Team>, t2s1: map<Team, School>, teams2: seq<Team>, t2s2: map<Team, School>,
                         g: int, rooms: int, p1: seq<Match>, p2: seq<Match>, sessions: seq<seq<Assignment>>)
    requires ValidPairing(teams1, t2s1, g, p1) && ValidPairing(teams2, t2s2, g, p2)
    requires forall t :: t in teams1 ==> t !in teams2
    requires SessionsFit(sessions, rooms)
    requires multiset(LevelMatches(S1, Flatten(sessions))) == multiset(p1)
    requires multiset(LevelMatches(S2, Flatten(sessions))) == multiset(p2)
    ensures TablesCover(TeamsByLevel(teams1, teams2), SchoolsByLevel(t2s1, t2s2))
    ensures ScheduleValid(sessions, TeamsByLevel(teams1, teams2), SchoolsByLevel(t2s1, t2s2), g, rooms)
  {
    var tbl := TeamsByLevel(teams1, teams2);
    PackedSessionsAccepted(teams1, t2s1, teams2, t2s2, g, rooms, p1, p2, sessions);
    var f := Flatten(sessions);
    PackedLevels(sessions, rooms);
    KnownAll(f, tbl);
    forall lvl, t | lvl in tbl && t in tbl[lvl]
      ensures AssignmentCount(t, Known(f, tbl)) == g
    {
      AssignmentCountSplit(t, f);
      MatchCountPermutation(t, LevelMatches(S1, f), p1);
      MatchCountPermutation(t, LevelMatches(S2, f), p2);
      if lvl == S1 {
        GamesOfTeam(t, p1, p2, teams2, g);
      } else {
        GamesOfTeam(t, p2, p1, teams1, g);
      }
    }
  }

  /**
   * The end of main, counted per category: the checker accepts the packed
   * schedule of any two valid pairings.
   */
  lemma ScheduleAcceptedByCategory(teams1: seq<Team>, t2s1: map<Team, School>, teams2: seq<Team>, t2s2: map<Team, School>,
                                   g: int, rooms: int, p1: seq<Match>, p2: seq<Match>, sessions: seq<seq<Assignment>>)
    requires ValidPairing(teams1, t2s1, g, p1) && ValidPairing(teams2, t2s2, g, p2)
    requires SessionsFit(sessions, rooms)
    requires multiset(LevelMatches(S1, Flatten(sessions))) == multiset(p1)
    requires multiset(LevelMatches(S2, Flatten(sessions))) == multiset(p2)
    ensures TablesCover(TeamsByLevel(teams1, teams2), SchoolsByLevel(t2s1, t2s2))
    ensures ScheduleValidByCategory(sessions, TeamsByLevel(teams1, teams2), SchoolsByLevel(t2s1, t2s2), g, rooms)
  {
    var tbl := TeamsByLevel(teams1, teams2);
    PackedSessionsAccepted(teams1, t2s1, teams2, t2s2, g, rooms, p1, p2, sessions);
    var f := Flatten(sessions);
    forall lvl, t | lvl in tbl && t in tbl[lvl]
      ensures MatchCount(t, LevelMatches(lvl, f)) == g
    {
      if lvl == S1 {
        MatchCountPermutation(t, LevelMatches(S1, f), p1);
      } else {
        MatchCountPermutation(t, LevelMatches(S2, f), p2);
      }
    }
  }

  // A school with a team in both categories: "X #1" names a team of S1
  // and a team of S2, each category pairing "X #1" with "Y #1" twice, one
  // match per session in a single room.

  function SharedTeams(): seq<Team>
  {
    ["X #1", "Y #1"]
  }

  function SharedSchools(): map<Team, School>
  {
    map["X #1" := "X", "Y #1" := "Y"]
  }

  function SharedPairing(): seq<Match>
  {
    [Match("X #1", "Y #1"), Match("X #1", "Y #1")]
  }

  function SharedSchedule(): seq<seq<Assignment>>
  {
    var a1, a2 := Assignment(S1, "X #1", "Y #1"), Assignment(S2, "X #1", "Y #1");
    [[a1], [a1], [a2], [a2]]
  }

  lemma SharedFlatten()
    ensures Flatten(SharedSchedule())
         == [Assignment(S1, "X #1", "Y #1"), Assignment(S1, "X #1", "Y #1"),
             Assignment(S2, "X #1", "Y #1"), Assignment(S2, "X #1", "Y #1")]
  {
    var a1, a2 := Assignment(S1, "X #1", "Y #1"), Assignment(S2, "X #1", "Y #1");
    var sessions := SharedSchedule();
    assert sessions[..3] == [[a1], [a1], [a2]];
    assert sessions[..3][..2] == [[a1], [a1]];
    assert sessions[..3][..2][..1] == [[a1]];
    assert sessions[..3][..2][..1][..0] == [];
    assert Flatten([[a1]]) == [a1];
    assert Flatten([[a1], [a1]]) == [a1, a1];
    assert Flatten([[a1], [a1], [a2]]) == [a1, a1, a2];
  }

  /** The example pairing plays each of the two teams twice, across schools. */
  lemma SharedPairingValid()
    ensures ValidPairing(SharedTeams(), SharedSchools(), 2, SharedPairing())
  {
    var x, y := "X #1", "Y #1";
    MatchCountSnoc(x, [Match(x, y)], Match(x, y));
    MatchCountSnoc(y, [Match(x, y)], Match(x, y));
    assert [Match(x, y)] + [Match(x, y)] == SharedPairing();
  }

  /** The example's sessions hold one match each, in a single room. */
  lemma SharedSessionsFit()
    ensures SessionsFit(SharedSchedule(), 1)
  {
    var sessions := SharedSchedule();
    forall k | 0 <= k < |sessions|
      ensures |sessions[k]| <= 1 && SessionShape(sessions[k])
    {
      var e := sessions[k][0];
      assert sessions[k] == [e];
      assert e.level == S1 || e.level == S2;
    }
  }

  /** The example's schedule holds the example pairing in each category. */
  lemma SharedLevelMatches()
    ensures LevelMatches(S1, Flatten(SharedSchedule())) == SharedPairing()
    ensures LevelMatches(S2, Flatten(SharedSchedule())) == SharedPairing()
    ensures forall e :: e in Flatten(SharedSchedule()) ==> e.level == S1 || e.level == S2
  {
    var a1, a2 := Assignment(S1, "X #1", "Y #1"), Assignment(S2, "X #1", "Y #1");
    SharedFlatten();
    LevelMatchesAppend(S1, [a1, a1], [a2, a2]);
    LevelMatchesAppend(S2, [a1, a1], [a2, a2]);
    LevelMatchesOther(S1, [a2, a2]);
    LevelMatchesOther(S2, [a1, a1]);
    assert Flatten(SharedSchedule()) == [a1, a1] + [a2, a2];
  }

  /** On the example, the check as written counts four games for "X #1". */
  lemma SharedNameCount()
    ensures AssignmentCount("X #1", Known(Flatten(SharedSchedule()), TeamsByLevel(SharedTeams(), SharedTeams()))) == 4
  {
    var f := Flatten(SharedSchedule());
    var x := "X #1";
    SharedLevelMatches();
    KnownAll(f, TeamsByLevel(SharedTeams(), SharedTeams()));
    AssignmentCountSplit(x, f);
    MatchCountSnoc(x, [Match(x, "Y #1")], Match(x, "Y #1"));
    assert [Match(x, "Y #1")] + [Match(x, "Y #1")] == SharedPairing();
  }

  /** So the check as written rejects the example schedule. */
  lemma SharedNameRejected()
    ensures TablesCover(TeamsByLevel(SharedTeams(), SharedTeams()), SchoolsByLevel(SharedSchools(), SharedSchools()))
    ensures !ScheduleValid(SharedSchedule(), TeamsByLevel(SharedTeams(), SharedTeams()),
                           SchoolsByLevel(SharedSchools(), SharedSchools()), 2, 1)
  {
    SharedCover();
    SharedCountOff();
  }

  lemma SharedCover()
    ensures TablesCover(TeamsByLevel(SharedTeams(), SharedTeams()), SchoolsByLevel(SharedSchools(), SharedSchools()))
  {
  }

  lemma SharedCountOff()
    ensures !GamesExact(Flatten(SharedSchedule()), TeamsByLevel(SharedTeams(), SharedTeams()), 2)
  {
    var tbl := TeamsByLevel(SharedTeams(), SharedTeams());
    SharedNameCount();
    assert S1 in tbl && "X #1" in tbl[S1];
    OneCountOff(Flatten(SharedSchedule()), tbl, 2, S1, "X #1");
  }

  /** One listed team with a game count other than `g` fails the count check. */
  lemma OneCountOff(entries: seq<Assignment>, tbl: TeamTable, g: int, lvl: Level, t: Team)
    requires lvl in tbl && t in tbl[lvl] && AssignmentCount(t, Known(entries, tbl)) != g
    ensures !GamesExact(entries, tbl, g)
  {
  }

  /** Counted per category, the example schedule is accepted. */
  lemma SharedNameAcceptedByCategory()
    ensures TablesCover(TeamsByLevel(SharedTeams(), SharedTeams()), SchoolsByLevel(SharedSchools(), SharedSchools()))
    ensures ScheduleValidByCategory(SharedSchedule(), TeamsByLevel(SharedTeams(), SharedTeams()),
                                    SchoolsByLevel(SharedSchools(), SharedSchools()), 2, 1)
  {
    SharedPairingValid();
    SharedSessionsFit();
    SharedLevelMatches();
    ScheduleAcceptedByCategory(SharedTeams(), SharedSchools(), SharedTeams(), SharedSchools(), 2, 1,
                               SharedPairing(), SharedPairing(), SharedSchedule());
  }

  /** How a run of main ends. */
  datatype RunOutcome =
    | PairingFailed(level: Level, error: PairingError)
    | Scheduled(sessions: seq<seq<Assignment>>, verified: bool)

  /**
   * main without its prompts and printing: pair S1, pair S2, pack them
   * with mixing on, and check the schedule, counting games per category.
   * `shuffle` stands for random.shuffle and may return any permutation.
   */
  method RunScheduler(rooms: int, teams1: seq<Team>, t2s1: map<Team, School>,
                      teams2: seq<Team>, t2s2: map<Team, School>,
                      tie1: (nat, nat) -> int, tie2: (nat, nat) -> int,
                      shuffle: seq<Match> -> seq<Match>)
    returns (out: RunOutcome)
    requires rooms >= 1
    requires Covers(teams1, t2s1) && Covers(teams2, t2s2)
    requires forall ms :: multiset(shuffle(ms)) == multiset(ms)
    ensures out.PairingFailed? ==> out.level == S1 || out.level == S2
    ensures out.Scheduled? ==> SessionsFit(out.sessions, rooms)
    ensures out.Scheduled? ==> out.verified
    ensures |teams1| < 2 ==> out == PairingFailed(S1, ConfigError(TooFewTeams))
  {
    var r1 := BuildPairings(teams1, t2s1, GamesPerTeam, tie1);
    if r1.Err? {
      return PairingFailed(S1, r1.error);
    }
    var r2 := BuildPairings(teams2, t2s2, GamesPerTeam, tie2);
    if r2.Err? {
      return PairingFailed(S2, r2.error);
    }
    var p1, p2 := r1.value, r2.value;
    var sessions, allCaps, counts := ScheduleSessions(rooms, p1, p2, GamesPerTeam, true, shuffle(p1), shuffle(p2));
    var tbl, t2sbl := TeamsByLevel(teams1, teams2), SchoolsByLevel(t2s1, t2s2);
    assert TablesCover(tbl, t2sbl);
    var ok := VerifyByCategory(sessions, tbl, t2sbl, GamesPerTeam, rooms);
    ScheduleAcceptedByCategory(teams1, t2s1, teams2, t2s2, GamesPerTeam, rooms, p1, p2, sessions);
    return Scheduled(sessions, ok);
  }
}
