/**
 The classification table of a championship: the per-team statistics
 accumulated over its finished matches, finalized with the goal difference
 and sorted best first.
 */
module Standings {
  import opened Domain
  import opened Statistics
  import opened Ranking

  /** The statistics dictionary once every finished match has been applied. */
  function Accumulated(teams: seq<Team>, matches: seq<Match>): (s: map<int, Row>)
    ensures s.Keys == IdSet(teams)
  {
    Tally(InitialStats(teams), FinishedOnly(matches))
  }

  /** The classification list before sorting, in registration order. */
  function Classification(teams: seq<Team>, matches: seq<Match>): (c: seq<Row>)
    ensures |c| == |teams|
    ensures forall i :: 0 <= i < |c| ==> c[i].goalDiff == c[i].goalsFor - c[i].goalsAgainst
  {
    Table(teams, Accumulated(teams, matches))
  }

  /** The ordered table handed to the page template. */
  function OrderedTable(teams: seq<Team>, matches: seq<Match>): (t: seq<Row>)
    ensures |t| == |teams|
    ensures multiset(t) == multiset(Classification(teams, matches))
    ensures Sorted(t)
  {
    var c := Classification(teams, matches);
    RankedSorted(c);
    assert |Ranked(c)| == |multiset(Ranked(c))| == |multiset(c)| == |c|;
    Ranked(c)
  }

  /** The table view of a championship, given its registered teams and its
      matches (the database reads become these two inputs). */
  method StandingsTable(teams: seq<Team>, matches: seq<Match>) returns (table: seq<Row>)
    requires DistinctIds(teams)
    ensures table == OrderedTable(teams, matches)
  {
    var stats := SeedStats(teams);
    var finished := FinishedOnly(matches);
    stats := ApplyFinished(stats, finished);
    var rows := ClassificationList(teams, stats);
    table := Ranked(rows);
  }

  /** One all-zero row per registered team, keyed by its id. */
  method SeedStats(teams: seq<Team>) returns (stats: map<int, Row>)
    ensures stats == InitialStats(teams)
  {
    stats := map[];
    var i := 0;
    while i < |teams|
      invariant 0 <= i <= |teams|
      invariant stats == InitialStats(teams[..i])
    {
      assert teams[..i + 1][..i] == teams[..i];
      stats := stats[teams[i].id := ZeroRow(teams[i].name)];
      i := i + 1;
    }
    assert teams[..i] == teams;
  }

  /** The loop over the finished matches, crediting both rows of each match
      whose two teams are registered. */
  method ApplyFinished(seed: map<int, Row>, finished: seq<Match>) returns (stats: map<int, Row>)
    ensures stats == Tally(seed, finished)
  {
    stats := seed;
    var j := 0;
    while j < |finished|
      invariant 0 <= j <= |finished|
      invariant stats == Tally(seed, finished[..j])
    {
      var m := finished[j];
      assert finished[..j + 1][..j] == finished[..j];
      ghost var next := ApplyMatch(stats, m);
      assert Tally(seed, finished[..j + 1]) == next;
      if m.home in stats && m.away in stats {
        stats := stats[m.home := Credit(stats[m.home], m.homeScore, m.awayScore)];
        stats := stats[m.away := Credit(stats[m.away], m.awayScore, m.homeScore)];
      }
      assert stats == next;
      j := j + 1;
    }
    assert finished[..j] == finished;
  }

  /** The classification list: each team's row with its goal difference set,
      in registration order. */
  method ClassificationList(teams: seq<Team>, stats: map<int, Row>) returns (rows: seq<Row>)
    requires IdSet(teams) <= stats.Keys
    ensures rows == Table(teams, stats)
  {
    rows := [];
    var k := 0;
    IdSetPrefix(teams, 0);
    while k < |teams|
      invariant 0 <= k <= |teams|
      invariant IdSet(teams[..k]) <= stats.Keys
      invariant rows == Table(teams[..k], stats)
    {
      IdSetPrefix(teams, k + 1);
      assert teams[..k + 1][..k] == teams[..k];
      assert teams[k] in teams;
      var r := stats[teams[k].id];
      assert Table(teams[..k + 1], stats) == rows + [Finalize(r)];
      rows := rows + [Finalize(r)];
      k := k + 1;
    }
    assert teams[..k] == teams;
  }

  lemma IdSetPrefix(teams: seq<Team>, k: nat)
    requires k <= |teams|
    ensures IdSet(teams[..k]) <= IdSet(teams)
  {
    forall t | t in teams[..k] ensures t in teams { }
  }

  /** One row per registered team, carrying its name, and no other rows. */
  lemma OneRowPerTeam(teams: seq<Team>, matches: seq<Match>)
    requires DistinctIds(teams)
    ensures |OrderedTable(teams, matches)| == |teams|
    ensures multiset(OrderedTable(teams, matches)) == multiset(Classification(teams, matches))
    ensures forall i :: 0 <= i < |teams| ==> Classification(teams, matches)[i].name == teams[i].name
  {
    var seed, acc := InitialStats(teams), Accumulated(teams, matches);
    InitialStatsAreZero(teams);
    TallyKeepsRowsConsistent(seed, FinishedOnly(matches));
    var c := Classification(teams, matches);
    assert |OrderedTable(teams, matches)| == |multiset(OrderedTable(teams, matches))| == |multiset(c)| == |c|;
    forall i | 0 <= i < |teams| ensures c[i].name == teams[i].name {
      var id := teams[i].id;
      assert teams[i] in teams;
      assert c[i] == Finalize(acc[id]);
      assert acc[id].name == seed[id].name;
    }
  }

  /** Every returned row has consistent counters and its goal difference set. */
  lemma RowsConsistent(teams: seq<Team>, matches: seq<Match>)
    requires DistinctIds(teams)
    ensures forall r :: r in OrderedTable(teams, matches) ==>
              WellFormed(r) && r.goalDiff == r.goalsFor - r.goalsAgainst
  {
    var seed, acc := InitialStats(teams), Accumulated(teams, matches);
    InitialStatsAreZero(teams);
    TallyKeepsRowsConsistent(seed, FinishedOnly(matches));
    var c := Classification(teams, matches);
    forall r | r in OrderedTable(teams, matches)
      ensures WellFormed(r) && r.goalDiff == r.goalsFor - r.goalsAgainst
    {
      assert r in multiset(c);
      var i :| 0 <= i < |c| && c[i] == r;
      var id := teams[i].id;
      assert teams[i] in teams;
      assert WellFormed(seed[id]);
      assert c[i] == Finalize(acc[id]);
    }
  }

  /** Best first, and teams that tie on the whole key keep registration order. */
  lemma TableOrder(teams: seq<Team>, matches: seq<Match>)
    ensures Sorted(OrderedTable(teams, matches))
    ensures forall k :: WithKey(OrderedTable(teams, matches), k) == WithKey(Classification(teams, matches), k)
  {
    RankedSorted(Classification(teams, matches));
    forall k ensures WithKey(OrderedTable(teams, matches), k) == WithKey(Classification(teams, matches), k) {
      RankedStable(Classification(teams, matches), k);
    }
  }

  /** Column totals of the table: wins and losses each equal the number of
      decisive finished matches between registered teams, draws twice the
      number of drawn ones, and goals for equal goals against. */
  lemma Totals(teams: seq<Team>, matches: seq<Match>)
    requires DistinctIds(teams)
    ensures var table, fin, reg := OrderedTable(teams, matches), FinishedOnly(matches), IdSet(teams);
      && Sum(table, Wins) == Decisive(fin, reg)
      && Sum(table, Losses) == Decisive(fin, reg)
      && Sum(table, Draws) == 2 * Drawn(fin, reg)
      && Sum(table, Points) == 3 * Decisive(fin, reg) + 2 * Drawn(fin, reg)
      && Sum(table, Played) == 2 * (Decisive(fin, reg) + Drawn(fin, reg))
      && Sum(table, GoalsFor) == Sum(table, GoalsAgainst)
      && Sum(table, GoalDiff) == 0
  {
    var seed, fin := InitialStats(teams), FinishedOnly(matches);
    forall f ensures Sum(OrderedTable(teams, matches), f) == TotalGain(fin, IdSet(teams), f) {
      RankedSum(Classification(teams, matches), f);
      TallySum(teams, seed, fin, f);
      InitialSumIsZero(teams, f);
    }
    GainCounts(fin, IdSet(teams));
  }

  /** Scheduled and in-progress matches change nothing, wherever they stand. */
  lemma IgnoresUnfinished(teams: seq<Team>, before: seq<Match>, m: Match, after: seq<Match>)
    requires m.status != Finished
    ensures OrderedTable(teams, before + [m] + after) == OrderedTable(teams, before + after)
  {
    FinishedOnlyAppend(before + [m], after);
    FinishedOnlyAppend(before, [m]);
    FinishedOnlyAppend(before, after);
    assert FinishedOnly([m]) == [] by {
      assert [m][..0] == [];
    }
  }

  /** A finished match naming an unregistered team changes nothing, wherever
      it stands: no half-applied update to the registered side. */
  lemma SkipsUnregistered(teams: seq<Team>, before: seq<Match>, m: Match, after: seq<Match>)
    requires m.home !in IdSet(teams) || m.away !in IdSet(teams)
    ensures OrderedTable(teams, before + [m] + after) == OrderedTable(teams, before + after)
  {
    FinishedOnlyAppend(before + [m], after);
    FinishedOnlyAppend(before, [m]);
    FinishedOnlyAppend(before, after);
    assert [m][..0] == [];
    var fb, fa := FinishedOnly(before), FinishedOnly(after);
    if m.status == Finished {
      assert FinishedOnly([m]) == [m];
      TallySkipsUnregistered(InitialStats(teams), fb, m, fa);
    } else {
      assert FinishedOnly([m]) == [];
    }
  }

  /** With no finished match, every team gets an all-zero row, in
      registration order. */
  lemma NoFinishedMatches(teams: seq<Team>, matches: seq<Match>)
    requires DistinctIds(teams)
    requires forall m :: m in matches ==> m.status != Finished
    ensures |OrderedTable(teams, matches)| == |teams|
    ensures forall i :: 0 <= i < |teams| ==> OrderedTable(teams, matches)[i] == ZeroRow(teams[i].name)
  {
    var fin := FinishedOnly(matches);
    InitialStatsAreZero(teams);
    var c := Classification(teams, matches);
    forall i | 0 <= i < |c| ensures c[i] == ZeroRow(teams[i].name) {
    }
    RankedAllTied(c, (0, 0, 0));
  }

  /** Three teams, A 2-1 B and B 0-0 C finished, A 3-0 C still scheduled:
      A leads on points, then C ahead of B on goal difference. */
  lemma Example(teams: seq<Team>, matches: seq<Match>)
    requires teams == [Team(1, "A"), Team(2, "B"), Team(3, "C")]
    requires matches == [Match(1, 2, 2, 1, Finished), Match(2, 3, 0, 0, Finished), Match(1, 3, 3, 0, Scheduled)]
    ensures OrderedTable(teams, matches)
         == [Row("A", 3, 1, 0, 0, 2, 1, 1, 1), Row("C", 1, 0, 1, 0, 0, 0, 0, 1), Row("B", 1, 0, 1, 1, 1, 2, -1, 2)]
  {
    var seed := ExampleSeed(teams);
    var fin := ExampleFinished(matches);
    var acc := ExampleTally(seed, fin);
    var rows := ExampleTable(teams, acc);
    ExampleRanked(rows);
  }

  lemma ExampleSeed(teams: seq<Team>) returns (seed: map<int, Row>)
    requires teams == [Team(1, "A"), Team(2, "B"), Team(3, "C")]
    ensures seed == InitialStats(teams)
    ensures seed.Keys == {1, 2, 3}
    ensures seed[1] == ZeroRow("A") && seed[2] == ZeroRow("B") && seed[3] == ZeroRow("C")
  {
    assert DistinctIds(teams);
    InitialStatsAreZero(teams);
    seed := InitialStats(teams);
    assert teams[0] == Team(1, "A") && teams[1] == Team(2, "B") && teams[2] == Team(3, "C");
    assert IdSet(teams) == {1, 2, 3};
  }

  lemma ExampleFinished(matches: seq<Match>) returns (fin: seq<Match>)
    requires matches == [Match(1, 2, 2, 1, Finished), Match(2, 3, 0, 0, Finished), Match(1, 3, 3, 0, Scheduled)]
    ensures fin == FinishedOnly(matches)
    ensures fin == [Match(1, 2, 2, 1, Finished), Match(2, 3, 0, 0, Finished)]
  {
    var m1, m2 := matches[0], matches[1];
    assert matches[..2] == [m1, m2];
    assert matches[..2][..1] == [m1];
    assert [m1][..0] == [];
    assert FinishedOnly([m1]) == [m1];
    assert FinishedOnly([m1, m2]) == [m1, m2];
    fin := FinishedOnly(matches);
  }

  lemma ExampleTally(seed: map<int, Row>, fin: seq<Match>) returns (acc: map<int, Row>)
    requires seed.Keys == {1, 2, 3}
    requires seed[1] == ZeroRow("A") && seed[2] == ZeroRow("B") && seed[3] == ZeroRow("C")
    requires fin == [Match(1, 2, 2, 1, Finished), Match(2, 3, 0, 0, Finished)]
    ensures acc == Tally(seed, fin) && acc.Keys == {1, 2, 3}
    ensures acc[1] == Row("A", 3, 1, 0, 0, 2, 1, 0, 1)
    ensures acc[2] == Row("B", 1, 0, 1, 1, 1, 2, 0, 2)
    ensures acc[3] == Row("C", 1, 0, 1, 0, 0, 0, 0, 1)
  {
    var m1, m2 := fin[0], fin[1];
    var s1 := ApplyMatch(seed, m1);
    assert s1[1] == Row("A", 3, 1, 0, 0, 2, 1, 0, 1);
    assert s1[2] == Row("B", 0, 0, 0, 1, 1, 2, 0, 1);
    assert s1[3] == ZeroRow("C");
    TallyPair(seed, m1, m2);
    acc := ApplyMatch(s1, m2);
  }

  lemma TallyPair(s: map<int, Row>, m1: Match, m2: Match)
    ensures Tally(s, [m1, m2]) == ApplyMatch(ApplyMatch(s, m1), m2)
  {
    assert [m1, m2][..1] == [m1];
    assert [m1][..0] == [];
    assert Tally(s, [m1]) == ApplyMatch(Tally(s, []), m1);
  }

  lemma TableTriple(t1: Team, t2: Team, t3: Team, s: map<int, Row>)
    requires t1.id in s && t2.id in s && t3.id in s
    ensures IdSet([t1, t2, t3]) <= s.Keys
    ensures Table([t1, t2, t3], s) == [Finalize(s[t1.id]), Finalize(s[t2.id]), Finalize(s[t3.id])]
  {
    assert IdSet([t1, t2, t3]) == {t1.id, t2.id, t3.id};
  }

  lemma ExampleTable(teams: seq<Team>, acc: map<int, Row>) returns (rows: seq<Row>)
    requires teams == [Team(1, "A"), Team(2, "B"), Team(3, "C")]
    requires acc.Keys == {1, 2, 3}
    requires acc[1] == Row("A", 3, 1, 0, 0, 2, 1, 0, 1)
    requires acc[2] == Row("B", 1, 0, 1, 1, 1, 2, 0, 2)
    requires acc[3] == Row("C", 1, 0, 1, 0, 0, 0, 0, 1)
    ensures IdSet(teams) <= acc.Keys && rows == Table(teams, acc)
    ensures rows == [Row("A", 3, 1, 0, 0, 2, 1, 1, 1), Row("B", 1, 0, 1, 1, 1, 2, -1, 2), Row("C", 1, 0, 1, 0, 0, 0, 0, 1)]
  {
    TableTriple(teams[0], teams[1], teams[2], acc);
    assert teams == [teams[0], teams[1], teams[2]];
    rows := Table(teams, acc);
  }

  lemma ExampleRanked(rows: seq<Row>)
    requires rows == [Row("A", 3, 1, 0, 0, 2, 1, 1, 1), Row("B", 1, 0, 1, 1, 1, 2, -1, 2), Row("C", 1, 0, 1, 0, 0, 0, 0, 1)]
    ensures Ranked(rows) == [Row("A", 3, 1, 0, 0, 2, 1, 1, 1), Row("C", 1, 0, 1, 0, 0, 0, 0, 1), Row("B", 1, 0, 1, 1, 1, 2, -1, 2)]
  {
    var a, b, c := rows[0], rows[1], rows[2];
    assert rows[..2] == [a, b];
    assert [a, b][..1] == [a];
    assert [a][..0] == [];
    assert Ranked([a, b]) == [a, b];
    assert Insert([a], c) == [a, c];
  }
}
