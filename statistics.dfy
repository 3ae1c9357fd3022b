/**
 Accumulation of the per-team statistics: the seeded dictionary keyed by team
 id, the filter on finished matches, the update one counted match makes, the
 fold over all finished matches, and the list of rows with the goal
 difference filled in.
 */
module Statistics {
  import opened Domain

  /** The dictionary seeded with one all-zero row per registered team. */
  function InitialStats(teams: seq<Team>): (s: map<int, Row>)
    ensures s.Keys == IdSet(teams)
  {
    if teams == [] then map[]
    else
      var t := teams[|teams| - 1];
      assert teams == teams[..|teams| - 1] + [t];
      InitialStats(teams[..|teams| - 1])[t.id := ZeroRow(t.name)]
  }

  lemma {:induction false} InitialStatsAreZero(teams: seq<Team>)
    requires DistinctIds(teams)
    ensures forall i :: 0 <= i < |teams| ==> InitialStats(teams)[teams[i].id] == ZeroRow(teams[i].name)
  {
    if teams != [] {
      var p := teams[..|teams| - 1];
      InitialStatsAreZero(p);
      forall i | 0 <= i < |teams|
        ensures InitialStats(teams)[teams[i].id] == ZeroRow(teams[i].name)
      {
        if i < |teams| - 1 {
          assert p[i] == teams[i];
          assert teams[i].id != teams[|teams| - 1].id;
        }
      }
    }
  }

  /** The database query keeps only the matches whose status is 'Finalizado',
      in their original order. */
  function FinishedOnly(ms: seq<Match>): (r: seq<Match>)
    ensures forall m :: m in r <==> m in ms && m.status == Finished
  {
    if ms == [] then []
    else
      var m := ms[|ms| - 1];
      assert ms == ms[..|ms| - 1] + [m];
      if m.status == Finished then FinishedOnly(ms[..|ms| - 1]) + [m] else FinishedOnly(ms[..|ms| - 1])
  }

  lemma {:induction false} FinishedOnlyAppend(a: seq<Match>, b: seq<Match>)
    ensures FinishedOnly(a + b) == FinishedOnly(a) + FinishedOnly(b)
  {
    if b == [] {
      assert a + b == a;
    } else {
      var b' := b[..|b| - 1];
      assert (a + b)[..|a + b| - 1] == a + b';
      FinishedOnlyAppend(a, b');
    }
  }

  /** The update one side of a counted match makes to its own row: one more
      match played, its goals scored and conceded, and 3 points and a win,
      a loss, or 1 point and a draw. */
  function Credit(r: Row, scored: int, conceded: int): (c: Row)
    ensures c.name == r.name && c.goalDiff == r.goalDiff
    ensures WellFormed(r) ==> WellFormed(c)
  {
    var c := r.(played := r.played + 1, goalsFor := r.goalsFor + scored,
                goalsAgainst := r.goalsAgainst + conceded);
    if scored > conceded then c.(points := c.points + 3, wins := c.wins + 1)
    else if scored < conceded then c.(losses := c.losses + 1)
    else c.(points := c.points + 1, draws := c.draws + 1)
  }

  /** Both teams of the match are registered to the championship. */
  predicate Counts(m: Match, registered: set<int>)
  {
    m.home in registered && m.away in registered
  }

  /** One finished match applied to the dictionary: skipped unless both teams
      are registered; otherwise the home side and then the away side are
      credited, so a match of a team against itself credits its one row twice. */
  function ApplyMatch(s: map<int, Row>, m: Match): (r: map<int, Row>)
    ensures r.Keys == s.Keys
    ensures forall k :: k in s && k != m.home && k != m.away ==> r[k] == s[k]
    ensures !Counts(m, s.Keys) ==> r == s
    ensures forall k :: k in s ==> r[k].name == s[k].name
    ensures (forall k :: k in s ==> WellFormed(s[k])) ==> forall k :: k in r ==> WellFormed(r[k])
  {
    if Counts(m, s.Keys) then
      var s1 := s[m.home := Credit(s[m.home], m.homeScore, m.awayScore)];
      s1[m.away := Credit(s1[m.away], m.awayScore, m.homeScore)]
    else s
  }

  /** `after` is `before` with the given amounts added to its counters and its
      name and goal difference untouched. */
  ghost predicate Bumped(before: Row, after: Row, played: int, points: int, wins: int, draws: int,
                         losses: int, goalsFor: int, goalsAgainst: int)
  {
    after == before.(played := before.played + played, points := before.points + points,
                     wins := before.wins + wins, draws := before.draws + draws,
                     losses := before.losses + losses, goalsFor := before.goalsFor + goalsFor,
                     goalsAgainst := before.goalsAgainst + goalsAgainst)
  }

  /** A counted match between two different teams changes exactly their two
      rows, by the 3/1/0 scheme. */
  lemma CountedMatchEffect(s: map<int, Row>, m: Match)
    requires m.home in s && m.away in s && m.home != m.away
    ensures var r, h, a := ApplyMatch(s, m), m.homeScore, m.awayScore;
      && (forall k :: k in s && k != m.home && k != m.away ==> r[k] == s[k])
      && (h > a ==>
            Bumped(s[m.home], r[m.home], 1, 3, 1, 0, 0, h, a) && Bumped(s[m.away], r[m.away], 1, 0, 0, 0, 1, a, h))
      && (h < a ==>
            Bumped(s[m.home], r[m.home], 1, 0, 0, 0, 1, h, a) && Bumped(s[m.away], r[m.away], 1, 3, 1, 0, 0, a, h))
      && (h == a ==>
            Bumped(s[m.home], r[m.home], 1, 1, 0, 1, 0, h, a) && Bumped(s[m.away], r[m.away], 1, 1, 0, 1, 0, a, h))
  {
  }

  /** A counted match of a team against itself hits its one row with both the
      home and the away update. */
  lemma SelfMatchEffect(s: map<int, Row>, m: Match)
    requires m.home in s && m.home == m.away
    ensures var r, h, a := ApplyMatch(s, m), m.homeScore, m.awayScore;
      && (forall k :: k in s && k != m.home ==> r[k] == s[k])
      && (h != a ==> Bumped(s[m.home], r[m.home], 2, 3, 1, 0, 1, h + a, a + h))
      && (h == a ==> Bumped(s[m.home], r[m.home], 2, 2, 0, 2, 0, h + a, a + h))
  {
  }

  /** The dictionary after the loop over the given finished matches. */
  function Tally(s: map<int, Row>, ms: seq<Match>): (r: map<int, Row>)
    ensures r.Keys == s.Keys
  {
    if ms == [] then s else ApplyMatch(Tally(s, ms[..|ms| - 1]), ms[|ms| - 1])
  }

  lemma {:induction false} TallyAppend(s: map<int, Row>, a: seq<Match>, b: seq<Match>)
    ensures Tally(s, a + b) == Tally(Tally(s, a), b)
  {
    if b == [] {
      assert a + b == a;
    } else {
      var b' := b[..|b| - 1];
      assert (a + b)[..|a + b| - 1] == a + b';
      TallyAppend(s, a, b');
    }
  }

  /** A match naming an unregistered team changes nothing, wherever it stands
      among the matches. */
  lemma TallySkipsUnregistered(s: map<int, Row>, before: seq<Match>, m: Match, after: seq<Match>)
    requires !Counts(m, s.Keys)
    ensures Tally(s, before + [m] + after) == Tally(s, before + after)
  {
    TallyAppend(s, before + [m], after);
    TallyAppend(s, before, [m]);
    assert [m][..0] == [];
    TallyAppend(s, before, after);
  }

  /** Accumulation keeps every team's name and the agreement between its counters. */
  lemma {:induction false} TallyKeepsRowsConsistent(s: map<int, Row>, ms: seq<Match>)
    ensures forall k :: k in s ==> Tally(s, ms)[k].name == s[k].name
    ensures forall k :: k in s && WellFormed(s[k]) ==> WellFormed(Tally(s, ms)[k])
    ensures (forall k :: k in s ==> WellFormed(s[k])) ==> forall k :: k in s ==> WellFormed(Tally(s, ms)[k])
  {
    if ms != [] {
      TallyKeepsRowsConsistent(s, ms[..|ms| - 1]);
    }
  }

  /** The row as appended to the classification list: goal difference set to
      goals for minus goals against. */
  function Finalize(r: Row): (f: Row)
    ensures f.goalDiff == f.goalsFor - f.goalsAgainst
    ensures f.(goalDiff := r.goalDiff) == r
    ensures WellFormed(r) ==> WellFormed(f)
  {
    r.(goalDiff := r.goalsFor - r.goalsAgainst)
  }

  /** The classification list: one finalized row per registered team, in
      registration order (the dictionary's insertion order). */
  function Table(teams: seq<Team>, s: map<int, Row>): (rows: seq<Row>)
    requires IdSet(teams) <= s.Keys
    ensures |rows| == |teams|
    ensures forall i :: 0 <= i < |teams| ==> rows[i] == Finalize(s[teams[i].id])
  {
    if teams == [] then []
    else
      var t := teams[|teams| - 1];
      assert t in teams;
      assert IdSet(teams[..|teams| - 1]) <= IdSet(teams) by {
        forall u | u in teams[..|teams| - 1] ensures u in teams { }
      }
      Table(teams[..|teams| - 1], s) + [Finalize(s[t.id])]
  }

  /** What one side of a counted match adds to a column of its row. */
  function SideGain(scored: int, conceded: int, f: Field): int
  {
    match f
    case Points => if scored > conceded then 3 else if scored < conceded then 0 else 1
    case Wins => if scored > conceded then 1 else 0
    case Draws => if scored == conceded then 1 else 0
    case Losses => if scored < conceded then 1 else 0
    case GoalsFor => scored
    case GoalsAgainst => conceded
    case GoalDiff => scored - conceded
    case Played => 1
  }

  /** What a counted match adds to a column summed over all rows. */
  function MatchGain(m: Match, f: Field): int
  {
    SideGain(m.homeScore, m.awayScore, f) + SideGain(m.awayScore, m.homeScore, f)
  }

  /** What the counted matches among `ms` add to a column summed over all rows. */
  function TotalGain(ms: seq<Match>, registered: set<int>, f: Field): int
  {
    if ms == [] then 0
    else TotalGain(ms[..|ms| - 1], registered, f)
         + (if Counts(ms[|ms| - 1], registered) then MatchGain(ms[|ms| - 1], f) else 0)
  }

  /** The number of counted matches among `ms` with a winner. */
  function Decisive(ms: seq<Match>, registered: set<int>): nat
  {
    if ms == [] then 0
    else
      var m := ms[|ms| - 1];
      Decisive(ms[..|ms| - 1], registered) + (if Counts(m, registered) && m.homeScore != m.awayScore then 1 else 0)
  }

  /** The number of counted matches among `ms` that ended level. */
  function Drawn(ms: seq<Match>, registered: set<int>): nat
  {
    if ms == [] then 0
    else
      var m := ms[|ms| - 1];
      Drawn(ms[..|ms| - 1], registered) + (if Counts(m, registered) && m.homeScore == m.awayScore then 1 else 0)
  }

  lemma CreditGain(r: Row, scored: int, conceded: int, f: Field)
    ensures Get(Finalize(Credit(r, scored, conceded)), f) == Get(Finalize(r), f) + SideGain(scored, conceded, f)
  {
  }

  /** Replacing one registered team's row changes a column total by the
      difference between the new and the old row. */
  lemma {:induction false} SumTableUpdate(teams: seq<Team>, s: map<int, Row>, k: int, v: Row, f: Field)
    requires DistinctIds(teams) && IdSet(teams) <= s.Keys && k in IdSet(teams)
    ensures Sum(Table(teams, s[k := v]), f) == Sum(Table(teams, s), f) - Get(Finalize(s[k]), f) + Get(Finalize(v), f)
  {
    var n := |teams|;
    var p, t := teams[..n - 1], teams[n - 1];
    PrefixIds(teams, k);
    assert Table(teams, s) == Table(p, s) + [Finalize(s[t.id])];
    assert Table(teams, s[k := v]) == Table(p, s[k := v]) + [Finalize(s[k := v][t.id])];
    SumSnoc(Table(p, s), Finalize(s[t.id]), f);
    SumSnoc(Table(p, s[k := v]), Finalize(s[k := v][t.id]), f);
    if t.id == k {
      TableIgnoresOthers(p, s, k, v);
    } else {
      SumTableUpdate(p, s, k, v, f);
    }
  }

  /** Dropping the last registered team: ids stay distinct, and `k` stays
      registered exactly when it was not the last team's id. */
  lemma PrefixIds(teams: seq<Team>, k: int)
    requires DistinctIds(teams) && teams != []
    ensures var p := teams[..|teams| - 1];
      && DistinctIds(p)
      && IdSet(p) <= IdSet(teams)
      && (k == teams[|teams| - 1].id ==> forall u :: u in p ==> u.id != k)
      && (k in IdSet(teams) && k != teams[|teams| - 1].id ==> k in IdSet(p))
  {
    var n := |teams|;
    var p := teams[..n - 1];
    forall u | u in p ensures u in teams && (u.id != teams[n - 1].id) {
      var i :| 0 <= i < |p| && p[i] == u;
      assert teams[i] == u;
    }
    if k in IdSet(teams) && k != teams[n - 1].id {
      var u :| u in teams && u.id == k;
      var i :| 0 <= i < n && teams[i] == u;
      assert p[i] == u;
    }
  }

  lemma SumSnoc(rows: seq<Row>, r: Row, f: Field)
    ensures Sum(rows + [r], f) == Sum(rows, f) + Get(r, f)
  {
    assert (rows + [r])[..|rows|] == rows;
  }

  /** The table of teams that do not include `k` does not look at `k`'s row. */
  lemma TableIgnoresOthers(teams: seq<Team>, s: map<int, Row>, k: int, v: Row)
    requires IdSet(teams) <= s.Keys && forall t :: t in teams ==> t.id != k
    ensures Table(teams, s[k := v]) == Table(teams, s)
  {
  }

  /** Totals over the table move by exactly the gain of each counted match. */
  lemma ApplyMatchSum(teams: seq<Team>, s: map<int, Row>, m: Match, f: Field)
    requires DistinctIds(teams) && s.Keys == IdSet(teams)
    ensures Sum(Table(teams, ApplyMatch(s, m)), f)
            == Sum(Table(teams, s), f) + (if Counts(m, s.Keys) then MatchGain(m, f) else 0)
  {
    if Counts(m, s.Keys) {
      var s1 := s[m.home := Credit(s[m.home], m.homeScore, m.awayScore)];
      SumTableUpdate(teams, s, m.home, Credit(s[m.home], m.homeScore, m.awayScore), f);
      CreditGain(s[m.home], m.homeScore, m.awayScore, f);
      SumTableUpdate(teams, s1, m.away, Credit(s1[m.away], m.awayScore, m.homeScore), f);
      CreditGain(s1[m.away], m.awayScore, m.homeScore, f);
    }
  }

  lemma {:induction false} TallySum(teams: seq<Team>, s: map<int, Row>, ms: seq<Match>, f: Field)
    requires DistinctIds(teams) && s.Keys == IdSet(teams)
    ensures Sum(Table(teams, Tally(s, ms)), f) == Sum(Table(teams, s), f) + TotalGain(ms, s.Keys, f)
  {
    if ms != [] {
      TallySum(teams, s, ms[..|ms| - 1], f);
      ApplyMatchSum(teams, Tally(s, ms[..|ms| - 1]), ms[|ms| - 1], f);
    }
  }

  /** Column by column, what the counted matches add up to: a win and a loss
      per decisive match, two draws per drawn one, and as many goals conceded
      as scored. */
  lemma {:induction false} GainCounts(ms: seq<Match>, registered: set<int>)
    ensures TotalGain(ms, registered, Wins) == Decisive(ms, registered)
    ensures TotalGain(ms, registered, Losses) == Decisive(ms, registered)
    ensures TotalGain(ms, registered, Draws) == 2 * Drawn(ms, registered)
    ensures TotalGain(ms, registered, Points) == 3 * Decisive(ms, registered) + 2 * Drawn(ms, registered)
    ensures TotalGain(ms, registered, Played) == 2 * (Decisive(ms, registered) + Drawn(ms, registered))
    ensures TotalGain(ms, registered, GoalsFor) == TotalGain(ms, registered, GoalsAgainst)
    ensures TotalGain(ms, registered, GoalDiff) == 0
  {
    if ms != [] {
      GainCounts(ms[..|ms| - 1], registered);
    }
  }

  /** Every column of a table of freshly seeded rows sums to zero. */
  lemma {:induction false} InitialSumIsZero(teams: seq<Team>, f: Field)
    requires DistinctIds(teams)
    ensures Sum(Table(teams, InitialStats(teams)), f) == 0
  {
    InitialStatsAreZero(teams);
    var rows := Table(teams, InitialStats(teams));
    ZeroRowsSum(rows, f);
  }

  lemma {:induction false} ZeroRowsSum(rows: seq<Row>, f: Field)
    requires forall i :: 0 <= i < |rows| ==> rows[i] == ZeroRow(rows[i].name)
    ensures Sum(rows, f) == 0
  {
    if rows != [] {
      ZeroRowsSum(rows[..|rows| - 1], f);
    }
  }
}
