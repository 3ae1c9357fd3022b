/**
 The entities the standings computation reads and produces: registered teams,
 matches of a championship, and the per-team statistics row of the
 classification table.
 */
module Domain {

  /** The three match states offered by the match form: 'Agendado',
      'Em Andamento' and 'Finalizado'. */
  datatype Status = Scheduled | InProgress | Finished

  /** A team registered to the championship; only its id and name are used. */
  datatype Team = Team(id: int, name: string)

  /** A match: the two team ids, the two scores and the status. Scores are
      unconstrained integers, as the form's integer fields are. */
  datatype Match = Match(home: int, away: int, homeScore: int, awayScore: int, status: Status)

  /** One team's statistics: name, points, wins, draws, losses, goals for,
      goals against, goal difference and matches played. */
  datatype Row = Row(name: string, points: int, wins: int, draws: int, losses: int,
                     goalsFor: int, goalsAgainst: int, goalDiff: int, played: int)

  /** The row a registered team starts from: its name and every counter zero. */
  function ZeroRow(name: string): Row
  {
    Row(name, 0, 0, 0, 0, 0, 0, 0, 0)
  }

  /** The numeric columns of a row, so that totals can be taken column by column. */
  datatype Field = Points | Wins | Draws | Losses | GoalsFor | GoalsAgainst | GoalDiff | Played

  function Get(r: Row, f: Field): int
  {
    match f
    case Points => r.points
    case Wins => r.wins
    case Draws => r.draws
    case Losses => r.losses
    case GoalsFor => r.goalsFor
    case GoalsAgainst => r.goalsAgainst
    case GoalDiff => r.goalDiff
    case Played => r.played
  }

  /** The total of one column over a list of rows. */
  function Sum(rows: seq<Row>, f: Field): int
  {
    if rows == [] then 0 else Sum(rows[..|rows| - 1], f) + Get(rows[|rows| - 1], f)
  }

  /** The counters of a row agree with each other: 3 points per win and 1 per
      draw, and every match played was a win, a draw or a loss. */
  predicate WellFormed(r: Row)
  {
    r.points == 3 * r.wins + r.draws && r.played == r.wins + r.draws + r.losses
  }

  /** No team is registered twice (the association table's key is the pair
      of team id and championship id). */
  predicate DistinctIds(teams: seq<Team>)
  {
    forall i, j :: 0 <= i < j < |teams| ==> teams[i].id != teams[j].id
  }

  function IdSet(teams: seq<Team>): set<int>
  {
    set t | t in teams :: t.id
  }
}
