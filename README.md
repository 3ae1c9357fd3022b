# Championship standings, modelled in Dafny

This project models the classification-table view of a championship
management web application (`ver_tabela_campeonato`). Given a championship's
registered teams and its matches, the view builds one statistics row per
team: name, points, wins, draws, losses, goals for, goals against, goal
difference and matches played. Only finished matches whose two teams are both
registered are counted, under the 3/1/0 points scheme. The rows are then
sorted best first by (points, goal difference, goals for).

Files and modules:

- `domain.dfy` (`Domain`): teams, matches with their three statuses
  (scheduled, in progress, finished), statistics rows, and column totals.
- `statistics.dfy` (`Statistics`): the functions that specify the accumulation.
  They cover the dictionary seeded with all-zero rows, the finished-match
  filter, the per-match update (`Credit`, `ApplyMatch`), the fold over all
  finished matches (`Tally`) and the list with the goal difference filled in
  (`Table`). The module also holds their lemmas: the effect of each outcome,
  the per-row invariants and the column totals.
- `ranking.dfy` (`Ranking`): the sort key and the descending stable sort
  (`Ranked`). It proves that the sort is a permutation, that the result is
  non-increasing in the key, and that it is stable.
- `standings.dfy` (`Standings`): the view as an imperative method
  (`StandingsTable`). The method runs the source's three loops as the steps
  `SeedStats`, `ApplyFinished` and `ClassificationList`, then sorts. It is
  proved equal to the specification `OrderedTable`. The properties of the
  whole table are lemmas about `OrderedTable`.

Design decisions, where the code was followed:

- Scores are unbounded integers. The match form's score fields accept any
  integer, so negative scores are modelled and no precondition excludes them.
- A match of a team against itself is allowed, as the match form allows it.
  The home update and then the away update hit the same dictionary entry, as
  the aliased dictionaries do in the source.
- Rows that tie on the whole key keep the order in which the championship's
  `times` relationship yields its teams (`Trabalho/app/models.py:39-40`
  declares no `order_by`, so that order is whatever the database returns).
  This follows from Python's stable `sorted` with `reverse=True` and from the
  dictionary's insertion order. The model takes the teams as a sequence in
  that order, and states and proves the stability (`RankedStable`,
  `TableOrder`).
- Team ids are distinct. This is a precondition, guaranteed by the composite
  primary key of the championship/team association table
  (`Trabalho/app/models.py:18-21`).
- Home and away updates share one function, `Credit(row, scored, conceded)`.
  Its three branches give exactly the updates of the source's
  `if/elif/else`, seen from each side.
- With teams A, B and C, A 2-1 B and B 0-0 C finished and A 3-0 C scheduled,
  the table is A (3 points, goal difference 1), C (1 point, goal difference
  0), B (1 point, 2 goals against, goal difference -1).
  `Standings.Example` proves these values.
- Calling the view twice on the same inputs gives the same table. This holds
  by construction, because `OrderedTable` is a function.

## Model

| member | source | states |
|---|---|---|
| Statistics.InitialStats | Trabalho/app/routes.py:26-32 | the seeded dictionary's keys are exactly the registered team ids |
| Statistics.InitialStatsAreZero | Trabalho/app/routes.py:26-32 | with distinct ids, every registered team's seeded row carries its name and all counters zero |
| Statistics.FinishedOnly | Trabalho/app/routes.py:34 | a match is kept iff it is one of the inputs and its status is finished |
| Statistics.FinishedOnlyAppend | Trabalho/app/routes.py:34 | the filter keeps the input order: filtering a concatenation concatenates the filtered parts |
| Statistics.Credit | Trabalho/app/routes.py:42-62 | one side's update keeps the row's name and goal difference and preserves points = 3*wins + draws and played = wins + draws + losses |
| Statistics.ApplyMatch | Trabalho/app/routes.py:38-62 | a match whose two teams are not both registered leaves the dictionary unchanged; any match keeps the key set, touches no row but the home and away rows, keeps every name and preserves the two row invariants |
| Statistics.CountedMatchEffect | Trabalho/app/routes.py:42-62 | for two different registered teams: both get one more match and their goals for/against; a home win gives home +3 points and +1 win and away +1 loss, an away win the mirror image, a draw +1 point and +1 draw each; nothing else changes |
| Statistics.SelfMatchEffect | Trabalho/app/routes.py:39-62 | when home and away are the same team, its one row gets both updates: 2 more matches, both scores as goals for and against, and +3 points, a win and a loss, or +2 points and 2 draws |
| Statistics.Tally | Trabalho/app/routes.py:36-62 | the loop over finished matches never adds or removes a key |
| Statistics.TallyAppend | Trabalho/app/routes.py:36-62 | processing two runs of matches in sequence is processing their concatenation |
| Statistics.TallySkipsUnregistered | Trabalho/app/routes.py:38 | a match with an unregistered home or away team leaves the dictionary exactly as without it, wherever it stands |
| Statistics.TallyKeepsRowsConsistent | Trabalho/app/routes.py:42-62 | after any matches every row keeps its name, and each row that satisfied the two invariants still does (so if every row did, every row still does) |
| Statistics.Finalize | Trabalho/app/routes.py:65-66 | the goal difference becomes goals for minus goals against; no other field changes; the invariants are kept |
| Statistics.Table | Trabalho/app/routes.py:64-67 | the classification list has one finalized row per registered team, in registration order |
| Statistics.CreditGain | Trabalho/app/routes.py:42-62 | one side's update adds a fixed amount to each column, whatever the row held before |
| Statistics.ApplyMatchSum | Trabalho/app/routes.py:38-62 | a counted match adds the sum of its two sides' gains to each column total; a skipped one adds nothing |
| Statistics.TallySum | Trabalho/app/routes.py:36-62 | each column total grows by the gains of exactly the counted matches |
| Statistics.GainCounts | Trabalho/app/routes.py:50-62 | counted matches add one win and one loss per decisive match, two draws per drawn one, 3 or 2 points, 2 matches played, equal goals for and against, zero goal difference |
| Ranking.AtLeast | Trabalho/app/routes.py:70 | the comparison of keys is total, and two rows each rank at least as high as the other exactly when their keys are equal |
| Ranking.Insert | Trabalho/app/routes.py:69-71 | inserting a row adds exactly that row (multiset) |
| Ranking.Ranked | Trabalho/app/routes.py:69-71 | the sorted table is a permutation of the classification list |
| Ranking.RankedSorted | Trabalho/app/routes.py:69-71 | the sorted table is non-increasing in (points, goal difference, goals for), compared lexicographically |
| Ranking.RankedStable | Trabalho/app/routes.py:69-71 | for every key, the rows with that key appear in the same relative order as before sorting |
| Ranking.RankedAllTied | Trabalho/app/routes.py:69-71 | a list whose rows all tie is returned unchanged |
| Ranking.RankedSum | Trabalho/app/routes.py:69-71 | sorting leaves every column total unchanged |
| Standings.Accumulated | Trabalho/app/routes.py:26-62 | after all finished matches the dictionary still has exactly the registered team ids as keys |
| Standings.Classification | Trabalho/app/routes.py:64-67 | the list before sorting has one row per registered team, each with goal difference = goals for - goals against |
| Standings.OrderedTable | Trabalho/app/routes.py:69-71 | the ordered table has one row per registered team, is a permutation of the classification list and is sorted best first |
| Standings.StandingsTable | Trabalho/app/routes.py:22-75 | the view's loops and sort return exactly the specified ordered table |
| Standings.SeedStats | Trabalho/app/routes.py:26-32 | the seeding loop builds the all-zero dictionary |
| Standings.ApplyFinished | Trabalho/app/routes.py:36-62 | the loop over finished matches computes the specified fold |
| Standings.ClassificationList | Trabalho/app/routes.py:64-67 | the loop that sets goal differences and appends rows builds the classification list |
| Standings.OneRowPerTeam | Trabalho/app/routes.py:26-71 | the table has exactly as many rows as registered teams, is a permutation of the list with one row per team, and each team's row carries its name |
| Standings.RowsConsistent | Trabalho/app/routes.py:42-66 | every returned row has points = 3*wins + draws, played = wins + draws + losses and goal difference = goals for - goals against |
| Standings.TableOrder | Trabalho/app/routes.py:69-71 | the table is sorted best first, and rows with equal keys keep registration order |
| Standings.Totals | Trabalho/app/routes.py:36-71 | summed over the table: wins = losses = decisive counted matches, draws = twice the drawn ones, points = 3*decisive + 2*drawn, played = twice all counted matches, goals for = goals against, goal differences sum to 0 |
| Standings.IgnoresUnfinished | Trabalho/app/routes.py:34 | a scheduled or in-progress match changes no row, wherever it stands among the matches |
| Standings.SkipsUnregistered | Trabalho/app/routes.py:38 | a match naming an unregistered team changes no row, even the registered side's |
| Standings.NoFinishedMatches | Trabalho/app/routes.py:26-71 | with no finished match, row i is team i's all-zero row, in registration order |
| Standings.Example | Trabalho/app/routes.py:22-71 | with teams A, B, C, A 2-1 B and B 0-0 C finished and A 3-0 C scheduled, the table is A (3 pts, gd 1), C (1 pt, gd 0), B (1 pt, gd -1) |

## Left out

- Flask routing, `get_or_404` and `render_template` are I/O. The two
  database queries become inputs: the championship's registered teams, as a
  sequence in the order the relationship yields them, and its matches. The
  status filter of the second query is modelled (`FinishedOnly`), but its
  championship filter is not: the matches given are already that
  championship's.
- The other routes of `Trabalho/app/routes.py` are left out: team,
  championship and match CRUD, team registration, users, login and logout.
  They copy form fields into database records and contain no computation.
- Form declarations and validators (`Trabalho/app/forms.py`) are left out.
  They belong to a web-forms library that is not part of this model. The
  only things kept from them are the three status choices and the
  unconstrained integer scores.
- Database schema and user loading (`Trabalho/app/models.py`), the
  application factory with its admin-creation command
  (`Trabalho/app/__init__.py`) and the admin decorator
  (`Trabalho/app/decorators.py`) are framework set-up, password hashing and
  session state. The only thing kept is that registered team ids are
  distinct.
- A NULL score is not modelled. The score columns are nullable
  (`Trabalho/app/models.py:48-49`), and a finished match with a NULL score
  makes `Trabalho/app/routes.py:45` or `:46` raise a `TypeError`. In the
  model a score is always an integer.
- The sort: Python's `sorted` (Timsort) is specified by a stable
  insertion sort, not by its own algorithm. A stable sort by a key has only
  one possible output, so the table is the same.
