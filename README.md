# CRAQUE dashboards: the filtering and highlighting core

CRAQUE is a set of three Streamlit dashboards over a table of football
player-seasons, each row carrying pre-computed offensive, defensive and
total CRAQUE (RAPTOR-style) ratings and WAR. Apart from widgets and plots,
each script applies a short, fixed sequence of selections to the table
and derives its dropdown lists from partly filtered rows. This project
models that sequence and proves what it keeps, in what order, and what
each dropdown offers.

- `sequences.dfy` (module `Sequences`): order-preserving subsequences;
  pandas `unique()` (each value once, in order of first appearance); Python
  `sorted()` over strings (lexicographic by code point), as an insertion
  sort proved sorted and a permutation.
- `rows.dfy` (module `Rows`): a row (`Player`, `Team`/`Squad`,
  `League`/`Campeonato`, `Season`/`Ano`, integer `Age`/`Idade`, metric
  columns as an opaque map); the three boolean masks the scripts index with
  (`col == value`, the inclusive age range, `isin([p1, p2])`); `Keep`
  (`data[mask]`); `Choose` (a dropdown with its "All"/"Todos" sentinel);
  sorted dropdown lists; the age slider, whose range is the min and max age
  of the rows it is built from.
- `craque_eng.dfy` (module `CraqueEng`, `CRAQUE-ENG.py`): the "General
  Analysis", "Table" and "Player Comparison" pages as functions of the table
  and the widget values, including where each dropdown list is computed and
  the comparison table's columns.
- `craque.dfy` (module `Craque`, `craque.py`): the campeonato/club/player
  dropdown cascade, the age filter, the priority focus (player, then club,
  then campeonato), the 'Cor' column and colour map, and the detail table.
  `data_filtered` is a class, `PlotFrame`, whose `Highlight` method assigns
  the 'Cor' column in place through the source's if/elif chain; `Run` is the
  whole script.
- `craque_v2.dfy` (module `CraqueV2`, `craquev2.py`): the download that yields
  an empty table on a request error, the stop on an empty table, and the
  chart guard on the two rating columns. After the empty-table stop it runs
  `Craque.Run`; the chart guard decides only whether the scatter is drawn.

Points where a reader might expect otherwise:
- In `craque.py` and `craquev2.py` the dropdowns do not filter the plotted
  rows. Only the age slider does, and the focus only colours them. So a
  club choice plots 'Outros' rows beside the 'Selecionado' ones.
- In `CRAQUE-ENG.py` the filters run in one fixed order. That the order does
  not change the result is proved separately (`Rows.KeepCommutes`).
- The slider over an empty row set is an error (`NoRowsForAgeSlider`), as
  `int()` of a NaN minimum raises. It is not an empty result.
- The comment at `craque.py:25` says the player list follows the club and
  the campeonato. The code narrows it by club only, and the model does the
  same (`Craque.PlayerOptionsSpec`).

## Model

| member | source | states |
|---|---|---|
| `Rows.Keep` | CRAQUE-ENG.py:76 | a mask selection holds exactly the input rows the mask holds for |
| `Rows.KeepExact` | CRAQUE-ENG.py:59 | a mask selection keeps each matching row as often as it occurs, drops every other row, and keeps the original order (an order-preserving subsequence) |
| `Rows.KeepInOrder` | CRAQUE-ENG.py:117 | the selected rows are a subsequence of the input: never reordered, never altered |
| `Rows.KeepCounts` | CRAQUE-ENG.py:125 | every matching row keeps its multiplicity; a non-matching row has none |
| `Rows.KeepIdempotent` | CRAQUE-ENG.py:139 | applying the same filter twice equals applying it once |
| `Rows.KeepCommutes` | CRAQUE-ENG.py:116-139 | two filters give the same rows in the same order whichever runs first |
| `Rows.ChooseSpec` | CRAQUE-ENG.py:57-72 | the 'All' choice leaves the rows unchanged; any other choice keeps exactly the rows whose field equals it, as a subsequence of the input |
| `Rows.ChooseCounts` | CRAQUE-ENG.py:66-67 | a dropdown filter keeps each admitted row as often as it occurs and no other row |
| `Rows.ChooseValues` | CRAQUE-ENG.py:58-60 | the values a column takes after a dropdown filter are exactly the values of the rows that dropdown admits |
| `Rows.MenuSpec` | CRAQUE-ENG.py:57 | `['All'] + sorted(unique)` is 'All' followed by each value of the column once, in ascending order |
| `Rows.MinAge` | CRAQUE-ENG.py:75 | the slider's lower end is at most every row's age and is some row's age |
| `Rows.MaxAge` | CRAQUE-ENG.py:75 | the slider's upper end is at least every row's age and is some row's age |
| `Rows.AgeStepSpec` | CRAQUE-ENG.py:75-76 | the slider fails exactly on no rows; otherwise its range is the min and max Age of the rows and the step keeps exactly the rows with age_min <= Age <= age_max, each as often as it occurs, in order; an inverted range keeps none |
| `Rows.DefaultSliderKeepsAll` | CRAQUE-ENG.py:75-76 | with the slider at its default (min and max Age of the rows), the age step removes no row |
| `Sequences.SubsequenceTransitive` | CRAQUE-ENG.py:117-130 | re-binding `data` to a selection of a selection still gives a subsequence of the original table |
| `Sequences.SubsequenceBounds` | CRAQUE-ENG.py:117-139 | a filtered table is never longer than its input and holds only input rows (filtering is monotonic) |
| `Sequences.Unique` | craque.py:12 | `unique()` holds each value of its input exactly once, as a subsequence of the input |
| `Sequences.UniqueOrder` | craque.py:12 | `unique()` lists each value before every value whose first occurrence comes later |
| `Sequences.UniqueSnoc` | craque.py:14-16 | `unique()` lists values in order of first appearance: a later value is appended when first seen and skipped afterwards |
| `Sequences.SortStrings` | CRAQUE-ENG.py:65 | `sorted()` returns its input in ascending order, as a permutation |
| `Sequences.SortedListIsDetermined` | CRAQUE-ENG.py:57 | a sorted list without duplicates is fixed by its set of values, so each `sorted(unique())` menu is the only list with those values |
| `Sequences.SortDistinct` | CRAQUE-ENG.py:70 | sorting distinct values gives the same values, each once, ascending |
| `CraqueEng.CascadeSpec` | CRAQUE-ENG.py:116-130 | the league, season and team steps keep exactly the rows passing all three, each as often as it occurs, as a subsequence of the table |
| `CraqueEng.GeneralAnalysisRows` | CRAQUE-ENG.py:57-76 | the plotted rows are exactly those passing league, season, team and the inclusive age range, each as often as it occurs, in table order; the page fails exactly when the dropdowns leave no row |
| `CraqueEng.GeneralAnalysisMenus` | CRAQUE-ENG.py:57-70 | leagues come from all rows; seasons and teams from the league-filtered rows (teams before the season filter); each list is 'All' then distinct values ascending |
| `CraqueEng.OfferedTeamCanEmptyTheSlider` | CRAQUE-ENG.py:60-75 | a team offered by the list but absent from the chosen season leaves no row, and the slider fails |
| `CraqueEng.StatisticsTableRows` | CRAQUE-ENG.py:115-139 | the table holds exactly the rows passing league, season, team, player and age, each as often as it occurs, in order; a chosen player leaves only that player's rows |
| `CraqueEng.StatisticsTableMenus` | CRAQUE-ENG.py:115-133 | leagues come from all rows; seasons and teams from the league-filtered rows (teams before the season filter); players from the rows surviving league, season and team; each list is 'All' then distinct values ascending |
| `CraqueEng.ComparedRowsSpec` | CRAQUE-ENG.py:156-172 | league, season and `isin([player1, player2])` keep exactly the rows passing all three, each as often as it occurs, in table order |
| `CraqueEng.PlayerComparisonRows` | CRAQUE-ENG.py:155-185 | the page compares exactly the league- and season-filtered rows whose Player is player1 or player2, each as often as it occurs, in table order, and builds its table from them |
| `CraqueEng.PlayerComparisonChoices` | CRAQUE-ENG.py:155-169 | leagues come from all rows and seasons from the league-filtered rows, each 'All' then distinct values ascending; the player dropdowns offer each player of the league-filtered rows once, ascending, with no 'All' and no season filter |
| `CraqueEng.ComparisonTableSpec` | CRAQUE-ENG.py:185 | the columns are Player, Team, Season, then the chosen metrics in chosen order, one line per compared row; it fails naming the absent columns exactly when some are absent |
| `CraqueEng.MetricCells` | CRAQUE-ENG.py:175-181 | an offered metric's cell is the row's value for it, blank when missing |
| `Craque.LeagueOptionsSpec` | craque.py:12 | 'Todos' then each campeonato once, in order of first appearance |
| `Craque.ClubOptionsSpec` | craque.py:12-16 | 'Todos' then each club of the chosen campeonato's rows (of all rows under 'Todos') once, in order of first appearance |
| `Craque.PlayerOptionsSpec` | craque.py:19-23 | 'Todos' then each player of the chosen club's rows (of all rows under 'Todos') once, in order of first appearance; the campeonato choice does not narrow them |
| `Craque.FocusPriority` | craque.py:33-44 | a set player overrides club and campeonato, a set club overrides campeonato; there is no focus exactly when all three are 'Todos' |
| `Craque.HighlightLabels` | craque.py:33-43 | one label per row in row order: 'Selecionado' iff the row matches the highest-priority choice, else 'Outros'; all 'Outros' when nothing is chosen |
| `Craque.ColourMap` | craque.py:35-44 | no colour map without a focus; otherwise 'Outros' is light gray and 'Selecionado' another colour |
| `Craque.SelectionColours` | craque.py:35-41 | the selection is red for a player, blue for a club, green for a campeonato |
| `Craque.PlotFrame.MarkMatches` | craque.py:34 | the applied lambda yields one label per row, 'Selecionado' exactly where the column equals the chosen value |
| `Craque.PlotFrame.Highlight` | craque.py:33-44 | assigns the 'Cor' column of the unchanged rows to the labels of the chosen focus and returns that focus's colour map |
| `Craque.DetailTableSpec` | craque.py:83-94 | nothing is shown without a focus; otherwise the rows of the whole table, not only the age range, that the highlight labels 'Selecionado', each as often as it occurs, in order |
| `Craque.SelectedPlotIsDetailInAgeRange` | craque.py:29-30 | the plotted 'Selecionado' rows are the detail table's rows within the age range, in order |
| `Craque.Run` | craque.py:12-44 | fails only on an empty table; otherwise shows the three lists, the slider over the whole table, the age-filtered rows whatever the dropdowns, their labels, colour map and detail table |
| `CraqueV2.LoadData` | craquev2.py:11-19 | a failed request gives a table with no columns and no rows |
| `CraqueV2.Run` | craquev2.py:21-110 | stops exactly on an empty table (always after a failed request); otherwise renders what `Craque.Run` shows, never failing at the slider, and draws the chart exactly when both rating columns exist |

## Left out

- Widgets, the navigation radio, the About page, titles and explanatory
  text: the selectbox, slider and multiselect values are parameters. Their
  membership in the offered lists and the slider's clamping to its range
  are not assumed, so the model also covers values outside them. One
  exception: a metric label outside the offered list that names a text
  column other than Player, Team, Season and League (for example a
  nationality column) is read from the metric map, not from that column.
- Plotly figures and the reference lines: rendering from float minima and
  maxima of the rating columns.
- Reading the CSV from a path or a URL, the HTTP request, its caching and
  the parse of the response: a download is a parameter (`CraqueV2.Download`).
- The column-rename mapping of `CRAQUE-ENG.py`: the model works on the
  renamed table.
- Metric columns are carried as an opaque map to `real`, with no arithmetic
  on them.
- The identity columns (Player, Team/Squad, League/Campeonato, Season/Ano,
  Age/Idade) are assumed present in every non-empty table. A table lacking
  one makes pandas raise KeyError, which is not modelled. The comparison
  table's KeyError for absent columns is modelled.
- Missing (NaN) Age/Idade values: `age` is an integer in every row.
  In pandas such a row is skipped by the slider's min and max, and the age
  mask never keeps it, because a comparison with NaN is False. So it never
  reaches a plot or the Table page, even with the slider at its default.
  `Rows.DefaultSliderKeepsAll` and `Craque.Run` ("the age-filtered rows
  whatever the dropdowns") hold only for tables whose every age is present.
- `sorted()` over mixed-type seasons, and NaN values in text columns: seasons
  and names are strings, ordered as Python orders strings.
- pandas SettingWithCopy behaviour when 'Cor' is assigned to a slice: the
  assignment is modelled as updating `data_filtered` only.
- `craquev2.py` lines 46, 49 and 52 read `se` where `if` is meant, which is a
  syntax error. The model uses the intended conditional, the same as
  `craque.py`.
- A selectbox with no options returns None. The comparison page's player
  choices are modelled as plain strings.
- `CraqueV2.Run`: the chart check is made on the table's columns plus
  'Cor'; the 'Cor' column never supplies a rating column, so the ensures
  speaks of the table's own columns.
