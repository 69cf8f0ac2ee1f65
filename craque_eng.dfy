/** The English dashboard's three data pages: "General Analysis", "Table"
    and "Player Comparison". Each page re-binds `data` to a filtered copy
    after each dropdown, so a page is a composition of selections; the
    widgets' current values are the parameters. */
module CraqueEng {
  import opened Sequences
  import opened Rows

  /** The "no constraint" entry at the head of every dropdown. */
  const All := "All"

  /** Does a row pass the league, season and team dropdowns? */
  predicate PassesDropdowns(x: Row, league: string, season: string, team: string) {
    Picks(league, All, x.league) && Picks(season, All, x.season) && Picks(team, All, x.team)
  }

  /** The league, season and team dropdowns applied in the pages' order. */
  function Cascade(data: seq<Row>, league: string, season: string, team: string): seq<Row> {
    Choose(Choose(Choose(data, League, league, All), Season, season, All), Team, team, All)
  }

  /** The cascade keeps exactly the rows passing all three dropdowns, each
      as often as it occurs, in their original order, unaltered. */
  lemma CascadeSpec(data: seq<Row>, league: string, season: string, team: string)
    ensures forall x :: x in Cascade(data, league, season, team) <==> x in data && PassesDropdowns(x, league, season, team)
    ensures forall x :: multiset(Cascade(data, league, season, team))[x] ==
                       if PassesDropdowns(x, league, season, team) then multiset(data)[x] else 0
    ensures IsSubsequence(Cascade(data, league, season, team), data)
  {
    var byLeague := Choose(data, League, league, All);
    var bySeason := Choose(byLeague, Season, season, All);
    ChooseSpec(data, League, league, All);
    ChooseSpec(byLeague, Season, season, All);
    ChooseSpec(bySeason, Team, team, All);
    ChooseCounts(data, League, league, All);
    ChooseCounts(byLeague, Season, season, All);
    ChooseCounts(bySeason, Team, team, All);
    SubsequenceTransitive(bySeason, byLeague, data);
    SubsequenceTransitive(Cascade(data, league, season, team), bySeason, data);
  }

  /** The teams, seasons or players of the rows in the chosen league. */
  function InLeague(data: seq<Row>, league: string, f: Field): set<string> {
    ValuesWhere(data, League, league, All, f)
  }

  // ---------------------------------------------------------------------
  // General Analysis

  datatype AnalysisPage = AnalysisPage(
    leagues: seq<string>,
    seasons: seq<string>,
    teams: seq<string>,
    plot: Result<AgeSlice>)

  /** The league dropdown, then the season dropdown over the league's rows,
      then the team dropdown, whose list was taken from the league's rows
      before the season filter ran, then the age slider over what is left. */
  function GeneralAnalysis(data: seq<Row>, league: string, season: string, team: string, ageMin: int, ageMax: int): AnalysisPage {
    var leagues := Menu(All, data, League);
    var byLeague := Choose(data, League, league, All);
    var teams := Menu(All, byLeague, Team);
    var seasons := Menu(All, byLeague, Season);
    var bySeason := Choose(byLeague, Season, season, All);
    var byTeam := Choose(bySeason, Team, team, All);
    AnalysisPage(leagues, seasons, teams, AgeStep(byTeam, ageMin, ageMax))
  }

  /** The plotted rows are exactly those passing the three dropdowns and the
      inclusive age range, each as often as it occurs, in their original
      order; the page fails only when the dropdowns leave no row for the
      slider. */
  lemma GeneralAnalysisRows(data: seq<Row>, league: string, season: string, team: string, ageMin: int, ageMax: int)
    ensures GeneralAnalysis(data, league, season, team, ageMin, ageMax).plot.Err? <==>
              forall x :: x in data ==> !PassesDropdowns(x, league, season, team)
    ensures GeneralAnalysis(data, league, season, team, ageMin, ageMax).plot.Ok? ==>
              var plotted := GeneralAnalysis(data, league, season, team, ageMin, ageMax).plot.value.rows;
              && (forall x :: x in plotted <==> x in data && PassesDropdowns(x, league, season, team) && ageMin <= x.age <= ageMax)
              && (forall x :: multiset(plotted)[x] ==
                    if PassesDropdowns(x, league, season, team) && ageMin <= x.age <= ageMax then multiset(data)[x] else 0)
              && IsSubsequence(plotted, data)
  {
    var rows := Cascade(data, league, season, team);
    CascadeSpec(data, league, season, team);
    EmptyIffNoMember(rows);
    AgeStepSpec(rows, ageMin, ageMax);
    if |rows| > 0 {
      SubsequenceTransitive(AgeStep(rows, ageMin, ageMax).value.rows, rows, data);
    }
  }

  /** Leagues come from all rows; seasons and teams from the rows of the
      chosen league, whatever season is chosen; each list is "All" followed
      by distinct values in ascending order. */
  lemma GeneralAnalysisMenus(data: seq<Row>, league: string, season: string, team: string, ageMin: int, ageMax: int)
    ensures IsSortedMenu(GeneralAnalysis(data, league, season, team, ageMin, ageMax).leagues, All, Values(data, League))
    ensures IsSortedMenu(GeneralAnalysis(data, league, season, team, ageMin, ageMax).seasons, All, InLeague(data, league, Season))
    ensures IsSortedMenu(GeneralAnalysis(data, league, season, team, ageMin, ageMax).teams, All, InLeague(data, league, Team))
  {
    var byLeague := Choose(data, League, league, All);
    MenuSpec(All, data, League);
    MenuSpec(All, byLeague, Season);
    MenuSpec(All, byLeague, Team);
    ChooseValues(data, League, league, All, Season);
    ChooseValues(data, League, league, All, Team);
  }

  /** Because the team list ignores the season, a team it offers can have
      no row in the chosen season; choosing it leaves the slider with no
      rows and the page fails. */
  lemma OfferedTeamCanEmptyTheSlider(data: seq<Row>, league: string, season: string, team: string,
                                     ageMin: int, ageMax: int)
    requires season != All && team != All && team in InLeague(data, league, Team)
    requires forall x :: x in data && Picks(league, All, x.league) && x.team == team ==> x.season != season
    ensures team in GeneralAnalysis(data, league, season, team, ageMin, ageMax).teams
    ensures GeneralAnalysis(data, league, season, team, ageMin, ageMax).plot == Err(NoRowsForAgeSlider)
  {
    GeneralAnalysisMenus(data, league, season, team, ageMin, ageMax);
    var teams := GeneralAnalysis(data, league, season, team, ageMin, ageMax).teams;
    assert team in teams[1..];
    GeneralAnalysisRows(data, league, season, team, ageMin, ageMax);
    assert forall x :: x in data ==> !PassesDropdowns(x, league, season, team);
  }

  // ---------------------------------------------------------------------
  // Table

  datatype TablePage = TablePage(
    leagues: seq<string>,
    seasons: seq<string>,
    teams: seq<string>,
    players: seq<string>,
    table: Result<AgeSlice>)

  /** The General Analysis cascade with a player dropdown after the team
      dropdown; its list is taken from the rows the league, season and team
      dropdowns left. */
  function StatisticsTable(data: seq<Row>, league: string, season: string, team: string, player: string,
                           ageMin: int, ageMax: int): TablePage {
    var leagues := Menu(All, data, League);
    var byLeague := Choose(data, League, league, All);
    var teams := Menu(All, byLeague, Team);
    var seasons := Menu(All, byLeague, Season);
    var bySeason := Choose(byLeague, Season, season, All);
    var byTeam := Choose(bySeason, Team, team, All);
    var players := Menu(All, byTeam, Player);
    var byPlayer := Choose(byTeam, Player, player, All);
    TablePage(leagues, seasons, teams, players, AgeStep(byPlayer, ageMin, ageMax))
  }

  /** The table holds exactly the rows passing the four dropdowns and the
      age range, each as often as it occurs, in their original order, so a
      chosen player's rows only. */
  lemma StatisticsTableRows(data: seq<Row>, league: string, season: string, team: string, player: string,
                            ageMin: int, ageMax: int)
    ensures StatisticsTable(data, league, season, team, player, ageMin, ageMax).table.Err? <==>
              forall x :: x in data ==> !(PassesDropdowns(x, league, season, team) && Picks(player, All, x.player))
    ensures StatisticsTable(data, league, season, team, player, ageMin, ageMax).table.Ok? ==>
              var shown := StatisticsTable(data, league, season, team, player, ageMin, ageMax).table.value.rows;
              && (forall x :: x in shown <==>
                    x in data && PassesDropdowns(x, league, season, team) && Picks(player, All, x.player)
                    && ageMin <= x.age <= ageMax)
              && (forall x :: multiset(shown)[x] ==
                    if PassesDropdowns(x, league, season, team) && Picks(player, All, x.player) && ageMin <= x.age <= ageMax
                    then multiset(data)[x] else 0)
              && IsSubsequence(shown, data)
              && (player != All ==> forall x :: x in shown ==> x.player == player)
  {
    var byTeam := Cascade(data, league, season, team);
    var byPlayer := Choose(byTeam, Player, player, All);
    CascadeSpec(data, league, season, team);
    ChooseSpec(byTeam, Player, player, All);
    ChooseCounts(byTeam, Player, player, All);
    SubsequenceTransitive(byPlayer, byTeam, data);
    EmptyIffNoMember(byPlayer);
    AgeStepSpec(byPlayer, ageMin, ageMax);
    if |byPlayer| > 0 {
      SubsequenceTransitive(AgeStep(byPlayer, ageMin, ageMax).value.rows, byPlayer, data);
    }
  }

  /** As on General Analysis, leagues come from all rows and seasons and
      teams from the chosen league's rows, whatever season is chosen; the
      player list comes from the rows passing the league, season and team
      dropdowns. Each list is "All" followed by distinct values in
      ascending order. */
  lemma StatisticsTableMenus(data: seq<Row>, league: string, season: string, team: string, player: string,
                             ageMin: int, ageMax: int)
    ensures IsSortedMenu(StatisticsTable(data, league, season, team, player, ageMin, ageMax).leagues, All, Values(data, League))
    ensures IsSortedMenu(StatisticsTable(data, league, season, team, player, ageMin, ageMax).seasons, All, InLeague(data, league, Season))
    ensures IsSortedMenu(StatisticsTable(data, league, season, team, player, ageMin, ageMax).teams, All, InLeague(data, league, Team))
    ensures IsSortedMenu(StatisticsTable(data, league, season, team, player, ageMin, ageMax).players, All,
                         set x | x in data && PassesDropdowns(x, league, season, team) :: x.player)
  {
    var byLeague := Choose(data, League, league, All);
    MenuSpec(All, data, League);
    MenuSpec(All, byLeague, Season);
    MenuSpec(All, byLeague, Team);
    ChooseValues(data, League, league, All, Season);
    ChooseValues(data, League, league, All, Team);
    var byTeam := Cascade(data, league, season, team);
    CascadeSpec(data, league, season, team);
    MenuSpec(All, byTeam, Player);
  }

  // ---------------------------------------------------------------------
  // Player Comparison

  /** The metrics the multiselect offers. */
  const MetricOptions: seq<string> := [
    "Matches Played", "Minutes Played", "Goals", "Assists", "Goal-Creating Actions",
    "Pass Completion %", "Tackles Won", "Interceptions", "Yellow Cards",
    "Aerial Duels Won %", "CRAQUE Offensive", "CRAQUE Defensive", "CRAQUE Total", "WAR"]

  /** The identity columns every comparison row starts with. */
  const IdentityColumns: seq<string> := ["Player", "Team", "Season"]

  /** A table cell; `Blank` is a missing (NaN) metric value. */
  datatype Cell = Text(text: string) | Number(number: real) | Blank

  datatype Grid = Grid(header: seq<string>, body: seq<seq<Cell>>)

  /** The cell of column `column` in row `r`: the identity columns from
      the row's own fields, any other label from its metric values. */
  function CellOf(r: Row, column: string): Cell {
    if column == "Player" then Text(r.player)
    else if column == "Team" then Text(r.team)
    else if column == "Season" then Text(r.season)
    else if column == "League" then Text(r.league)
    else if column == "Age" then Number(r.age as real)
    else if column in r.stats then Number(r.stats[column])
    else Blank
  }

  /** `rows[['Player', 'Team', 'Season'] + metrics]`: pandas refuses labels
      the frame does not have. */
  function ComparisonTable(columns: set<string>, rows: seq<Row>, metrics: seq<string>): Result<Grid> {
    var header := IdentityColumns + metrics;
    var missing := set c | c in header && c !in columns;
    if missing != {} then Err(MissingColumns(missing))
    else Ok(Grid(header, seq(|rows|, i requires 0 <= i < |rows| =>
                               seq(|header|, k requires 0 <= k < |header| => CellOf(rows[i], header[k])))))
  }

  /** The table has the columns Player, Team, Season and then the chosen
      metrics in the chosen order, one line per row in the rows' order; it
      fails, naming them, exactly when some of those columns are absent. */
  lemma ComparisonTableSpec(columns: set<string>, rows: seq<Row>, metrics: seq<string>)
    ensures ComparisonTable(columns, rows, metrics).Err? <==>
              exists c :: c in IdentityColumns + metrics && c !in columns
    ensures ComparisonTable(columns, rows, metrics).Err? ==>
              ComparisonTable(columns, rows, metrics).error.MissingColumns? &&
              forall c :: c in ComparisonTable(columns, rows, metrics).error.labels <==>
                            c in IdentityColumns + metrics && c !in columns
    ensures ComparisonTable(columns, rows, metrics).Ok? ==>
              var t := ComparisonTable(columns, rows, metrics).value;
              && t.header == ["Player", "Team", "Season"] + metrics
              && |t.body| == |rows|
              && forall i :: 0 <= i < |rows| ==>
                   && |t.body[i]| == 3 + |metrics|
                   && t.body[i][..3] == [Text(rows[i].player), Text(rows[i].team), Text(rows[i].season)]
                   && forall k :: 0 <= k < |metrics| ==> t.body[i][3 + k] == CellOf(rows[i], metrics[k])
  {
    var header := IdentityColumns + metrics;
    var missing := set c | c in header && c !in columns;
    if exists c :: c in header && c !in columns {
      var c :| c in header && c !in columns;
      assert c in missing;
    }
  }

  /** A metric the multiselect offers is read from the row's metric values,
      blank when the row has none. */
  lemma MetricCells(r: Row, column: string)
    requires column in MetricOptions
    ensures CellOf(r, column) == if column in r.stats then Number(r.stats[column]) else Blank
  {
  }

  datatype ComparisonPage = ComparisonPage(
    leagues: seq<string>,
    seasons: seq<string>,
    players: seq<string>,
    compared: seq<Row>,
    table: Result<Grid>)

  /** Does a row pass the league and season dropdowns and belong to one of
      the two chosen players? */
  predicate Compares(x: Row, league: string, season: string, player1: string, player2: string) {
    Picks(league, All, x.league) && Picks(season, All, x.season) && (x.player == player1 || x.player == player2)
  }

  /** The league and season dropdowns, then `Player.isin([player1, player2])`. */
  function ComparedRows(rows: seq<Row>, league: string, season: string, player1: string, player2: string): seq<Row> {
    Keep(Choose(Choose(rows, League, league, All), Season, season, All), PlayerIn(player1, player2))
  }

  lemma ComparedRowsSpec(rows: seq<Row>, league: string, season: string, player1: string, player2: string)
    ensures forall x :: x in ComparedRows(rows, league, season, player1, player2) <==>
                        x in rows && Compares(x, league, season, player1, player2)
    ensures forall x :: multiset(ComparedRows(rows, league, season, player1, player2))[x] ==
                        if Compares(x, league, season, player1, player2) then multiset(rows)[x] else 0
    ensures IsSubsequence(ComparedRows(rows, league, season, player1, player2), rows)
  {
    var byLeague := Choose(rows, League, league, All);
    var bySeason := Choose(byLeague, Season, season, All);
    var compared := Keep(bySeason, PlayerIn(player1, player2));
    ChooseSpec(rows, League, league, All);
    ChooseSpec(byLeague, Season, season, All);
    ChooseCounts(rows, League, league, All);
    ChooseCounts(byLeague, Season, season, All);
    KeepCounts(bySeason, PlayerIn(player1, player2));
    KeepInOrder(bySeason, PlayerIn(player1, player2));
    SubsequenceTransitive(bySeason, byLeague, rows);
    SubsequenceTransitive(compared, bySeason, rows);
  }

  /** League and season dropdowns, two player dropdowns whose list was taken
      from the league's rows before the season filter, and the table of the
      rows of either chosen player. */
  function PlayerComparison(data: Frame, league: string, season: string, player1: string, player2: string,
                            metrics: seq<string>): ComparisonPage {
    var leagues := Menu(All, data.rows, League);
    var byLeague := Choose(data.rows, League, league, All);
    var playersAvailable := Unique(Column(byLeague, Player));
    var seasons := Menu(All, byLeague, Season);
    var players := SortStrings(playersAvailable);
    var compared := ComparedRows(data.rows, league, season, player1, player2);
    ComparisonPage(leagues, seasons, players, compared, ComparisonTable(data.columns, compared, metrics))
  }

  /** The compared rows are exactly the league- and season-filtered rows of
      player1 or player2, each as often as it occurs, in their original
      order, and the table is built from them. */
  lemma PlayerComparisonRows(data: Frame, league: string, season: string, player1: string, player2: string,
                             metrics: seq<string>)
    ensures var page := PlayerComparison(data, league, season, player1, player2, metrics);
            && (forall x :: x in page.compared <==> x in data.rows && Compares(x, league, season, player1, player2))
            && (forall x :: multiset(page.compared)[x] ==
                  if Compares(x, league, season, player1, player2) then multiset(data.rows)[x] else 0)
            && IsSubsequence(page.compared, data.rows)
            && page.table == ComparisonTable(data.columns, page.compared, metrics)
  {
    ComparedRowsSpec(data.rows, league, season, player1, player2);
  }

  /** The league list comes from all rows and the season list from the
      chosen league's rows, each "All" followed by distinct values in
      ascending order; the two player dropdowns offer each player of the
      chosen league once, in ascending order, with no "All", whatever season
      is chosen. */
  lemma PlayerComparisonChoices(data: Frame, league: string, season: string, player1: string, player2: string,
                                metrics: seq<string>)
    ensures var players := PlayerComparison(data, league, season, player1, player2, metrics).players;
            && Sorted(players) && NoDuplicates(players)
            && (forall p :: p in players <==> p in InLeague(data.rows, league, Player))
    ensures IsSortedMenu(PlayerComparison(data, league, season, player1, player2, metrics).leagues, All,
                         Values(data.rows, League))
    ensures IsSortedMenu(PlayerComparison(data, league, season, player1, player2, metrics).seasons, All,
                         InLeague(data.rows, league, Season))
  {
    MenuSpec(All, data.rows, League);
    MenuSpec(All, Choose(data.rows, League, league, All), Season);
    ChooseValues(data.rows, League, league, All, Season);
    var byLeague := Choose(data.rows, League, league, All);
    var u := Unique(Column(byLeague, Player));
    SortDistinct(u);
    ColumnValues(byLeague, Player);
    ChooseValues(data.rows, League, league, All, Player);
  }
}
