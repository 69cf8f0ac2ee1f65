/** The Portuguese dashboard: campeonato, club and player dropdowns whose
    lists cascade, an age slider over the whole table, a scatter plot of
    the age-filtered rows coloured by a highlight column 'Cor', and a
    detail table of the highest-priority selection. */
module Craque {
  import opened Sequences
  import opened Rows

  /** The "no constraint" entry at the head of every dropdown. */
  const Todos := "Todos"

  // ---------------------------------------------------------------------
  // Dropdown lists (distinct values in order of first appearance)

  /** `['Todos'] + list(data['Campeonato'].unique())`. */
  function LeagueOptions(data: seq<Row>): seq<string> {
    [Todos] + Unique(Column(data, League))
  }

  /** The clubs of the chosen campeonato, or of every row under 'Todos'. */
  function ClubOptions(data: seq<Row>, campeonato: string): seq<string> {
    [Todos] + Unique(Column(Choose(data, League, campeonato, Todos), Team))
  }

  /** The players of the chosen club, or of every row under 'Todos'. The
      campeonato choice is not consulted. */
  function PlayerOptions(data: seq<Row>, squad: string): seq<string> {
    [Todos] + Unique(Column(Choose(data, Team, squad, Todos), Player))
  }

  /** A dropdown list: the sentinel, then each value of `vals` once, in the
      order the values first appear in `source`. */
  ghost predicate IsListedMenu(menu: seq<string>, sentinel: string, vals: set<string>, source: seq<string>) {
    && |menu| > 0
    && menu[0] == sentinel
    && NoDuplicates(menu[1..])
    && IsSubsequence(menu[1..], source)
    && FirstAppearanceOrder(menu[1..], source)
    && forall v :: v in menu[1..] <==> v in vals
  }

  lemma UniqueMenu(rows: seq<Row>, f: Field)
    ensures IsListedMenu([Todos] + Unique(Column(rows, f)), Todos, Values(rows, f), Column(rows, f))
  {
    ColumnValues(rows, f);
    UniqueOrder(Column(rows, f));
    assert ([Todos] + Unique(Column(rows, f)))[1..] == Unique(Column(rows, f));
  }

  /** Every campeonato once, in order of first appearance. */
  lemma LeagueOptionsSpec(data: seq<Row>)
    ensures IsListedMenu(LeagueOptions(data), Todos, Values(data, League), Column(data, League))
  {
    UniqueMenu(data, League);
  }

  /** The clubs of the rows of the chosen campeonato (of every row under
      'Todos'), each once, in order of first appearance. */
  lemma ClubOptionsSpec(data: seq<Row>, campeonato: string)
    ensures IsListedMenu(ClubOptions(data, campeonato), Todos,
                         ValuesWhere(data, League, campeonato, Todos, Team),
                         Column(Choose(data, League, campeonato, Todos), Team))
  {
    UniqueMenu(Choose(data, League, campeonato, Todos), Team);
    ChooseValues(data, League, campeonato, Todos, Team);
  }

  /** The players of the rows of the chosen club (of every row under
      'Todos'), each once, in order of first appearance; the campeonato
      choice does not narrow them. */
  lemma PlayerOptionsSpec(data: seq<Row>, squad: string)
    ensures IsListedMenu(PlayerOptions(data, squad), Todos,
                         ValuesWhere(data, Team, squad, Todos, Player),
                         Column(Choose(data, Team, squad, Todos), Player))
  {
    UniqueMenu(Choose(data, Team, squad, Todos), Player);
    ChooseValues(data, Team, squad, Todos, Player);
  }

  // ---------------------------------------------------------------------
  // Highlight

  /** The one selection the highlight and the detail table follow. */
  datatype Focus = NoFocus | OnPlayer(name: string) | OnSquad(name: string) | OnLeague(name: string)
  {
    /** The mask of the rows this focus selects. */
    function Selects(): Mask
      requires !NoFocus?
    {
      match this
      case OnPlayer(p) => FieldIs(Player, p)
      case OnSquad(s) => FieldIs(Team, s)
      case OnLeague(c) => FieldIs(League, c)
    }
  }

  /** The if/elif chain: player before squad before campeonato. */
  function FocusOf(player: string, squad: string, campeonato: string): Focus {
    if player != Todos then OnPlayer(player)
    else if squad != Todos then OnSquad(squad)
    else if campeonato != Todos then OnLeague(campeonato)
    else NoFocus
  }

  /** A set choice overrides every lower-priority one, and there is no
      focus exactly when all three dropdowns are at 'Todos'. */
  lemma FocusPriority(player: string, squad: string, campeonato: string, squad': string, campeonato': string)
    ensures FocusOf(player, squad, campeonato).NoFocus? <==> player == Todos && squad == Todos && campeonato == Todos
    ensures player != Todos ==> FocusOf(player, squad, campeonato) == FocusOf(player, squad', campeonato')
    ensures player == Todos && squad != Todos ==> FocusOf(player, squad, campeonato) == FocusOf(player, squad, campeonato')
  {
  }

  datatype Label = Selecionado | Outros

  /** The value the per-row lambda writes into 'Cor'. */
  function LabelOf(focus: Focus, r: Row): Label {
    match focus
    case NoFocus => Outros
    case OnPlayer(p) => if r.player == p then Selecionado else Outros
    case OnSquad(s) => if r.team == s then Selecionado else Outros
    case OnLeague(c) => if r.league == c then Selecionado else Outros
  }

  /** The 'Cor' column of `rows`. */
  function Labels(rows: seq<Row>, focus: Focus): seq<Label> {
    seq(|rows|, i requires 0 <= i < |rows| => LabelOf(focus, rows[i]))
  }

  /** One label per row, in the rows' order: 'Selecionado' exactly for the
      rows matching the highest-priority choice, 'Outros' for all others,
      and for every row when no choice is made. */
  lemma HighlightLabels(rows: seq<Row>, player: string, squad: string, campeonato: string)
    ensures |Labels(rows, FocusOf(player, squad, campeonato))| == |rows|
    ensures forall i :: 0 <= i < |rows| ==>
              (Labels(rows, FocusOf(player, squad, campeonato))[i] == Selecionado <==>
                 || (player != Todos && rows[i].player == player)
                 || (player == Todos && squad != Todos && rows[i].team == squad)
                 || (player == Todos && squad == Todos && campeonato != Todos && rows[i].league == campeonato))
    ensures player == Todos && squad == Todos && campeonato == Todos ==>
              forall i :: 0 <= i < |rows| ==> Labels(rows, FocusOf(player, squad, campeonato))[i] == Outros
  {
  }

  datatype Colour = Red | Blue | Green | LightGray

  /** `color_discrete_map`: red, blue or green for the selection of a
      player, club or campeonato, light gray for the others; none without a
      focus. */
  function ColourMap(focus: Focus): (m: Option<map<Label, Colour>>)
    ensures m.None? <==> focus.NoFocus?
    ensures m.Some? ==> m.value.Keys == {Selecionado, Outros}
    ensures m.Some? ==> m.value[Outros] == LightGray && m.value[Selecionado] != LightGray
  {
    match focus
    case NoFocus => None
    case OnPlayer(_) => Some(map[Selecionado := Red, Outros := LightGray])
    case OnSquad(_) => Some(map[Selecionado := Blue, Outros := LightGray])
    case OnLeague(_) => Some(map[Selecionado := Green, Outros := LightGray])
  }

  /** The selection is red for a player, blue for a club and green for a
      campeonato. */
  lemma SelectionColours(focus: Focus)
    ensures focus.OnPlayer? ==> ColourMap(focus).value[Selecionado] == Red
    ensures focus.OnSquad? ==> ColourMap(focus).value[Selecionado] == Blue
    ensures focus.OnLeague? ==> ColourMap(focus).value[Selecionado] == Green
  {
  }

  /** `data_filtered`, the rows of the scatter plot, with the 'Cor' column
      the highlight step assigns in place. */
  class PlotFrame {
    var rows: seq<Row>
    /** The 'Cor' column; absent until `Highlight` assigns it. */
    var cor: Option<seq<Label>>

    constructor (rows: seq<Row>)
      ensures this.rows == rows && cor == None
    {
      this.rows := rows;
      cor := None;
    }

    /** `rows[f].apply(lambda x: 'Selecionado' if x == v else 'Outros')`. */
    method MarkMatches(f: Field, v: string) returns (column: seq<Label>)
      ensures |column| == |rows|
      ensures forall i :: 0 <= i < |rows| ==> (column[i] == Selecionado <==> Get(rows[i], f) == v)
    {
      column := [];
      var i := 0;
      while i < |rows|
        invariant 0 <= i <= |rows|
        invariant |column| == i
        invariant forall k :: 0 <= k < i ==> (column[k] == Selecionado <==> Get(rows[k], f) == v)
      {
        column := column + [if Get(rows[i], f) == v then Selecionado else Outros];
        i := i + 1;
      }
    }

    /** Assigns 'Cor' by the if/elif chain and returns the colour map. */
    method Highlight(player: string, squad: string, campeonato: string) returns (colourMap: Option<map<Label, Colour>>)
      modifies this
      ensures rows == old(rows)
      ensures cor == Some(Labels(rows, FocusOf(player, squad, campeonato)))
      ensures colourMap == ColourMap(FocusOf(player, squad, campeonato))
    {
      var column: seq<Label>;
      if player != Todos {
        column := MarkMatches(Player, player);
        colourMap := Some(map[Selecionado := Red, Outros := LightGray]);
      } else if squad != Todos {
        column := MarkMatches(Team, squad);
        colourMap := Some(map[Selecionado := Blue, Outros := LightGray]);
      } else if campeonato != Todos {
        column := MarkMatches(League, campeonato);
        colourMap := Some(map[Selecionado := Green, Outros := LightGray]);
      } else {
        column := seq(|rows|, _ => Outros);
        colourMap := None;
      }
      assert column == Labels(rows, FocusOf(player, squad, campeonato));
      cor := Some(column);
    }
  }

  // ---------------------------------------------------------------------
  // Detail table

  /** The full table's rows of the highest-priority selection; nothing is
      shown without one. */
  function DetailTable(data: seq<Row>, focus: Focus): Option<seq<Row>> {
    match focus
    case NoFocus => None
    case OnPlayer(p) => Some(Keep(data, FieldIs(Player, p)))
    case OnSquad(s) => Some(Keep(data, FieldIs(Team, s)))
    case OnLeague(c) => Some(Keep(data, FieldIs(League, c)))
  }

  /** The detail table holds, in order and each as often as it occurs,
      exactly the rows of the whole table (not only the age range) that the
      highlight labels 'Selecionado'. */
  lemma DetailTableSpec(data: seq<Row>, focus: Focus)
    ensures DetailTable(data, focus).None? <==> focus.NoFocus?
    ensures DetailTable(data, focus).Some? ==>
              && (forall x :: x in DetailTable(data, focus).value <==> x in data && LabelOf(focus, x) == Selecionado)
              && (forall x :: multiset(DetailTable(data, focus).value)[x] ==
                    if LabelOf(focus, x) == Selecionado then multiset(data)[x] else 0)
              && IsSubsequence(DetailTable(data, focus).value, data)
  {
    if !focus.NoFocus? {
      assert DetailTable(data, focus) == Some(Keep(data, focus.Selects()));
      forall x ensures LabelOf(focus, x) == Selecionado <==> Holds(focus.Selects(), x) {
      }
      KeepInOrder(data, focus.Selects());
      KeepCounts(data, focus.Selects());
    }
  }

  /** The plotted rows labelled 'Selecionado' are, in order, the detail
      table's rows within the age range: the plot and the table follow the
      same choice, and only the plot is filtered by age. */
  lemma SelectedPlotIsDetailInAgeRange(data: seq<Row>, focus: Focus, idadeMin: int, idadeMax: int)
    requires !focus.NoFocus?
    ensures Keep(Keep(data, AgeIn(idadeMin, idadeMax)), focus.Selects()) ==
              Keep(DetailTable(data, focus).value, AgeIn(idadeMin, idadeMax))
  {
    assert DetailTable(data, focus).value == Keep(data, focus.Selects());
    KeepCommutes(data, AgeIn(idadeMin, idadeMax), focus.Selects());
  }

  // ---------------------------------------------------------------------
  // The script

  /** What one run of the script shows. */
  datatype View = View(
    leagues: seq<string>,
    clubs: seq<string>,
    players: seq<string>,
    ageBounds: (int, int),
    plotted: seq<Row>,
    cor: seq<Label>,
    colourMap: Option<map<Label, Colour>>,
    detail: Option<seq<Row>>)

  /** `v` is what the script shows for the table `data` and the widget
      values: the three dropdown lists, the slider's range over the whole
      table, the rows of the age range (the dropdowns remove none), their
      'Cor' column and colour map, and the detail table. */
  ghost predicate Shows(v: View, data: seq<Row>, campeonato: string, squad: string, player: string,
                        idadeMin: int, idadeMax: int)
    requires |data| > 0
  {
    var focus := FocusOf(player, squad, campeonato);
    && v.leagues == LeagueOptions(data)
    && v.clubs == ClubOptions(data, campeonato)
    && v.players == PlayerOptions(data, squad)
    && v.ageBounds == (MinAge(data), MaxAge(data))
    && v.plotted == Keep(data, AgeIn(idadeMin, idadeMax))
    && v.cor == Labels(v.plotted, focus)
    && v.colourMap == ColourMap(focus)
    && v.detail == DetailTable(data, focus)
  }

  /** One run of the script for the given widget values. The slider spans
      the whole table's ages, so an empty table fails there. */
  method Run(data: seq<Row>, campeonato: string, squad: string, player: string, idadeMin: int, idadeMax: int)
    returns (view: Result<View>)
    ensures view.Err? <==> |data| == 0
    ensures view.Err? ==> view.error == NoRowsForAgeSlider
    ensures view.Ok? ==> Shows(view.value, data, campeonato, squad, player, idadeMin, idadeMax)
  {
    var leagues := LeagueOptions(data);
    var clubs := ClubOptions(data, campeonato);
    var players := PlayerOptions(data, squad);
    var step := AgeStep(data, idadeMin, idadeMax);
    if step.Err? {
      return Err(step.error);
    }
    var frame := new PlotFrame(step.value.rows);
    var colourMap := frame.Highlight(player, squad, campeonato);
    var detail := DetailTable(data, FocusOf(player, squad, campeonato));
    view := Ok(View(leagues, clubs, players, step.value.bounds, frame.rows, frame.cor.value, colourMap, detail));
  }
}
