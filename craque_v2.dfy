/** The Portuguese dashboard's second version: the table is downloaded, the
    script stops on an empty table, and the scatter plot is drawn only when
    both rating columns exist. After the empty-table stop it runs the first
    version's dropdowns, age filter, highlight and detail table; the chart
    guard decides only whether the scatter is drawn. */
module CraqueV2 {
  import opened Rows
  import Craque

  /** What the request yields: the parsed table, or a request error. */
  datatype Download = Fetched(frame: Frame) | RequestFailed

  /** `load_data()`: the parsed table, or an empty one (no columns, no
      rows) when the request fails. */
  function LoadData(download: Download): (data: Frame)
    ensures download.RequestFailed? ==> data.columns == {} && data.rows == []
  {
    match download
    case Fetched(frame) => frame
    case RequestFailed => Frame({}, [])
  }

  /** pandas `DataFrame.empty`: no rows or no columns. */
  predicate IsEmpty(data: Frame) {
    |data.rows| == 0 || |data.columns| == 0
  }

  const RaptorOff := "RAPTOR_final_Off"
  const RaptorDef := "RAPTOR_final_Def"

  /** The columns of `data_filtered`: the table's, plus 'Cor'. */
  function PlotColumns(data: Frame): set<string> {
    data.columns + {"Cor"}
  }

  /** The scatter plot, or the error message about the missing rating
      columns. */
  datatype ChartStatus = Scatter | MissingRatingColumns

  datatype Outcome = Stopped | Rendered(view: Craque.View, chart: ChartStatus)

  /** One run of the script. It stops before any dropdown when the table is
      empty (a failed request always gives an empty table); otherwise the
      slider has rows to span, so the page always renders, and the chart
      appears exactly when the table has both rating columns. */
  method Run(download: Download, campeonato: string, squad: string, player: string, idadeMin: int, idadeMax: int)
    returns (outcome: Outcome)
    ensures outcome.Stopped? <==> IsEmpty(LoadData(download))
    ensures download.RequestFailed? ==> outcome.Stopped?
    ensures outcome.Rendered? ==>
              Craque.Shows(outcome.view, LoadData(download).rows, campeonato, squad, player, idadeMin, idadeMax)
    ensures outcome.Rendered? ==>
              (outcome.chart.Scatter? <==> RaptorOff in LoadData(download).columns && RaptorDef in LoadData(download).columns)
  {
    var data := LoadData(download);
    if IsEmpty(data) {
      return Stopped;
    }
    var view := Craque.Run(data.rows, campeonato, squad, player, idadeMin, idadeMax);
    var columns := PlotColumns(data);
    var chart := if RaptorOff in columns && RaptorDef in columns then Scatter else MissingRatingColumns;
    outcome := Rendered(view.value, chart);
  }
}
