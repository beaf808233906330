/** The records the redraw handler decodes, one per update kind, with the
    schema that lists their fields in order. */
module Records {
  import opened Values
  import opened Highlight
  import opened Decode

  /** `option_set`: (name, value). */
  datatype OptionPair = OptionPair(name: string, value: Value)

  /** `default_colors_set`: (fg, bg); further tuple elements are ignored. */
  datatype Colors = Colors(fg: Int32, bg: Int32)

  /** `grid_line`: (grid, row, col_start, cells). */
  datatype LineData = LineData(grid: Int64, row: Int64, colStart: Int64, cells: seq<Cell>)

  /** `grid_scroll`: (grid, top, bot, left, right, rows, cols). */
  datatype ScrollInfo = ScrollInfo(grid: Int64, top: Int64, bottom: Int64, left: Int64, right: Int64, rows: Int64, cols: Int64)

  /** `grid_cursor_goto`: (grid, row, column). */
  datatype CursorInfo = CursorInfo(grid: Int64, row: Int64, column: Int64)

  const OptionSchema := [TString, TAny]
  const ColorsSchema := [TInt32, TInt32]
  const DefineSchema := [TInt, TAttr]
  const LineSchema := [TInt, TInt, TInt, TCells]
  const ScrollSchema := [TInt, TInt, TInt, TInt, TInt, TInt, TInt]
  const CursorSchema := [TInt, TInt, TInt]
  const ModeInfoSchema := [TBool, TModeInfos]
  const ModeChangeSchema := [TString, TInt]

  predicate AllConform(recs: seq<seq<FieldVal>>, schema: seq<FieldType>) {
    forall k | 0 <= k < |recs| :: Conforms(recs[k], schema)
  }

  function OptionPairs(recs: seq<seq<FieldVal>>): seq<OptionPair>
    requires AllConform(recs, OptionSchema)
  {
    seq(|recs|, k requires 0 <= k < |recs| => OptionPair(recs[k][0].str, recs[k][1].any))
  }

  function ColorsList(recs: seq<seq<FieldVal>>): seq<Colors>
    requires AllConform(recs, ColorsSchema)
  {
    seq(|recs|, k requires 0 <= k < |recs| => Colors(recs[k][0].i32, recs[k][1].i32))
  }

  function Defines(recs: seq<seq<FieldVal>>): seq<HighlightDefine>
    requires AllConform(recs, DefineSchema)
  {
    seq(|recs|, k requires 0 <= k < |recs| => HighlightDefine(recs[k][0].i, recs[k][1].attr))
  }

  function Lines(recs: seq<seq<FieldVal>>): seq<LineData>
    requires AllConform(recs, LineSchema)
  {
    seq(|recs|, k requires 0 <= k < |recs| => LineData(recs[k][0].i, recs[k][1].i, recs[k][2].i, recs[k][3].cells))
  }

  function ScrollInfos(recs: seq<seq<FieldVal>>): seq<ScrollInfo>
    requires AllConform(recs, ScrollSchema)
  {
    seq(|recs|, k requires 0 <= k < |recs| =>
      ScrollInfo(recs[k][0].i, recs[k][1].i, recs[k][2].i, recs[k][3].i, recs[k][4].i, recs[k][5].i, recs[k][6].i))
  }

  function CursorInfos(recs: seq<seq<FieldVal>>): seq<CursorInfo>
    requires AllConform(recs, CursorSchema)
  {
    seq(|recs|, k requires 0 <= k < |recs| => CursorInfo(recs[k][0].i, recs[k][1].i, recs[k][2].i))
  }

  /** `hl_attr_define`'s tuples as map entries keyed by their id. */
  function DefineEntries(defs: seq<HighlightDefine>): seq<(int, HighlightDefine)> {
    seq(|defs|, k requires 0 <= k < |defs| => (defs[k].id as int, defs[k]))
  }

  function OptionEntries(pairs: seq<OptionPair>): seq<(string, Value)> {
    seq(|pairs|, k requires 0 <= k < |pairs| => (pairs[k].name, pairs[k].value))
  }
}
