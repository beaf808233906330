/** The grid buffer as values: what `grid_line` and `grid_scroll` make of a
    flat, row-major buffer of cells, and which cell writes they send to the
    terminal. Cell (x, y) lives at index y * width + x; nothing checks that
    x < width, so a run that passes the end of a row continues on the next. */
module Grid {
  import opened Values
  import opened Highlight
  import opened Decode
  import opened Records

  /** One buffered cell: a rune ('\0' for the zero rune) and a style. */
  datatype GridCell = GridCell(r: char, s: Style)

  /** The zero cell a fresh buffer holds. */
  const Blank := GridCell('\0', ZeroStyle)

  /** A call into the terminal library. */
  datatype ScreenCall =
    | SetContent(x: int, y: int, ch: char, style: Style)
    | Show
    | Clear
    | SetStyle(defaultStyle: Style)
    | EnableMouse
    | ShowCursor(cx: int, cy: int)

  /** A freshly allocated buffer of `n` cells. */
  function Blanks(n: nat): (g: seq<GridCell>)
    ensures |g| == n && forall i | 0 <= i < n :: g[i] == Blank
  {
    seq(n, _ => Blank)
  }

  // ---------------------------------------------------------------------
  // grid_line

  /** How many times a cell is written: its repeat count, 1 when absent; a
      count below 1 writes nothing. */
  function Count(c: Cell): (n: nat)
    ensures c.repeat.None? ==> n == 1
    ensures c.repeat.Some? && c.repeat.value >= 0 ==> n == c.repeat.value
    ensures c.repeat.Some? && c.repeat.value < 0 ==> n == 0
  {
    if c.repeat.None? then 1 else if c.repeat.value < 0 then 0 else c.repeat.value
  }

  /** The style after reading cell `c`: a cell with a highlight id resolves
      a new style, any other cell keeps the current one. */
  function ActiveStyle(style: Style, c: Cell, table: Table, def: Style): Style {
    if c.hlId.Some? then Resolve(c.hlId.value, table, def) else style
  }

  /** The number of buffer cells the first j cells of a tuple write. */
  function RunLength(cells: seq<Cell>, j: nat): nat
    requires j <= |cells|
  {
    if j == 0 then 0 else RunLength(cells, j - 1) + Count(cells[j - 1])
  }

  /** The active style after reading the first j cells of a tuple, starting
      from `style`. */
  function StyleAfter(cells: seq<Cell>, j: nat, style: Style, table: Table, def: Style): Style
    requires j <= |cells|
  {
    if j == 0 then style
    else ActiveStyle(StyleAfter(cells, j - 1, style, table, def), cells[j - 1], table, def)
  }

  function Repeat(c: GridCell, n: nat): (r: seq<GridCell>)
    ensures |r| == n && forall i | 0 <= i < n :: r[i] == c
  {
    seq(n, _ => c)
  }

  /** The buffer cells the first j cells of a tuple write, in column order:
      each cell repeated in the style active after reading it. */
  function Run(cells: seq<Cell>, j: nat, style: Style, table: Table, def: Style): (r: seq<GridCell>)
    requires j <= |cells|
    ensures |r| == RunLength(cells, j)
  {
    if j == 0 then []
    else
      Run(cells, j - 1, style, table, def) +
      Repeat(GridCell(cells[j - 1].ch, StyleAfter(cells, j, style, table, def)), Count(cells[j - 1]))
  }

  /** Writes of `len` cells from index `at` stay inside a buffer of `n` cells
      (no write, no constraint). */
  predicate Fits(n: int, at: int, len: nat) {
    len == 0 || (0 <= at && at + len <= n)
  }

  /** `run` written over `g` from index `at`: the written indices hold the
      run, every other index is unchanged. */
  function Overwrite(g: seq<GridCell>, at: int, run: seq<GridCell>): (r: seq<GridCell>)
    requires Fits(|g|, at, |run|)
    ensures |r| == |g|
  {
    seq(|g|, i requires 0 <= i < |g| => if at <= i < at + |run| then run[i - at] else g[i])
  }

  /** Each index after the write: inside [at, at + |run|) the run's cell,
      elsewhere the old one. */
  lemma {:induction false} OverwriteAt(g: seq<GridCell>, at: int, run: seq<GridCell>, i: int)
    requires Fits(|g|, at, |run|) && 0 <= i < |g|
    ensures Overwrite(g, at, run)[i] == if at <= i < at + |run| then run[i - at] else g[i]
  {
  }

  /** Every cell written for one `grid_line` tuple is inside the buffer. */
  predicate LineFits(n: int, width: nat, d: LineData) {
    Fits(n, d.row * width + d.colStart, RunLength(d.cells, |d.cells|))
  }

  /** The first k tuples of an event all fit. */
  predicate AllLinesFit(n: int, width: nat, ds: seq<LineData>, k: nat)
    requires k <= |ds|
  {
    forall i | 0 <= i < k :: LineFits(n, width, ds[i])
  }

  /** The style after the first k tuples of one `grid_line` event: it starts
      as the default style and carries from tuple to tuple. */
  function LinesStyle(ds: seq<LineData>, k: nat, table: Table, def: Style): Style
    requires k <= |ds|
  {
    if k == 0 then def
    else StyleAfter(ds[k - 1].cells, |ds[k - 1].cells|, LinesStyle(ds, k - 1, table, def), table, def)
  }

  /** The buffer cells of tuple k, written from the style the tuples before
      it leave. */
  function LineRun(ds: seq<LineData>, k: nat, table: Table, def: Style): seq<GridCell>
    requires k < |ds|
  {
    Run(ds[k].cells, |ds[k].cells|, LinesStyle(ds, k, table, def), table, def)
  }

  /** The buffer after the first k tuples of one `grid_line` event. */
  function LinesGrid(g: seq<GridCell>, width: nat, ds: seq<LineData>, k: nat, table: Table, def: Style): (r: seq<GridCell>)
    requires k <= |ds| && AllLinesFit(|g|, width, ds, k)
    ensures |r| == |g|
  {
    if k == 0 then g
    else Overwrite(LinesGrid(g, width, ds, k - 1, table, def), ds[k - 1].row * width + ds[k - 1].colStart,
                   LineRun(ds, k - 1, table, def))
  }

  /** The terminal writes of a run placed at (x0, y): one per cell whose rune
      is not zero, at that cell's column. */
  function RunCalls(y: int, x0: int, run: seq<GridCell>): (r: seq<ScreenCall>)
    ensures |r| <= |run|
  {
    if run == [] then []
    else
      var last := run[|run| - 1];
      RunCalls(y, x0, run[..|run| - 1]) +
      (if last.r != '\0' then [SetContent(x0 + |run| - 1, y, last.r, last.s)] else [])
  }

  /** The terminal writes of the first k tuples of one `grid_line` event. */
  function LinesCalls(ds: seq<LineData>, k: nat, table: Table, def: Style): seq<ScreenCall>
    requires k <= |ds|
  {
    if k == 0 then []
    else LinesCalls(ds, k - 1, table, def) + RunCalls(ds[k - 1].row, ds[k - 1].colStart, LineRun(ds, k - 1, table, def))
  }

  /** The first j cells of a tuple write no more buffer cells than the
      first k. */
  lemma {:induction false} RunLengthMono(cells: seq<Cell>, j: nat, k: nat)
    requires j <= k <= |cells|
    ensures RunLength(cells, j) <= RunLength(cells, k)
  {
    if j < k {
      RunLengthMono(cells, j, k - 1);
    }
  }

  /** Repeat counts: cell j of a tuple fills the Count(cells[j]) buffer
      cells that follow the cells written before it, all with its rune and
      the style active after reading it. */
  lemma {:induction false} RunAt(cells: seq<Cell>, style: Style, table: Table, def: Style, j: nat, t: nat, k: nat)
    requires j < k <= |cells| && t < Count(cells[j])
    ensures RunLength(cells, j) + t < RunLength(cells, k)
    ensures Run(cells, k, style, table, def)[RunLength(cells, j) + t] ==
            GridCell(cells[j].ch, StyleAfter(cells, j + 1, style, table, def))
  {
    if j < k - 1 {
      RunAt(cells, style, table, def, j, t, k - 1);
    }
  }

  /** The buffer after one tuple written from index `at`: the t-th copy of
      cell j sits right after the copies of the cells before it. */
  lemma {:induction false} RepeatWrites(g: seq<GridCell>, at: int, cells: seq<Cell>, style: Style, table: Table, def: Style, j: nat, t: nat)
    requires j < |cells| && t < Count(cells[j]) && Fits(|g|, at, RunLength(cells, |cells|))
    ensures 0 <= at + RunLength(cells, j) + t < |g|
    ensures Overwrite(g, at, Run(cells, |cells|, style, table, def))[at + RunLength(cells, j) + t] ==
            GridCell(cells[j].ch, StyleAfter(cells, j + 1, style, table, def))
  {
    RunAt(cells, style, table, def, j, t, |cells|);
    OverwriteAt(g, at, Run(cells, |cells|, style, table, def), at + RunLength(cells, j) + t);
  }

  /** Writing a run one cell further extends the overwritten range by that
      one cell. */
  lemma {:induction false} OverwriteSnoc(g: seq<GridCell>, at: int, run: seq<GridCell>, c: GridCell)
    requires Fits(|g|, at, |run| + 1)
    ensures Fits(|g|, at, |run|) && 0 <= at + |run| < |g|
    ensures Overwrite(g, at, run + [c]) == Overwrite(g, at, run)[at + |run| := c]
  {
    var a := Overwrite(g, at, run + [c]);
    var b := Overwrite(g, at, run)[at + |run| := c];
    assert forall i | 0 <= i < |g| :: a[i] == b[i];
  }

  /** Two runs written back to back are one run written at once. */
  lemma {:induction false} OverwriteConcat(g: seq<GridCell>, at: int, a: seq<GridCell>, b: seq<GridCell>)
    requires Fits(|g|, at, |a|) && Fits(|g|, at + |a|, |b|)
    ensures Fits(|g|, at, |a| + |b|)
    ensures Overwrite(Overwrite(g, at, a), at + |a|, b) == Overwrite(g, at, a + b)
  {
    var l := Overwrite(Overwrite(g, at, a), at + |a|, b);
    var r := Overwrite(g, at, a + b);
    assert forall i | 0 <= i < |g| :: l[i] == r[i];
  }

  /** The writes of two runs sent back to back: the second starts where
      the first one ends. */
  lemma {:induction false} RunCallsConcat(y: int, x0: int, a: seq<GridCell>, b: seq<GridCell>)
    ensures RunCalls(y, x0, a + b) == RunCalls(y, x0, a) + RunCalls(y, x0 + |a|, b)
  {
    if b == [] {
      assert a + b == a;
    } else {
      var init := b[..|b| - 1];
      assert (a + b)[..|a + b| - 1] == a + init;
      RunCallsConcat(y, x0, a, init);
    }
  }

  /** One more repetition of a cell. */
  lemma {:induction false} RepeatSnoc(c: GridCell, t: nat)
    ensures Repeat(c, t + 1) == Repeat(c, t) + [c]
  {
    assert forall i | 0 <= i < t + 1 :: Repeat(c, t + 1)[i] == (Repeat(c, t) + [c])[i];
  }

  /** One more copy of a repeated cell: written at the next index, and
      sent at the next column unless its rune is zero. */
  lemma {:induction false} RepeatStep(g: seq<GridCell>, at: int, y: int, x0: int, c: GridCell, i: nat)
    requires Fits(|g|, at, i + 1)
    ensures Fits(|g|, at, i) && 0 <= at + i < |g|
    ensures Overwrite(g, at, Repeat(c, i + 1)) == Overwrite(g, at, Repeat(c, i))[at + i := c]
    ensures RunCalls(y, x0, Repeat(c, i + 1)) ==
            RunCalls(y, x0, Repeat(c, i)) + (if c.r != '\0' then [SetContent(x0 + i, y, c.r, c.s)] else [])
  {
    RepeatSnoc(c, i);
    OverwriteSnoc(g, at, Repeat(c, i), c);
    RunCallsSnoc(y, x0, Repeat(c, i), c);
  }

  /** The writes of a run one cell longer: one more write, at the next
      column, unless that cell holds the zero rune. */
  lemma {:induction false} RunCallsSnoc(y: int, x0: int, run: seq<GridCell>, c: GridCell)
    ensures RunCalls(y, x0, run + [c]) ==
            RunCalls(y, x0, run) + (if c.r != '\0' then [SetContent(x0 + |run|, y, c.r, c.s)] else [])
  {
    assert (run + [c])[..|run|] == run;
  }

  /** The first j cells of tuple `d` are written, starting from style
      `style0`, the buffer `g0` and the terminal writes `c0`: the buffer `g`
      and the writes `c` are those of the run of those cells, `x` is the
      column after them and `style` the style they leave. */
  ghost predicate Written(d: LineData, style0: Style, table: Table, def: Style, width: nat,
                          g0: seq<GridCell>, c0: seq<ScreenCall>, g: seq<GridCell>, c: seq<ScreenCall>,
                          j: nat, x: int, style: Style)
  {
    var at := d.row * width + d.colStart;
    && j <= |d.cells|
    && |g0| == |g|
    && style == StyleAfter(d.cells, j, style0, table, def)
    && x == d.colStart + RunLength(d.cells, j)
    && Fits(|g|, at, RunLength(d.cells, j))
    && g == Overwrite(g0, at, Run(d.cells, j, style0, table, def))
    && c == c0 + RunCalls(d.row, d.colStart, Run(d.cells, j, style0, table, def))
  }

  /** Cell j of a tuple written after the cells before it: if `g1`, `c1`
      hold the first j cells and `g2`, `c2` add the `m` copies of cell j, in
      the style `st` it switches to, from column `x`, then they hold the
      first j + 1 cells. */
  lemma {:induction false} LineCellStep(d: LineData, style0: Style, table: Table, def: Style, width: nat,
                                        g0: seq<GridCell>, c0: seq<ScreenCall>,
                                        g1: seq<GridCell>, c1: seq<ScreenCall>,
                                        g2: seq<GridCell>, c2: seq<ScreenCall>,
                                        j: nat, x: int, style: Style, st: Style, m: nat, at: int)
    requires j < |d.cells| && Written(d, style0, table, def, width, g0, c0, g1, c1, j, x, style)
    requires st == ActiveStyle(style, d.cells[j], table, def) && m == Count(d.cells[j])
    requires at == d.row * width + d.colStart + RunLength(d.cells, j)
    requires Fits(|g1|, at, m)
    requires g2 == Overwrite(g1, at, Repeat(GridCell(d.cells[j].ch, st), m))
    requires c2 == c1 + RunCalls(d.row, x, Repeat(GridCell(d.cells[j].ch, st), m))
    ensures Written(d, style0, table, def, width, g0, c0, g2, c2, j + 1, x + m, st)
  {
    var start := d.row * width + d.colStart;
    var run := Run(d.cells, j, style0, table, def);
    var rep := Repeat(GridCell(d.cells[j].ch, st), m);
    RunSnoc(d.cells, j, style0, table, def);
    OverwriteConcat(g0, start, run, rep);
    RunCallsAppend(c0, c1, c2, d.row, d.colStart, run, rep);
  }

  /** Writes of `run` from column `x0` followed by writes of `rep` from the
      column after it are the writes of `run + rep`. */
  lemma {:induction false} RunCallsAppend(c0: seq<ScreenCall>, c1: seq<ScreenCall>, c2: seq<ScreenCall>,
                                          y: int, x0: int, run: seq<GridCell>, rep: seq<GridCell>)
    requires c1 == c0 + RunCalls(y, x0, run)
    requires c2 == c1 + RunCalls(y, x0 + |run|, rep)
    ensures c2 == c0 + RunCalls(y, x0, run + rep)
  {
    RunCallsConcat(y, x0, run, rep);
    assert c2 == c0 + (RunCalls(y, x0, run) + RunCalls(y, x0 + |run|, rep));
  }

  /** The run of the first j + 1 cells: the run of the first j, then the
      copies of cell j in the style it switches to. */
  lemma {:induction false} RunSnoc(cells: seq<Cell>, j: nat, style: Style, table: Table, def: Style)
    requires j < |cells|
    ensures var st := ActiveStyle(StyleAfter(cells, j, style, table, def), cells[j], table, def);
      && StyleAfter(cells, j + 1, style, table, def) == st
      && RunLength(cells, j + 1) == RunLength(cells, j) + Count(cells[j])
      && Run(cells, j + 1, style, table, def) == Run(cells, j, style, table, def) + Repeat(GridCell(cells[j].ch, st), Count(cells[j]))
  {
  }

  /** A tuple whose cell j does not fit after the cells before it does not
      fit as a whole. */
  lemma {:induction false} LineCellFails(n: int, at: int, cells: seq<Cell>, j: nat)
    requires j < |cells|
    requires Fits(n, at, RunLength(cells, j)) && !Fits(n, at + RunLength(cells, j), Count(cells[j]))
    ensures !Fits(n, at, RunLength(cells, |cells|))
  {
    RunLengthAfter(cells, j);
    FitsConcat(n, at, RunLength(cells, j), Count(cells[j]), RunLength(cells, |cells|));
  }

  /** Cell j and the cells before it write no more buffer cells than the
      whole tuple. */
  lemma {:induction false} RunLengthAfter(cells: seq<Cell>, j: nat)
    requires j < |cells|
    ensures RunLength(cells, j) + Count(cells[j]) <= RunLength(cells, |cells|)
  {
    RunLengthMono(cells, j + 1, |cells|);
  }

  /** Writes that fit one after the other: if the writes of `a` cells from
      `at` fit but those of `b` more after them do not, no run of at least
      a + b cells from `at` fits. */
  lemma {:induction false} FitsConcat(n: int, at: int, a: nat, b: nat, total: nat)
    requires Fits(n, at, a) && !Fits(n, at + a, b) && a + b <= total
    ensures !Fits(n, at, total)
  {
  }

  /** Cells without a highlight id never change the style: if cells j to
      k - 1 carry none, the style after k cells is the one after j. */
  lemma {:induction false} StyleAfterNoHighlight(cells: seq<Cell>, j: nat, k: nat, style: Style, table: Table, def: Style)
    requires j <= k <= |cells|
    requires forall i | j <= i < k :: cells[i].hlId.None?
    ensures StyleAfter(cells, k, style, table, def) == StyleAfter(cells, j, style, table, def)
  {
    if j < k {
      StyleAfterNoHighlight(cells, j, k - 1, style, table, def);
    }
  }

  /** The style is the one resolved for the last cell carrying a highlight
      id, whatever came before it. */
  lemma {:induction false} StyleAfterLastHighlight(cells: seq<Cell>, j: nat, k: nat, style: Style, table: Table, def: Style)
    requires j < k <= |cells| && cells[j].hlId.Some?
    requires forall i | j < i < k :: cells[i].hlId.None?
    ensures StyleAfter(cells, k, style, table, def) == Resolve(cells[j].hlId.value, table, def)
  {
    StyleAfterNoHighlight(cells, j + 1, k, style, table, def);
  }

  /** The first i cells of `a + b`, for i within `a`, leave the style the
      first i cells of `a` leave. */
  lemma {:induction false} StyleAfterPrefix(a: seq<Cell>, b: seq<Cell>, i: nat, style: Style, table: Table, def: Style)
    requires i <= |a|
    ensures StyleAfter(a + b, i, style, table, def) == StyleAfter(a, i, style, table, def)
  {
    if i > 0 {
      StyleAfterPrefix(a, b, i - 1, style, table, def);
      assert (a + b)[i - 1] == a[i - 1];
    }
  }

  /** Reading all of `a` and then i cells of `b` leaves the style that
      reading |a| + i cells of `a + b` leaves. */
  lemma {:induction false} StyleAfterConcat(a: seq<Cell>, b: seq<Cell>, i: nat, style: Style, table: Table, def: Style)
    requires i <= |b|
    ensures StyleAfter(a + b, |a| + i, style, table, def) ==
            StyleAfter(b, i, StyleAfter(a, |a|, style, table, def), table, def)
  {
    if i == 0 {
      StyleAfterPrefix(a, b, |a|, style, table, def);
    } else {
      StyleAfterConcat(a, b, i - 1, style, table, def);
      assert (a + b)[|a| + i - 1] == b[i - 1];
    }
  }

  /** All the cells of the first k tuples of an event, in order. */
  function AllCells(ds: seq<LineData>, k: nat): seq<Cell>
    requires k <= |ds|
  {
    if k == 0 then [] else AllCells(ds, k - 1) + ds[k - 1].cells
  }

  /** The style carries across the tuples of one event exactly as if their
      cells formed a single run started from the default style. */
  lemma {:induction false} LinesStyleCarries(ds: seq<LineData>, k: nat, table: Table, def: Style)
    requires k <= |ds|
    ensures LinesStyle(ds, k, table, def) == StyleAfter(AllCells(ds, k), |AllCells(ds, k)|, def, table, def)
  {
    if k > 0 {
      LinesStyleCarries(ds, k - 1, table, def);
      StyleAfterConcat(AllCells(ds, k - 1), ds[k - 1].cells, |ds[k - 1].cells|, def, table, def);
    }
  }

  /** Tuple `d` written from `style0` over the buffer `g1` and the writes
      `c1`: it fits, the buffer `g2` holds its run and the writes `c2` add
      its run's terminal writes. */
  ghost predicate LineWritten(d: LineData, style0: Style, table: Table, def: Style, width: nat,
                              g1: seq<GridCell>, c1: seq<ScreenCall>, g2: seq<GridCell>, c2: seq<ScreenCall>)
  {
    && LineFits(|g1|, width, d)
    && g2 == Overwrite(g1, d.row * width + d.colStart, Run(d.cells, |d.cells|, style0, table, def))
    && c2 == c1 + RunCalls(d.row, d.colStart, Run(d.cells, |d.cells|, style0, table, def))
  }

  /** The first k tuples of a `grid_line` event are written, starting
      from the buffer `g0` and the terminal writes `c0`: all of them fit,
      `style` is the style they leave, and the buffer `g` and the writes `c`
      are theirs. */
  ghost predicate LinesDone(ds: seq<LineData>, k: nat, table: Table, def: Style, width: nat,
                            g0: seq<GridCell>, c0: seq<ScreenCall>, g: seq<GridCell>, c: seq<ScreenCall>, style: Style)
  {
    && k <= |ds|
    && AllLinesFit(|g0|, width, ds, k)
    && style == LinesStyle(ds, k, table, def)
    && g == LinesGrid(g0, width, ds, k, table, def)
    && c == c0 + LinesCalls(ds, k, table, def)
  }

  /** Tuple k written over the buffer the tuples before it left, from the
      style they left, completes the first k + 1 tuples. */
  lemma {:induction false} LinesStep(ds: seq<LineData>, k: nat, table: Table, def: Style, width: nat,
                                     g0: seq<GridCell>, c0: seq<ScreenCall>,
                                     g1: seq<GridCell>, c1: seq<ScreenCall>,
                                     g2: seq<GridCell>, c2: seq<ScreenCall>, style: Style)
    requires k < |ds| && LinesDone(ds, k, table, def, width, g0, c0, g1, c1, style)
    requires LineWritten(ds[k], style, table, def, width, g1, c1, g2, c2)
    ensures LinesDone(ds, k + 1, table, def, width, g0, c0, g2, c2,
                      StyleAfter(ds[k].cells, |ds[k].cells|, style, table, def))
  {
    assert c2 == c0 + (LinesCalls(ds, k, table, def) + RunCalls(ds[k].row, ds[k].colStart, LineRun(ds, k, table, def)));
  }

  /** Zero-rune cells are stored but never sent: the terminal receives one
      write for each non-zero cell of the run, at its own column, and no
      other write. */
  lemma {:induction false} RunCallsSkipZero(y: int, x0: int, run: seq<GridCell>, call: ScreenCall)
    ensures call in RunCalls(y, x0, run) <==>
      exists i | 0 <= i < |run| :: run[i].r != '\0' && call == SetContent(x0 + i, y, run[i].r, run[i].s)
  {
    if run != [] {
      var init := run[..|run| - 1];
      RunCallsSkipZero(y, x0, init, call);
      assert forall i | 0 <= i < |init| :: init[i] == run[i];
    }
  }

  // ---------------------------------------------------------------------
  // grid_scroll

  /** The number of rows one scroll copies: the loop runs while the source
      row stays above `bottom` (rows > 0) or at or below `top` (rows < 0). */
  function ScrollCount(info: ScrollInfo): (r: nat)
    ensures var shift := if info.rows < 0 then -(info.rows as int) else info.rows as int;
      r == if info.rows != 0 && shift < info.bottom - info.top then info.bottom - info.top - shift else 0
  {
    if info.rows > 0 then (if info.top + info.rows < info.bottom then info.bottom - info.rows - info.top else 0)
    else if info.rows < 0 then (if info.top - info.rows < info.bottom then info.bottom + info.rows - info.top else 0)
    else 0
  }

  /** The destination row of the k-th copy: ascending from `top` when content
      moves up, descending from `bottom - 1` when it moves down. The source
      row is always `DestRow + rows`. */
  function DestRow(info: ScrollInfo, k: int): (r: int)
    ensures 0 <= k < ScrollCount(info) ==> info.top <= r < info.bottom && info.top <= r + info.rows < info.bottom
  {
    if info.rows > 0 then info.top + k else info.bottom - 1 - k
  }

  /** Every slice the scroll copies from or to is inside a buffer of `n`
      cells (the rows it visits lie in [top, bottom)). */
  predicate ScrollFits(n: int, width: nat, info: ScrollInfo) {
    ScrollCount(info) == 0 ||
    (info.left <= info.right && 0 <= info.top * width + info.left && (info.bottom - 1) * width + info.right <= n)
  }

  lemma {:induction false} MulMono(a: int, b: int, w: nat)
    requires a <= b
    ensures a * w <= b * w
  {
    assert b * w - a * w == (b - a) * w;
  }

  /** The slice of any row in [top, bottom) is inside the buffer. */
  lemma {:induction false} RowBounds(n: int, width: nat, info: ScrollInfo, y: int)
    requires ScrollCount(info) > 0 && ScrollFits(n, width, info)
    requires info.top <= y < info.bottom
    ensures 0 <= y * width + info.left <= y * width + info.right <= n
  {
    MulMono(info.top, y, width);
    MulMono(y, info.bottom - 1, width);
  }

  /** The k-th copy reads and writes rows inside [top, bottom). */
  lemma {:induction false} StepRows(info: ScrollInfo, k: nat)
    requires k < ScrollCount(info)
    ensures info.top <= DestRow(info, k) < info.bottom
    ensures info.top <= DestRow(info, k) + info.rows < info.bottom
  {
  }

  /** The slices of the k-th copy, the segment [left, right) of the
      destination row and of the source row, are inside a buffer of `n`
      cells; a slice expression out of these bounds panics. */
  predicate StepFits(n: int, width: nat, info: ScrollInfo, k: int) {
    var d := DestRow(info, k);
    info.left <= info.right &&
    0 <= d * width + info.left && d * width + info.right <= n &&
    0 <= (d + info.rows) * width + info.left && (d + info.rows) * width + info.right <= n
  }

  /** The first k copies of a scroll stay inside the buffer. */
  predicate StepsFit(n: int, width: nat, info: ScrollInfo, k: nat) {
    forall j | 0 <= j < k :: StepFits(n, width, info, j)
  }

  /** A scroll stays inside the buffer exactly when every one of its copies
      does: the first and last copies touch rows `top` and `bottom - 1`. */
  lemma {:induction false} ScrollFitsSteps(n: int, width: nat, info: ScrollInfo)
    ensures ScrollFits(n, width, info) <==> StepsFit(n, width, info, ScrollCount(info))
  {
    var count := ScrollCount(info);
    if ScrollFits(n, width, info) && count > 0 {
      forall j | 0 <= j < count
        ensures StepFits(n, width, info, j)
      {
        StepRows(info, j);
        RowBounds(n, width, info, DestRow(info, j));
        RowBounds(n, width, info, DestRow(info, j) + info.rows);
      }
    }
    if StepsFit(n, width, info, count) && count > 0 {
      assert StepFits(n, width, info, 0);
      assert StepFits(n, width, info, count - 1);
      if info.rows > 0 {
        assert DestRow(info, count - 1) + info.rows == info.bottom - 1;
      } else {
        assert DestRow(info, count - 1) + info.rows == info.top;
      }
    }
  }

  /** The slices [dst, dst + len) and [src, src + len) of a buffer of `n`
      cells are both valid: a slice expression out of these bounds panics. */
  predicate CopyFits(n: int, dst: int, src: int, len: int) {
    0 <= len && 0 <= dst && dst + len <= n && 0 <= src && src + len <= n
  }

  /** Go's `copy` of `len` elements from `src` to `dst` within one buffer:
      the destination receives the source as it was before the copy. */
  function CopyRange(h: seq<GridCell>, dst: int, src: int, len: int): (r: seq<GridCell>)
    requires CopyFits(|h|, dst, src, len)
    ensures |r| == |h|
  {
    seq(|h|, i requires 0 <= i < |h| => if dst <= i < dst + len then h[i - dst + src] else h[i])
  }

  /** One row copy of a scroll done: the segment [left, right) of row
      `srcY` copied over the same segment of row `destY`, then every cell
      of the destination segment sent to the terminal. */
  ghost predicate RowCopied(g1: seq<GridCell>, c1: seq<ScreenCall>, g2: seq<GridCell>, c2: seq<ScreenCall>,
                            width: nat, destY: int, srcY: int, left: int, right: int)
  {
    && CopyFits(|g1|, destY * width + left, srcY * width + left, right - left)
    && g2 == CopyRange(g1, destY * width + left, srcY * width + left, right - left)
    && c2 == c1 + RowCalls(destY, left, g2[destY * width + left .. destY * width + right])
  }

  /** The copy as a whole: the destination segment now holds the source
      segment as it was, and every cell outside the destination is kept. */
  lemma {:induction false} CopyRangeMoves(h: seq<GridCell>, dst: int, src: int, len: int)
    requires CopyFits(|h|, dst, src, len)
    ensures var r := CopyRange(h, dst, src, len);
      && r[dst..dst + len] == h[src..src + len]
      && r[..dst] == h[..dst] && r[dst + len..] == h[dst + len..]
  {
    var r := CopyRange(h, dst, src, len);
    assert forall i | dst <= i < dst + len :: r[i] == h[i - dst + src];
  }

  /** Each cell after the copy: copied from the source inside the
      destination range, unchanged outside it. */
  lemma {:induction false} CopyRangeAt(h: seq<GridCell>, dst: int, src: int, len: int, i: int)
    requires CopyFits(|h|, dst, src, len)
    requires 0 <= i < |h|
    ensures CopyRange(h, dst, src, len)[i] == if dst <= i < dst + len then h[i - dst + src] else h[i]
  {
  }

  /** The buffer after the first k row copies of one scroll. */
  function ScrollSteps(g: seq<GridCell>, width: nat, info: ScrollInfo, k: nat): (r: seq<GridCell>)
    requires k <= ScrollCount(info) && StepsFit(|g|, width, info, k)
    ensures |r| == |g|
  {
    if k == 0 then g
    else
      var d := DestRow(info, k - 1);
      assert StepFits(|g|, width, info, k - 1);
      CopyRange(ScrollSteps(g, width, info, k - 1), d * width + info.left, (d + info.rows) * width + info.left,
                info.right - info.left)
  }

  /** One cell after the k-th row copy: the k-th copy moves the segment
      [left, right) of row `DestRow + rows` into row `DestRow`. */
  lemma {:induction false} ScrollStepAt(g: seq<GridCell>, width: nat, info: ScrollInfo, k: nat, i: int)
    requires 0 < k <= ScrollCount(info) && StepsFit(|g|, width, info, k)
    requires 0 <= i < |g|
    ensures var d := DestRow(info, k - 1);
      var dst := d * width + info.left;
      var src := (d + info.rows) * width + info.left;
      if dst <= i < dst + info.right - info.left
      then 0 <= i - dst + src < |g| && ScrollSteps(g, width, info, k)[i] == ScrollSteps(g, width, info, k - 1)[i - dst + src]
      else ScrollSteps(g, width, info, k)[i] == ScrollSteps(g, width, info, k - 1)[i]
  {
    var d := DestRow(info, k - 1);
    assert StepFits(|g|, width, info, k - 1);
    CopyRangeAt(ScrollSteps(g, width, info, k - 1), d * width + info.left, (d + info.rows) * width + info.left,
                info.right - info.left, i);
  }

  /** One more row copy, when it stays inside the buffer. */
  lemma {:induction false} ScrollStepsSnoc(g: seq<GridCell>, width: nat, info: ScrollInfo, k: nat)
    requires k < ScrollCount(info) && StepsFit(|g|, width, info, k) && StepFits(|g|, width, info, k)
    ensures StepsFit(|g|, width, info, k + 1)
    ensures var d := DestRow(info, k);
      var h := ScrollSteps(g, width, info, k + 1);
      && 0 <= d * width + info.left <= d * width + info.right <= |g|
      && 0 <= (d + info.rows) * width + info.left && (d + info.rows) * width + info.right <= |g|
      && h == CopyRange(ScrollSteps(g, width, info, k), d * width + info.left,
                        (d + info.rows) * width + info.left, info.right - info.left)
      && ScrollCalls(g, width, info, k + 1) ==
         ScrollCalls(g, width, info, k) + RowCalls(d, info.left, h[d * width + info.left .. d * width + info.right])
  {
  }

  /** The buffer after one whole scroll. */
  function Scrolled(g: seq<GridCell>, width: nat, info: ScrollInfo): (r: seq<GridCell>)
    requires ScrollFits(|g|, width, info)
    ensures |r| == |g|
    ensures info.rows == 0 ==> r == g
  {
    ScrollFitsSteps(|g|, width, info);
    ScrollSteps(g, width, info, ScrollCount(info))
  }

  /** The terminal writes of a copied row: every cell, zero runes included. */
  function RowCalls(y: int, x0: int, cells: seq<GridCell>): (r: seq<ScreenCall>)
    ensures |r| == |cells|
  {
    seq(|cells|, i requires 0 <= i < |cells| => SetContent(x0 + i, y, cells[i].r, cells[i].s))
  }

  /** The writes of one more cell of a copied row. */
  lemma {:induction false} RowCallsSnoc(y: int, x0: int, cells: seq<GridCell>, i: nat)
    requires i < |cells|
    ensures RowCalls(y, x0, cells[..i + 1]) ==
            RowCalls(y, x0, cells[..i]) + [SetContent(x0 + i, y, cells[i].r, cells[i].s)]
  {
    assert RowCalls(y, x0, cells[..i + 1])[..i] == RowCalls(y, x0, cells[..i]);
  }

  /** The terminal writes of the first k row copies: after each copy, the
      copied row segment as it now stands. */
  function ScrollCalls(g: seq<GridCell>, width: nat, info: ScrollInfo, k: nat): seq<ScreenCall>
    requires k <= ScrollCount(info) && StepsFit(|g|, width, info, k)
  {
    if k == 0 then []
    else
      var d := DestRow(info, k - 1);
      assert StepFits(|g|, width, info, k - 1);
      ScrollCalls(g, width, info, k - 1) +
      RowCalls(d, info.left, ScrollSteps(g, width, info, k)[d * width + info.left .. d * width + info.right])
  }

  /** A cell index of row d's segment [left, right) belongs to row d when
      the segment fits in one row of the buffer. */
  lemma {:induction false} SameRow(width: nat, y: int, x: int, d: int, left: int, right: int)
    requires 0 <= x < width && 0 <= left <= right <= width
    requires d * width + left <= y * width + x < d * width + right
    ensures y == d && left <= x < right
  {
    if y > d {
      MulMono(d + 1, y, width);
    } else if y < d {
      MulMono(y + 1, d, width);
    }
  }

  /** The k-th copy moves each cell of the source row segment into the
      destination row, at the same column. */
  lemma {:induction false} ScrollStepCopies(g: seq<GridCell>, width: nat, info: ScrollInfo, k: nat, x: int)
    requires 0 <= info.left <= x < info.right
    requires 0 < k <= ScrollCount(info) && StepsFit(|g|, width, info, k)
    ensures var d := DestRow(info, k - 1);
      0 <= d * width + x < |g| && 0 <= (d + info.rows) * width + x < |g| &&
      ScrollSteps(g, width, info, k)[d * width + x] == ScrollSteps(g, width, info, k - 1)[(d + info.rows) * width + x]
  {
    var d := DestRow(info, k - 1);
    assert StepFits(|g|, width, info, k - 1);
    ScrollStepAt(g, width, info, k, d * width + x);
  }

  /** The k-th copy leaves every cell outside its destination segment as it
      was, when the rectangle fits in one row. */
  lemma {:induction false} ScrollStepKeeps(g: seq<GridCell>, width: nat, info: ScrollInfo, k: nat, y: int, x: int)
    requires 0 <= info.left <= info.right <= width
    requires 0 < k <= ScrollCount(info) && StepsFit(|g|, width, info, k)
    requires 0 <= x < width && 0 <= y * width + x < |g|
    requires !(y == DestRow(info, k - 1) && info.left <= x < info.right)
    ensures ScrollSteps(g, width, info, k)[y * width + x] == ScrollSteps(g, width, info, k - 1)[y * width + x]
  {
    var d := DestRow(info, k - 1);
    ScrollStepAt(g, width, info, k, y * width + x);
    if d * width + info.left <= y * width + x < d * width + info.right {
      SameRow(width, y, x, d, info.left, info.right);
      assert false;
    }
  }

  /** Scrolling up, after k copies: a cell outside rows [top, top + k)
      or outside columns [left, right) still holds its old contents. */
  lemma {:induction false} ScrollUpOutside(g: seq<GridCell>, width: nat, info: ScrollInfo, k: nat, y: int, x: int)
    requires info.rows > 0 && 0 <= info.left <= info.right <= width
    requires k <= ScrollCount(info) && StepsFit(|g|, width, info, k)
    requires 0 <= x < width && 0 <= y * width + x < |g|
    requires !(info.top <= y < info.top + k && info.left <= x < info.right)
    ensures ScrollSteps(g, width, info, k)[y * width + x] == g[y * width + x]
  {
    if k > 0 {
      ScrollStepKeeps(g, width, info, k, y, x);
      ScrollUpOutside(g, width, info, k - 1, y, x);
    }
  }

  /** The source row of the k-th copy has not been written by the copies
      before it: they wrote rows on the other side of it. */
  lemma {:induction false} ScrollUpSourceKept(g: seq<GridCell>, width: nat, info: ScrollInfo, k: nat, y: int, x: int)
    requires info.rows > 0 && 0 <= info.left <= x < info.right <= width
    requires 0 < k <= ScrollCount(info) && StepsFit(|g|, width, info, k)
    requires y == DestRow(info, k - 1) + info.rows
    ensures 0 <= y * width + x < |g|
    ensures ScrollSteps(g, width, info, k - 1)[y * width + x] == g[y * width + x]
  {
    StepRows(info, k - 1);
    assert StepFits(|g|, width, info, k - 1);
    ScrollUpOutside(g, width, info, k - 1, y, x);
  }

  /** Scrolling up, after k copies: rows [top, top + k) hold, in
      columns [left, right), the rows `rows` lower down as they were before
      the scroll. */
  lemma {:induction false} ScrollUpInside(g: seq<GridCell>, width: nat, info: ScrollInfo, k: nat, y: int, x: int)
    requires info.rows > 0 && 0 <= info.left <= info.right <= width
    requires k <= ScrollCount(info) && StepsFit(|g|, width, info, k)
    requires 0 <= x < width && 0 <= y * width + x < |g|
    requires info.top <= y < info.top + k && info.left <= x < info.right
    ensures 0 <= (y + info.rows) * width + x < |g|
    ensures ScrollSteps(g, width, info, k)[y * width + x] == g[(y + info.rows) * width + x]
  {
    if y == DestRow(info, k - 1) {
      ScrollStepCopies(g, width, info, k, x);
      ScrollUpSourceKept(g, width, info, k, y + info.rows, x);
    } else {
      ScrollStepKeeps(g, width, info, k, y, x);
      ScrollUpInside(g, width, info, k - 1, y, x);
    }
  }

  /** Scrolling down, after k copies: a cell outside rows [bottom - k, bottom)
      or outside columns [left, right) still holds its old contents. */
  lemma {:induction false} ScrollDownOutside(g: seq<GridCell>, width: nat, info: ScrollInfo, k: nat, y: int, x: int)
    requires info.rows < 0 && 0 <= info.left <= info.right <= width
    requires k <= ScrollCount(info) && StepsFit(|g|, width, info, k)
    requires 0 <= x < width && 0 <= y * width + x < |g|
    requires !(info.bottom - k <= y < info.bottom && info.left <= x < info.right)
    ensures ScrollSteps(g, width, info, k)[y * width + x] == g[y * width + x]
  {
    if k > 0 {
      ScrollStepKeeps(g, width, info, k, y, x);
      ScrollDownOutside(g, width, info, k - 1, y, x);
    }
  }

  /** The source row of the k-th copy has not been written by the copies
      before it: they wrote rows on the other side of it. */
  lemma {:induction false} ScrollDownSourceKept(g: seq<GridCell>, width: nat, info: ScrollInfo, k: nat, y: int, x: int)
    requires info.rows < 0 && 0 <= info.left <= x < info.right <= width
    requires 0 < k <= ScrollCount(info) && StepsFit(|g|, width, info, k)
    requires y == DestRow(info, k - 1) + info.rows
    ensures 0 <= y * width + x < |g|
    ensures ScrollSteps(g, width, info, k - 1)[y * width + x] == g[y * width + x]
  {
    StepRows(info, k - 1);
    assert StepFits(|g|, width, info, k - 1);
    ScrollDownOutside(g, width, info, k - 1, y, x);
  }

  /** Scrolling down, after k copies: rows [bottom - k, bottom) hold, in
      columns [left, right), the rows |rows| higher up as they were before
      the scroll. */
  lemma {:induction false} ScrollDownInside(g: seq<GridCell>, width: nat, info: ScrollInfo, k: nat, y: int, x: int)
    requires info.rows < 0 && 0 <= info.left <= info.right <= width
    requires k <= ScrollCount(info) && StepsFit(|g|, width, info, k)
    requires 0 <= x < width && 0 <= y * width + x < |g|
    requires info.bottom - k <= y < info.bottom && info.left <= x < info.right
    ensures 0 <= (y + info.rows) * width + x < |g|
    ensures ScrollSteps(g, width, info, k)[y * width + x] == g[(y + info.rows) * width + x]
  {
    if y == DestRow(info, k - 1) {
      ScrollStepCopies(g, width, info, k, x);
      ScrollDownSourceKept(g, width, info, k, y + info.rows, x);
    } else {
      ScrollStepKeeps(g, width, info, k, y, x);
      ScrollDownInside(g, width, info, k - 1, y, x);
    }
  }

  /** A whole upward scroll (rows > 0) over a rectangle that fits in a row:
      each row in [top, bottom - rows) holds in [left, right) the old
      contents of the row `rows` below it; the vacated rows and everything
      outside the rectangle keep their old contents. */
  lemma {:induction false} ScrollUp(g: seq<GridCell>, width: nat, info: ScrollInfo, y: int, x: int)
    requires info.rows > 0 && 0 <= info.left <= info.right <= width
    requires ScrollFits(|g|, width, info)
    requires 0 <= x < width && 0 <= y * width + x < |g|
    ensures var r := Scrolled(g, width, info);
      if info.top <= y < info.bottom - info.rows && info.left <= x < info.right
      then 0 <= (y + info.rows) * width + x < |g| && r[y * width + x] == g[(y + info.rows) * width + x]
      else r[y * width + x] == g[y * width + x]
  {
    ScrollFitsSteps(|g|, width, info);
    if info.top <= y < info.top + ScrollCount(info) && info.left <= x < info.right {
      ScrollUpInside(g, width, info, ScrollCount(info), y, x);
    } else {
      ScrollUpOutside(g, width, info, ScrollCount(info), y, x);
    }
  }

  /** A whole downward scroll (rows < 0): each row in [top + |rows|, bottom)
      holds in [left, right) the old contents of the row |rows| above it —
      the descending order reads every source row before overwriting it —
      and the rows [top, top + |rows|) and everything outside the rectangle
      keep their old contents. */
  lemma {:induction false} ScrollDown(g: seq<GridCell>, width: nat, info: ScrollInfo, y: int, x: int)
    requires info.rows < 0 && 0 <= info.left <= info.right <= width
    requires ScrollFits(|g|, width, info)
    requires 0 <= x < width && 0 <= y * width + x < |g|
    ensures var r := Scrolled(g, width, info);
      if info.top - info.rows <= y < info.bottom && info.left <= x < info.right
      then 0 <= (y + info.rows) * width + x < |g| && r[y * width + x] == g[(y + info.rows) * width + x]
      else r[y * width + x] == g[y * width + x]
  {
    ScrollFitsSteps(|g|, width, info);
    if info.bottom - ScrollCount(info) <= y < info.bottom && info.left <= x < info.right {
      ScrollDownInside(g, width, info, ScrollCount(info), y, x);
    } else {
      ScrollDownOutside(g, width, info, ScrollCount(info), y, x);
    }
  }

  /** Two scrolls over the same rectangle by the same number of rows make the
      same copies, whatever their other fields. */
  lemma {:induction false} SameRectSameSteps(g: seq<GridCell>, width: nat, a: ScrollInfo, b: ScrollInfo, k: nat)
    requires a.top == b.top && a.bottom == b.bottom && a.left == b.left && a.right == b.right && a.rows == b.rows
    requires k <= ScrollCount(a) && StepsFit(|g|, width, a, k) && StepsFit(|g|, width, b, k)
    ensures ScrollSteps(g, width, a, k) == ScrollSteps(g, width, b, k)
  {
    if k > 0 {
      SameRectSameSteps(g, width, a, b, k - 1);
      forall i | 0 <= i < |g|
        ensures ScrollSteps(g, width, a, k)[i] == ScrollSteps(g, width, b, k)[i]
      {
        assert DestRow(a, k - 1) == DestRow(b, k - 1);
        ScrollStepAt(g, width, a, k, i);
        ScrollStepAt(g, width, b, k, i);
      }
    }
  }

  /** The `cols` field of a scroll is decoded but never read. */
  lemma {:induction false} ScrollIgnoresCols(g: seq<GridCell>, width: nat, info: ScrollInfo, cols: Int64)
    requires ScrollFits(|g|, width, info)
    ensures Scrolled(g, width, info.(cols := cols)) == Scrolled(g, width, info)
  {
    ScrollFitsSteps(|g|, width, info);
    ScrollFitsSteps(|g|, width, info.(cols := cols));
    SameRectSameSteps(g, width, info.(cols := cols), info, ScrollCount(info));
  }

  /** The first k row copies of a scroll are done, starting from the buffer
      `g0` and the terminal writes `c0`: they fit, and the buffer `g` and the
      writes `c` are theirs. */
  ghost predicate Scrolling(g0: seq<GridCell>, c0: seq<ScreenCall>, g: seq<GridCell>, c: seq<ScreenCall>,
                            width: nat, info: ScrollInfo, k: nat)
  {
    && k <= ScrollCount(info)
    && StepsFit(|g0|, width, info, k)
    && g == ScrollSteps(g0, width, info, k)
    && c == c0 + ScrollCalls(g0, width, info, k)
  }

  /** Row copy k, a `copy` from the source row segment followed by the
      writes of the destination segment, completes the first k + 1 copies. */
  lemma {:induction false} ScrollRowStep(g0: seq<GridCell>, c0: seq<ScreenCall>,
                                         g1: seq<GridCell>, c1: seq<ScreenCall>,
                                         g2: seq<GridCell>, c2: seq<ScreenCall>,
                                         width: nat, info: ScrollInfo, k: nat, destY: int, srcY: int)
    requires k < ScrollCount(info) && Scrolling(g0, c0, g1, c1, width, info, k)
    requires destY == DestRow(info, k) && srcY == destY + info.rows
    requires RowCopied(g1, c1, g2, c2, width, destY, srcY, info.left, info.right)
    ensures Scrolling(g0, c0, g2, c2, width, info, k + 1)
  {
    assert StepFits(|g0|, width, info, k);
    ScrollStepsSnoc(g0, width, info, k);
  }

  /** A row copy that leaves the buffer makes the whole scroll panic. */
  lemma {:induction false} ScrollStepFails(n: int, width: nat, info: ScrollInfo, k: nat, destY: int, srcY: int)
    requires k < ScrollCount(info) && destY == DestRow(info, k) && srcY == destY + info.rows
    requires !CopyFits(n, destY * width + info.left, srcY * width + info.left, info.right - info.left)
    ensures !ScrollFits(n, width, info)
  {
    assert !StepFits(n, width, info, k);
    ScrollFitsSteps(n, width, info);
  }

  /** The terminal writes of one whole scroll. */
  function ScrollWrites(g: seq<GridCell>, width: nat, info: ScrollInfo): seq<ScreenCall>
    requires ScrollFits(|g|, width, info)
  {
    ScrollFitsSteps(|g|, width, info);
    ScrollCalls(g, width, info, ScrollCount(info))
  }

  /** The first k scrolls of one `grid_scroll` event stay inside the
      buffer. */
  predicate AllScrollsFit(n: int, width: nat, infos: seq<ScrollInfo>, k: nat)
    requires k <= |infos|
  {
    forall i | 0 <= i < k :: ScrollFits(n, width, infos[i])
  }

  /** The buffer after the first k scrolls of one `grid_scroll` event, in
      order. */
  function ScrollAll(g: seq<GridCell>, width: nat, infos: seq<ScrollInfo>, k: nat): (r: seq<GridCell>)
    requires k <= |infos| && AllScrollsFit(|g|, width, infos, k)
    ensures |r| == |g|
  {
    if k == 0 then g
    else Scrolled(ScrollAll(g, width, infos, k - 1), width, infos[k - 1])
  }

  /** The terminal writes of the first k scrolls of one `grid_scroll`
      event. */
  function ScrollAllCalls(g: seq<GridCell>, width: nat, infos: seq<ScrollInfo>, k: nat): seq<ScreenCall>
    requires k <= |infos| && AllScrollsFit(|g|, width, infos, k)
  {
    if k == 0 then []
    else ScrollAllCalls(g, width, infos, k - 1) + ScrollWrites(ScrollAll(g, width, infos, k - 1), width, infos[k - 1])
  }

  /** Scroll `info` made over the buffer `g1` and the writes `c1`: it fits,
      `g2` is the scrolled buffer and `c2` adds the scroll's terminal
      writes. */
  ghost predicate ScrollMade(info: ScrollInfo, width: nat,
                             g1: seq<GridCell>, c1: seq<ScreenCall>, g2: seq<GridCell>, c2: seq<ScreenCall>)
  {
    && ScrollFits(|g1|, width, info)
    && g2 == Scrolled(g1, width, info)
    && c2 == c1 + ScrollWrites(g1, width, info)
  }

  /** The first k scrolls of a `grid_scroll` event are done, starting from
      the buffer `g0` and the terminal writes `c0`. */
  ghost predicate ScrollsDone(infos: seq<ScrollInfo>, k: nat, width: nat,
                              g0: seq<GridCell>, c0: seq<ScreenCall>, g: seq<GridCell>, c: seq<ScreenCall>)
  {
    && k <= |infos|
    && AllScrollsFit(|g0|, width, infos, k)
    && g == ScrollAll(g0, width, infos, k)
    && c == c0 + ScrollAllCalls(g0, width, infos, k)
  }

  /** Scroll k made over the buffer the scrolls before it left completes
      the first k + 1 scrolls. */
  lemma {:induction false} ScrollsStep(infos: seq<ScrollInfo>, k: nat, width: nat,
                                       g0: seq<GridCell>, c0: seq<ScreenCall>,
                                       g1: seq<GridCell>, c1: seq<ScreenCall>,
                                       g2: seq<GridCell>, c2: seq<ScreenCall>)
    requires k < |infos| && ScrollsDone(infos, k, width, g0, c0, g1, c1)
    requires ScrollMade(infos[k], width, g1, c1, g2, c2)
    ensures ScrollsDone(infos, k + 1, width, g0, c0, g2, c2)
  {
    assert c2 == c0 + (ScrollAllCalls(g0, width, infos, k) + ScrollWrites(g1, width, infos[k]));
  }
}
