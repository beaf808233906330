/** The redraw handler as the program runs it: its state held in mutable
    variables, the cell buffer an array written in place, each update
    dispatched on its kind. Every method is proved to do what the state
    machine of module Redraw says. */
module Ui {
  import opened Values
  import opened Highlight
  import opened Decode
  import opened Records
  import opened Grid
  import opened Redraw
  import Input

  /** What a handler reports, read as a state-machine outcome. */
  function Outcome(r: Result<()>, s: State): Result<State> {
    if r.Ok? then Ok(s) else Err(r.error)
  }

  class Handler {
    var width: nat
    var height: nat
    var grid: array<GridCell>
    var options: map<string, Value>
    var defaultStyle: Style
    var highlights: Table
    /** The calls made into the terminal library so far. */
    var screen: seq<ScreenCall>

    function Abs(): State
      reads this, grid
    {
      State(width, height, grid[..], options, defaultStyle, highlights, screen)
    }

    /** Start-up: the screen is cleared, its size read, and the buffer and
        tables allocated empty. */
    constructor (w: nat, h: nat)
      ensures Abs() == Initial(w, h)
    {
      width, height := w, h;
      grid := new GridCell[w * h](_ => Blank);
      options, highlights := map[], map[];
      defaultStyle := ZeroStyle;
      screen := [Clear];
      new;
      assert grid[..] == Blanks(w * h);
    }

    /** The inner loop of `grid_line`: `n` copies of cell `c` written from
        column `x0` of row `y`, buffer index `at` (none when `n` is below 1),
        each sent to the terminal unless its rune is zero and stored in any
        case. Fails at the first write outside the buffer; on success gives
        the column after the last copy. */
    method WriteRepeats(x0: int, y: int, c: GridCell, n: int, ghost at: int) returns (r: Result<int>)
      requires at == y * width + x0
      modifies grid, this`screen
      ensures var m := if n < 0 then 0 else n;
        && (r.Ok? <==> Fits(grid.Length, at, m))
        && (r.Ok? ==>
              && r.value == x0 + m
              && grid[..] == Overwrite(old(grid[..]), at, Repeat(c, m))
              && screen == old(screen) + RunCalls(y, x0, Repeat(c, m)))
    {
      ghost var g0 := grid[..];
      var x := x0;
      var i := 0;
      while i < n
        invariant 0 <= i <= if n < 0 then 0 else n
        invariant x == x0 + i
        invariant Fits(grid.Length, at, i)
        invariant grid[..] == Overwrite(g0, at, Repeat(c, i))
        invariant screen == old(screen) + RunCalls(y, x0, Repeat(c, i))
      {
        if c.r != '\0' {
          screen := screen + [SetContent(x, y, c.r, c.s)];
        }
        var idx := y * width + x;
        if !(0 <= idx < grid.Length) {
          return Err(IndexOutOfRange);
        }
        RepeatStep(g0, at, y, x0, c, i);
        grid[idx] := c;
        x := x + 1;
        i := i + 1;
      }
      return Ok(x);
    }

    /** One pass of the cell loop of `grid_line`: cell j of tuple `d`
        switches the style when it carries a highlight id, then is written
        its repeat count of times from column `x`. Fails when those writes
        leave the buffer, and then the tuple does not fit. */
    method WriteCell(d: LineData, style0: Style, j: nat, x: int, style: Style,
                     ghost g0: seq<GridCell>, ghost c0: seq<ScreenCall>) returns (r: Result<(int, Style)>)
      requires j < |d.cells|
      requires Written(d, style0, highlights, defaultStyle, width, g0, c0, grid[..], screen, j, x, style)
      modifies grid, this`screen
      ensures r.Err? ==> !LineFits(grid.Length, width, d)
      ensures r.Ok? ==> Written(d, style0, highlights, defaultStyle, width, g0, c0, grid[..], screen, j + 1, r.value.0, r.value.1)
    {
      ghost var at := d.row * width + d.colStart + RunLength(d.cells, j);
      ghost var g1, c1 := grid[..], screen;
      var cell := d.cells[j];
      var st := style;
      if cell.hlId.Some? {
        st := Resolve(cell.hlId.value, highlights, defaultStyle);
      }
      var n := if cell.repeat.Some? then cell.repeat.value else 1;
      var next := WriteRepeats(x, d.row, GridCell(cell.ch, st), n, at);
      if next.Err? {
        LineCellFails(grid.Length, d.row * width + d.colStart, d.cells, j);
        return Err(next.error);
      }
      LineCellStep(d, style0, highlights, defaultStyle, width, g0, c0, g1, c1, grid[..], screen,
                   j, x, style, st, if n < 0 then 0 else n, at);
      return Ok((next.value, st));
    }

    /** The cells of one `grid_line` tuple written from (colStart, row),
        starting from `style0`: the style changes at each cell that carries
        a highlight id, and each cell fills its repeat count of columns.
        Fails at the first write outside the buffer; on success gives the
        style the next tuple starts from. */
    method WriteLine(d: LineData, style0: Style) returns (r: Result<Style>)
      modifies grid, this`screen
      ensures r.Ok? <==> LineFits(grid.Length, width, d)
      ensures r.Ok? ==>
        && r.value == StyleAfter(d.cells, |d.cells|, style0, highlights, defaultStyle)
        && LineWritten(d, style0, highlights, defaultStyle, width, old(grid[..]), old(screen), grid[..], screen)
    {
      ghost var g0, c0 := grid[..], screen;
      var x := d.colStart;
      var style := style0;
      var j := 0;
      while j < |d.cells|
        invariant j <= |d.cells|
        invariant Written(d, style0, highlights, defaultStyle, width, g0, c0, grid[..], screen, j, x, style)
      {
        var next := WriteCell(d, style0, j, x, style, g0, c0);
        if next.Err? {
          return Err(next.error);
        }
        x, style := next.value.0, next.value.1;
        j := j + 1;
      }
      return Ok(style);
    }

    /** The loop of `grid_line` over decoded tuples: each written in
        order, the style starting from the default and carried from one
        tuple to the next. Fails at the first tuple that leaves the
        buffer. */
    method WriteLines(ds: seq<LineData>) returns (r: Result<()>)
      modifies grid, this`screen
      ensures r.Ok? <==> AllLinesFit(grid.Length, width, ds, |ds|)
      ensures r.Err? ==> r.error == IndexOutOfRange
      ensures r.Ok? ==> LinesDone(ds, |ds|, highlights, defaultStyle, width, old(grid[..]), old(screen),
                                  grid[..], screen, LinesStyle(ds, |ds|, highlights, defaultStyle))
    {
      ghost var g0, c0 := grid[..], screen;
      var style := defaultStyle;
      var k := 0;
      while k < |ds|
        invariant LinesDone(ds, k, highlights, defaultStyle, width, g0, c0, grid[..], screen, style)
        invariant grid.Length == |g0|
      {
        ghost var g1, c1 := grid[..], screen;
        var next := WriteLine(ds[k], style);
        if next.Err? {
          assert !LineFits(|g0|, width, ds[k]);
          return Err(IndexOutOfRange);
        }
        LinesStep(ds, k, highlights, defaultStyle, width, g0, c0, g1, c1, grid[..], screen, style);
        style := next.value;
        k := k + 1;
      }
      return Ok(());
    }

    /** `grid_line`: the tuples decoded, then written. */
    method GridLine(args: seq<Value>) returns (r: Result<()>)
      modifies grid, this`screen
      ensures Outcome(r, Abs()) == Redraw.GridLine(old(Abs()), args)
    {
      var recs := Unmarshal(args, LineSchema);
      if recs.Err? {
        return Err(recs.error);
      }
      r := WriteLines(Lines(recs.value));
    }

    /** The cells of the `len` buffer cells from index `at`, sent to the
        terminal as row `y` from column `x0`, zero runes included. */
    method SendRow(y: int, x0: int, at: int, len: int)
      requires 0 <= at && 0 <= len && at + len <= grid.Length
      modifies this`screen
      ensures screen == old(screen) + RowCalls(y, x0, grid[at..at + len])
    {
      ghost var row := grid[at..at + len];
      var i := 0;
      while i < len
        invariant 0 <= i <= len
        invariant screen == old(screen) + RowCalls(y, x0, row[..i])
      {
        var cell := grid[at + i];
        RowCallsSnoc(y, x0, row, i);
        screen := screen + [SetContent(x0 + i, y, cell.r, cell.s)];
        i := i + 1;
      }
      assert row[..len] == row;
    }

    /** One row copy of `grid_scroll`: Go's `copy` of the segment
        [left, right) of row `srcY` into the same segment of row `destY`,
        then a terminal write of every cell of the destination segment.
        Fails when either slice leaves the buffer. */
    method CopyRow(destY: int, srcY: int, left: int, right: int) returns (r: Result<()>)
      modifies grid, this`screen
      ensures r.Ok? <==> CopyFits(grid.Length, destY * width + left, srcY * width + left, right - left)
      ensures r.Ok? ==> RowCopied(old(grid[..]), old(screen), grid[..], screen, width, destY, srcY, left, right)
    {
      var l := right - left;
      var destBegin := destY * width + left;
      var destEnd := destBegin + l;
      var srcBegin := srcY * width + left;
      var srcEnd := srcBegin + l;
      if !(0 <= destBegin <= destEnd <= grid.Length && 0 <= srcBegin <= srcEnd <= grid.Length) {
        return Err(IndexOutOfRange);
      }
      forall i | destBegin <= i < destEnd {
        grid[i] := grid[i - destBegin + srcBegin];
      }
      assert grid[..] == CopyRange(old(grid[..]), destBegin, srcBegin, l);
      SendRow(destY, left, destBegin, l);
      return Ok(());
    }

    /** Row copy k of a scroll, from row `srcY` into row `destY`, after the
        copies before it. Fails when the copy leaves the buffer, and then
        the whole scroll does not fit. */
    method ScrollRow(info: ScrollInfo, ghost k: nat, destY: int, srcY: int,
                     ghost g0: seq<GridCell>, ghost c0: seq<ScreenCall>) returns (r: Result<()>)
      requires k < ScrollCount(info) && destY == DestRow(info, k) && srcY == destY + info.rows
      requires Scrolling(g0, c0, grid[..], screen, width, info, k)
      modifies grid, this`screen
      ensures r.Err? ==> !ScrollFits(grid.Length, width, info)
      ensures r.Ok? ==> Scrolling(g0, c0, grid[..], screen, width, info, k + 1)
    {
      ghost var g1, c1 := grid[..], screen;
      r := CopyRow(destY, srcY, info.left, info.right);
      if r.Err? {
        ScrollStepFails(grid.Length, width, info, k, destY, srcY);
        return;
      }
      ScrollRowStep(g0, c0, g1, c1, grid[..], screen, width, info, k, destY, srcY);
    }

    /** One scroll of `grid_scroll`: for rows > 0 the rows are copied
        upwards from `top`, for rows < 0 downwards from `bottom - 1`, each
        from the row `rows` away; rows = 0 does nothing. Fails when a copy
        leaves the buffer. */
    method ScrollRegion(info: ScrollInfo) returns (r: Result<()>)
      modifies grid, this`screen
      ensures r.Ok? <==> ScrollFits(grid.Length, width, info)
      ensures r.Ok? ==> ScrollMade(info, width, old(grid[..]), old(screen), grid[..], screen)
    {
      ghost var g0, c0 := grid[..], screen;
      ghost var k := 0;
      if info.rows > 0 {
        var destY := info.top;
        while destY + info.rows < info.bottom
          invariant destY == info.top + k
          invariant Scrolling(g0, c0, grid[..], screen, width, info, k)
          decreases info.bottom - destY
        {
          var step := ScrollRow(info, k, destY, destY + info.rows, g0, c0);
          if step.Err? {
            return Err(IndexOutOfRange);
          }
          destY := destY + 1;
          k := k + 1;
        }
      } else if info.rows < 0 {
        var rows := -(info.rows as int);
        var destY := info.bottom - 1;
        while destY - rows >= info.top
          invariant destY == info.bottom - 1 - k
          invariant Scrolling(g0, c0, grid[..], screen, width, info, k)
          decreases destY - info.top
        {
          var step := ScrollRow(info, k, destY, destY - rows, g0, c0);
          if step.Err? {
            return Err(IndexOutOfRange);
          }
          destY := destY - 1;
          k := k + 1;
        }
      }
      ScrollFitsSteps(grid.Length, width, info);
      return Ok(());
    }

    /** The loop of `grid_scroll` over decoded scrolls: each made in
        order. Fails at the first scroll that leaves the buffer. */
    method ScrollRegions(infos: seq<ScrollInfo>) returns (r: Result<()>)
      modifies grid, this`screen
      ensures r.Ok? <==> AllScrollsFit(grid.Length, width, infos, |infos|)
      ensures r.Err? ==> r.error == IndexOutOfRange
      ensures r.Ok? ==> ScrollsDone(infos, |infos|, width, old(grid[..]), old(screen), grid[..], screen)
    {
      ghost var g0, c0 := grid[..], screen;
      var k := 0;
      while k < |infos|
        invariant ScrollsDone(infos, k, width, g0, c0, grid[..], screen)
        invariant grid.Length == |g0|
      {
        ghost var g1, c1 := grid[..], screen;
        var step := ScrollRegion(infos[k]);
        if step.Err? {
          assert !ScrollFits(|g0|, width, infos[k]);
          return Err(IndexOutOfRange);
        }
        ScrollsStep(infos, k, width, g0, c0, g1, c1, grid[..], screen);
        k := k + 1;
      }
      return Ok(());
    }

    /** `grid_scroll`: the scrolls decoded, then made. */
    method GridScroll(args: seq<Value>) returns (r: Result<()>)
      modifies grid, this`screen
      ensures Outcome(r, Abs()) == Redraw.GridScroll(old(Abs()), args)
    {
      var recs := Unmarshal(args, ScrollSchema);
      if recs.Err? {
        return Err(recs.error);
      }
      r := ScrollRegions(ScrollInfos(recs.value));
    }

    /** `option_set`: each decoded pair stored in the option table, in
        order. */
    method OptionSet(args: seq<Value>) returns (r: Result<()>)
      modifies this`options
      ensures Outcome(r, Abs()) == Redraw.OptionSet(old(Abs()), args)
    {
      var recs := Unmarshal(args, OptionSchema);
      if recs.Err? {
        return Err(recs.error);
      }
      var pairs := OptionPairs(recs.value);
      ghost var entries := OptionEntries(pairs);
      var i := 0;
      while i < |pairs|
        invariant i <= |pairs| && options == UpsertAll(old(options), entries[..i])
      {
        UpsertAllSnoc(old(options), entries, i);
        options := options[pairs[i].name := pairs[i].value];
        i := i + 1;
      }
      assert entries[..i] == entries;
      return Ok(());
    }

    /** `hl_attr_define`: each decoded definition stored under its id, in
        order. */
    method HlAttrDefine(args: seq<Value>) returns (r: Result<()>)
      modifies this`highlights
      ensures Outcome(r, Abs()) == Redraw.HlAttrDefine(old(Abs()), args)
    {
      var recs := Unmarshal(args, DefineSchema);
      if recs.Err? {
        return Err(recs.error);
      }
      var defines := Defines(recs.value);
      ghost var entries := DefineEntries(defines);
      var i := 0;
      while i < |defines|
        invariant i <= |defines| && highlights == UpsertAll(old(highlights), entries[..i])
      {
        UpsertAllSnoc(old(highlights), entries, i);
        highlights := highlights[defines[i].id as int := defines[i]];
        i := i + 1;
      }
      assert entries[..i] == entries;
      return Ok(());
    }

    /** `default_colors_set`: the last decoded pair becomes the default
        style, handed to the terminal. */
    method DefaultColorsSet(args: seq<Value>) returns (r: Result<()>)
      modifies this`defaultStyle, this`screen
      ensures Outcome(r, Abs()) == Redraw.DefaultColorsSet(old(Abs()), args)
    {
      var recs := Unmarshal(args, ColorsSchema);
      if recs.Err? {
        return Err(recs.error);
      }
      var colors := ColorsList(recs.value);
      if |colors| == 0 {
        return Err(NoEntries);
      }
      var color := colors[|colors| - 1];
      defaultStyle := ColorsStyle(color.fg, color.bg);
      screen := screen + [SetStyle(defaultStyle)];
      return Ok(());
    }

    /** `grid_cursor_goto`: the cursor shown at the first decoded tuple's
        position. */
    method GridCursorGoto(args: seq<Value>) returns (r: Result<()>)
      modifies this`screen
      ensures Outcome(r, Abs()) == Redraw.GridCursorGoto(old(Abs()), args)
    {
      var recs := Unmarshal(args, CursorSchema);
      if recs.Err? {
        return Err(recs.error);
      }
      var info := CursorInfos(recs.value);
      if |info| == 0 {
        return Err(NoEntries);
      }
      screen := screen + [ShowCursor(info[0].column, info[0].row)];
      return Ok(());
    }

    /** `mode_info_set` and `mode_change`: decoded, then dropped. */
    method DecodeOnly(args: seq<Value>, schema: seq<FieldType>) returns (r: Result<()>)
      ensures Outcome(r, Abs()) == Redraw.DecodeOnly(Abs(), args, schema)
    {
      var recs := Unmarshal(args, schema);
      if recs.Err? {
        return Err(recs.error);
      }
      return Ok(());
    }

    /** `grid_clear`: the screen cleared and a zeroed buffer allocated at
        the size last seen. */
    method GridClear()
      modifies this
      ensures fresh(grid)
      ensures Abs() == Redraw.GridClear(old(Abs()))
    {
      screen := screen + [Clear];
      grid := new GridCell[width * height](_ => Blank);
      assert grid[..] == Blanks(width * height);
    }

    /** One update of a notification: its kind read from its first element
        (an update without one panics), then dispatched to its handler;
        kinds without a handler do nothing. */
    method Update(update: seq<Value>) returns (r: Result<()>)
      modifies this, grid
      ensures grid == old(grid) || fresh(grid)
      ensures Outcome(r, Abs()) == Step(old(Abs()), update)
    {
      if |update| == 0 || !update[0].Str? {
        return Err(BadUpdate);
      }
      var kind := update[0].s;
      var args := update[1..];
      if kind == "option_set" {
        r := OptionSet(args);
      } else if kind == "default_colors_set" {
        r := DefaultColorsSet(args);
      } else if kind == "hl_attr_define" {
        r := HlAttrDefine(args);
      } else if kind == "mode_info_set" {
        r := DecodeOnly(args, ModeInfoSchema);
      } else if kind == "flush" {
        screen := screen + [Show];
        r := Ok(());
      } else if kind == "grid_clear" {
        GridClear();
        r := Ok(());
      } else if kind == "mouse_on" {
        screen := screen + [EnableMouse];
        r := Ok(());
      } else if kind == "grid_line" {
        r := GridLine(args);
      } else if kind == "grid_scroll" {
        r := GridScroll(args);
      } else if kind == "grid_cursor_goto" {
        r := GridCursorGoto(args);
      } else if kind == "mode_change" {
        r := DecodeOnly(args, ModeChangeSchema);
      } else {
        r := Ok(());
      }
    }

    /** A `redraw` notification: its updates handled one after the other;
        the first failure ends the session. */
    method OnRedraw(batch: seq<seq<Value>>) returns (r: Result<()>)
      modifies this, grid
      ensures grid == old(grid) || fresh(grid)
      ensures Outcome(r, Abs()) == RunBatch(old(Abs()), batch)
    {
      var i := 0;
      while i < |batch|
        invariant i <= |batch|
        invariant grid == old(grid) || fresh(grid)
        invariant RunBatch(old(Abs()), batch) == RunBatch(Abs(), batch[i..])
      {
        RunBatchFrom(Abs(), batch, i);
        r := Update(batch[i]);
        if r.Err? {
          return;
        }
        i := i + 1;
      }
      return Ok(());
    }

    /** A terminal resize: the new size recorded for indexing the buffer,
        which stays as it is; reports whether the editor is to be asked to
        resize, which is when the size changed. */
    method Resize(w: nat, h: nat) returns (forward: bool)
      modifies this`width, this`height
      ensures (Abs(), forward) == Input.Resize(old(Abs()), w, h)
    {
      forward := w != width || h != height;
      if forward {
        width, height := w, h;
      }
    }
  }
}
