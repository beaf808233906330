/** The redraw handler as a state machine: the state it keeps between
    notifications, what one update does to it, and a whole notification as
    the updates applied strictly in order. A fatal error (a decode failure or
    a runtime panic) ends the session, so it ends the batch with `Err`. */
module Redraw {
  import opened Values
  import opened Highlight
  import opened Decode
  import opened Records
  import opened Grid

  /** The handler's state: the screen size it last saw, the cell buffer,
      the option and highlight tables, the default style, and every call it
      has made into the terminal library. */
  datatype State = State(
    width: nat,
    height: nat,
    grid: seq<GridCell>,
    options: map<string, Value>,
    defaultStyle: Style,
    highlights: Table,
    calls: seq<ScreenCall>)

  /** The state on entry to the event loop: a cleared screen of the
      terminal's size, a zeroed buffer, empty tables, the zero style. */
  function Initial(width: nat, height: nat): (s: State)
    ensures Shaped(s) && s.calls == [Clear]
    ensures s.grid == Blanks(width * height)
    ensures s.options == map[] && s.highlights == map[] && s.defaultStyle == ZeroStyle
  {
    State(width, height, Blanks(width * height), map[], ZeroStyle, map[], [Clear])
  }

  /** The buffer holds exactly one cell per screen position. */
  predicate Shaped(s: State) {
    |s.grid| == s.width * s.height
  }

  /** The update kinds the handler has a branch for. */
  const KnownKinds: set<string> := {
    "option_set", "default_colors_set", "hl_attr_define", "grid_resize", "mode_info_set",
    "flush", "grid_clear", "mouse_on", "grid_line", "grid_scroll", "grid_cursor_goto",
    "mode_change", "busy_start", "busy_stop"}

  /** `option_set`: each (name, value) pair is stored in the option table,
      later pairs overwriting earlier ones. */
  function OptionSet(s: State, args: seq<Value>): (r: Result<State>)
    ensures r.Ok? <==> DecodeArgs(args, OptionSchema).Ok?
    ensures r.Ok? ==> r.value == s.(options := r.value.options) && s.options.Keys <= r.value.options.Keys
  {
    var recs :- DecodeArgs(args, OptionSchema);
    Ok(s.(options := UpsertAll(s.options, OptionEntries(OptionPairs(recs)))))
  }

  /** `default_colors_set`: the last (fg, bg) pair becomes the default style
      and is handed to the terminal; an update without pairs panics. */
  function DefaultColorsSet(s: State, args: seq<Value>): (r: Result<State>)
    ensures r.Ok? <==> DecodeArgs(args, ColorsSchema).Ok? && |args| > 0
    ensures DecodeArgs(args, ColorsSchema).Ok? && |args| == 0 ==> r == Err(NoEntries)
    ensures r.Ok? ==> r.value == s.(defaultStyle := r.value.defaultStyle, calls := s.calls + [SetStyle(r.value.defaultStyle)])
  {
    var recs :- DecodeArgs(args, ColorsSchema);
    if |recs| == 0 then Err(NoEntries)
    else
      var c := ColorsList(recs)[|recs| - 1];
      var style := ColorsStyle(c.fg, c.bg);
      Ok(s.(defaultStyle := style, calls := s.calls + [SetStyle(style)]))
  }

  /** `hl_attr_define`: each definition is stored under its id, later ones
      overwriting earlier ones. */
  function HlAttrDefine(s: State, args: seq<Value>): (r: Result<State>)
    ensures r.Ok? <==> DecodeArgs(args, DefineSchema).Ok?
    ensures r.Ok? ==> r.value == s.(highlights := r.value.highlights) && s.highlights.Keys <= r.value.highlights.Keys
  {
    var recs :- DecodeArgs(args, DefineSchema);
    Ok(s.(highlights := UpsertAll(s.highlights, DefineEntries(Defines(recs)))))
  }

  /** `mode_info_set` and `mode_change` are decoded and dropped. */
  function DecodeOnly(s: State, args: seq<Value>, schema: seq<FieldType>): (r: Result<State>)
    ensures r.Ok? <==> DecodeArgs(args, schema).Ok?
    ensures r.Ok? ==> r.value == s
  {
    var _ :- DecodeArgs(args, schema);
    Ok(s)
  }

  /** `grid_clear`: the screen is cleared and the buffer reallocated, zeroed,
      at the size the handler last saw. */
  function GridClear(s: State): (r: State)
    ensures Shaped(r)
  {
    s.(grid := Blanks(s.width * s.height), calls := s.calls + [Clear])
  }

  /** `grid_line`: the tuples written in order, the style carried from one
      to the next; a write outside the buffer panics. */
  function GridLine(s: State, args: seq<Value>): (r: Result<State>)
    ensures DecodeArgs(args, LineSchema).Err? ==> r.Err?
    ensures DecodeArgs(args, LineSchema).Ok? && r.Err? ==> r.error == IndexOutOfRange
    ensures r.Ok? ==> r.value == s.(grid := r.value.grid, calls := r.value.calls)
    ensures r.Ok? ==> |r.value.grid| == |s.grid| && s.calls <= r.value.calls
  {
    var recs :- DecodeArgs(args, LineSchema);
    var ds := Lines(recs);
    if !AllLinesFit(|s.grid|, s.width, ds, |ds|) then Err(IndexOutOfRange)
    else
      Ok(s.(grid := LinesGrid(s.grid, s.width, ds, |ds|, s.highlights, s.defaultStyle),
            calls := s.calls + LinesCalls(ds, |ds|, s.highlights, s.defaultStyle)))
  }

  /** `grid_scroll`: the scrolls made in order; a slice outside the buffer
      panics. */
  function GridScroll(s: State, args: seq<Value>): (r: Result<State>)
    ensures DecodeArgs(args, ScrollSchema).Err? ==> r.Err?
    ensures DecodeArgs(args, ScrollSchema).Ok? && r.Err? ==> r.error == IndexOutOfRange
    ensures r.Ok? ==> r.value == s.(grid := r.value.grid, calls := r.value.calls)
    ensures r.Ok? ==> |r.value.grid| == |s.grid| && s.calls <= r.value.calls
  {
    var recs :- DecodeArgs(args, ScrollSchema);
    var infos := ScrollInfos(recs);
    if !AllScrollsFit(|s.grid|, s.width, infos, |infos|) then Err(IndexOutOfRange)
    else
      Ok(s.(grid := ScrollAll(s.grid, s.width, infos, |infos|),
            calls := s.calls + ScrollAllCalls(s.grid, s.width, infos, |infos|)))
  }

  /** `grid_cursor_goto`: the cursor is shown at the first tuple's position;
      an update without tuples panics. */
  function GridCursorGoto(s: State, args: seq<Value>): (r: Result<State>)
    ensures r.Ok? <==> DecodeArgs(args, CursorSchema).Ok? && |args| > 0
    ensures DecodeArgs(args, CursorSchema).Ok? && |args| == 0 ==> r == Err(NoEntries)
    ensures r.Ok? ==> r.value == s.(calls := r.value.calls)
    ensures r.Ok? ==> |r.value.calls| == |s.calls| + 1 && r.value.calls[..|s.calls|] == s.calls
    ensures r.Ok? ==> r.value.calls[|s.calls|].ShowCursor?
  {
    var recs :- DecodeArgs(args, CursorSchema);
    if |recs| == 0 then Err(NoEntries)
    else
      var info := CursorInfos(recs)[0];
      Ok(s.(calls := s.calls + [ShowCursor(info.column, info.row)]))
  }

  /** One update of kind `kind` with arguments `args`. Size, options,
      highlights and default style change only through their own kinds, the
      buffer keeps its length except when `grid_clear` reallocates it, and
      the terminal calls are only ever appended to. */
  function Apply(s: State, kind: string, args: seq<Value>): (r: Result<State>)
    ensures kind !in KnownKinds ==> r == Ok(s)
    ensures r.Ok? ==> r.value.width == s.width && r.value.height == s.height && s.calls <= r.value.calls
    ensures r.Ok? && kind != "grid_clear" ==> |r.value.grid| == |s.grid|
    ensures r.Ok? && kind == "grid_clear" ==> r.value.grid == Blanks(s.width * s.height)
    ensures r.Ok? && kind != "option_set" ==> r.value.options == s.options
    ensures r.Ok? && kind != "hl_attr_define" ==> r.value.highlights == s.highlights
    ensures r.Ok? && kind != "default_colors_set" ==> r.value.defaultStyle == s.defaultStyle
  {
    if kind == "option_set" then OptionSet(s, args)
    else if kind == "default_colors_set" then DefaultColorsSet(s, args)
    else if kind == "hl_attr_define" then HlAttrDefine(s, args)
    else if kind == "mode_info_set" then DecodeOnly(s, args, ModeInfoSchema)
    else if kind == "flush" then Ok(s.(calls := s.calls + [Show]))
    else if kind == "grid_clear" then Ok(GridClear(s))
    else if kind == "mouse_on" then Ok(s.(calls := s.calls + [EnableMouse]))
    else if kind == "grid_line" then GridLine(s, args)
    else if kind == "grid_scroll" then GridScroll(s, args)
    else if kind == "grid_cursor_goto" then GridCursorGoto(s, args)
    else if kind == "mode_change" then DecodeOnly(s, args, ModeChangeSchema)
    else
      // grid_resize, busy_start and busy_stop do nothing; any other kind is
      // only logged.
      Ok(s)
  }

  /** One update: its first element names the kind, the rest are its
      argument tuples. An update without a leading string panics. */
  function Step(s: State, update: seq<Value>): (r: Result<State>)
    ensures |update| == 0 || !update[0].Str? ==> r == Err(BadUpdate)
    ensures r.Ok? ==> r.value.width == s.width && r.value.height == s.height && s.calls <= r.value.calls
  {
    if |update| == 0 || !update[0].Str? then Err(BadUpdate)
    else Apply(s, update[0].s, update[1..])
  }

  /** A whole notification: its updates applied one after the other; the
      first failure ends it. */
  function RunBatch(s: State, batch: seq<seq<Value>>): (r: Result<State>)
    ensures r.Ok? ==> r.value.width == s.width && r.value.height == s.height && s.calls <= r.value.calls
    ensures batch != [] && Step(s, batch[0]).Err? ==> r == Err(Step(s, batch[0]).error)
    decreases |batch|
  {
    if batch == [] then Ok(s)
    else
      var t :- Step(s, batch[0]);
      RunBatch(t, batch[1..])
  }

  /** A `grid_line` or `grid_scroll` update without tuples writes nothing
      and leaves the state as it was. */
  lemma {:induction false} EmptyGridUpdates(s: State)
    ensures GridLine(s, []) == Ok(s) && GridScroll(s, []) == Ok(s)
  {
    assert DecodeArgs([], LineSchema) == Ok([]);
    assert DecodeArgs([], ScrollSchema) == Ok([]);
    assert s.calls + [] == s.calls;
  }

  /** Running two batches back to back is running their concatenation; a
      failure in the first one is the failure of the whole. */
  lemma {:induction false} RunBatchAppend(s: State, a: seq<seq<Value>>, b: seq<seq<Value>>)
    ensures RunBatch(s, a + b) == match RunBatch(s, a) case Ok(t) => RunBatch(t, b) case Err(e) => Err(e)
    decreases |a|
  {
    if a == [] {
      assert a + b == b;
    } else {
      assert (a + b)[0] == a[0];
      assert (a + b)[1..] == a[1..] + b;
      var t := Step(s, a[0]);
      if t.Ok? {
        RunBatchAppend(t.value, a[1..], b);
      }
    }
  }

  /** The batch from its i-th update on: that update, then the rest from
      the state it leaves, unless it fails. */
  lemma {:induction false} RunBatchFrom(s: State, batch: seq<seq<Value>>, i: nat)
    requires i < |batch|
    ensures RunBatch(s, batch[i..]) ==
      match Step(s, batch[i]) case Ok(t) => RunBatch(t, batch[i + 1..]) case Err(e) => Err(e)
  {
    assert batch[i..][0] == batch[i] && batch[i..][1..] == batch[i + 1..];
  }

  /** An update of a kind the handler does not know can be removed from a
      batch without changing its outcome. */
  lemma {:induction false} UnknownKindSkipped(s: State, a: seq<seq<Value>>, kind: string, args: seq<Value>, b: seq<seq<Value>>)
    requires kind !in KnownKinds
    ensures RunBatch(s, a + [[Str(kind)] + args] + b) == RunBatch(s, a + b)
  {
    var u := [Str(kind)] + args;
    assert u[1..] == args;
    RunBatchAppend(s, a + [u], b);
    RunBatchAppend(s, a, [u]);
    RunBatchAppend(s, a, b);
    var r := RunBatch(s, a);
    if r.Ok? {
      assert [u][1..] == [];
    }
  }

  /** The updates of a batch see each other's effects in order: the state
      after a prefix is the state the next update starts from. */
  lemma {:induction false} RunBatchPrefix(s: State, batch: seq<seq<Value>>, i: nat)
    requires i < |batch| && RunBatch(s, batch[..i]).Ok?
    ensures RunBatch(s, batch[..i + 1]) == Step(RunBatch(s, batch[..i]).value, batch[i])
  {
    assert batch[..i + 1] == batch[..i] + [batch[i]];
    RunBatchAppend(s, batch[..i], [batch[i]]);
    var t := RunBatch(s, batch[..i]).value;
    var r := Step(t, batch[i]);
    if r.Ok? {
      assert [batch[i]][1..] == [];
    }
  }

  /** Every update but `grid_clear` keeps the buffer's length, and the size
      never changes inside the handler, so a buffer that matches the screen
      still matches after any successful update. */
  lemma {:induction false} StepKeepsShape(s: State, update: seq<Value>)
    requires Shaped(s) && Step(s, update).Ok?
    ensures Shaped(Step(s, update).value)
  {
  }

  /** The same across a whole notification. */
  lemma {:induction false} RunBatchKeepsShape(s: State, batch: seq<seq<Value>>)
    requires Shaped(s) && RunBatch(s, batch).Ok?
    ensures Shaped(RunBatch(s, batch).value)
    decreases |batch|
  {
    if batch != [] {
      StepKeepsShape(s, batch[0]);
      RunBatchKeepsShape(Step(s, batch[0]).value, batch[1..]);
    }
  }

  /** `hl_attr_define`: an id maps to its last definition in the update. */
  lemma {:induction false} DefineLastWins(s: State, args: seq<Value>, i: nat)
    requires DecodeArgs(args, DefineSchema).Ok?
    requires var defs := Defines(DecodeArgs(args, DefineSchema).value);
      i < |defs| && forall j | i < j < |defs| :: defs[j].id != defs[i].id
    ensures var defs := Defines(DecodeArgs(args, DefineSchema).value);
      var t := HlAttrDefine(s, args).value;
      defs[i].id as int in t.highlights && t.highlights[defs[i].id as int] == defs[i]
  {
    var defs := Defines(DecodeArgs(args, DefineSchema).value);
    UpsertAllLastWins(s.highlights, DefineEntries(defs), i);
  }

  /** `hl_attr_define`: an id the update does not define keeps its old
      definition, or stays undefined. */
  lemma {:induction false} DefineKeepsOthers(s: State, args: seq<Value>, id: int)
    requires DecodeArgs(args, DefineSchema).Ok?
    requires var defs := Defines(DecodeArgs(args, DefineSchema).value);
      forall j | 0 <= j < |defs| :: defs[j].id != id
    ensures var t := HlAttrDefine(s, args).value;
      (id in t.highlights <==> id in s.highlights) && (id in s.highlights ==> t.highlights[id] == s.highlights[id])
  {
    var defs := Defines(DecodeArgs(args, DefineSchema).value);
    UpsertAllUntouched(s.highlights, DefineEntries(defs), id);
  }

  /** `option_set`: an option holds the value of its last pair in the update. */
  lemma {:induction false} OptionLastWins(s: State, args: seq<Value>, i: nat)
    requires DecodeArgs(args, OptionSchema).Ok?
    requires var pairs := OptionPairs(DecodeArgs(args, OptionSchema).value);
      i < |pairs| && forall j | i < j < |pairs| :: pairs[j].name != pairs[i].name
    ensures var pairs := OptionPairs(DecodeArgs(args, OptionSchema).value);
      var t := OptionSet(s, args).value;
      pairs[i].name in t.options && t.options[pairs[i].name] == pairs[i].value
  {
    var pairs := OptionPairs(DecodeArgs(args, OptionSchema).value);
    UpsertAllLastWins(s.options, OptionEntries(pairs), i);
  }

  /** `option_set`: options the update does not name are unchanged. */
  lemma {:induction false} OptionKeepsOthers(s: State, args: seq<Value>, name: string)
    requires DecodeArgs(args, OptionSchema).Ok?
    requires var pairs := OptionPairs(DecodeArgs(args, OptionSchema).value);
      forall j | 0 <= j < |pairs| :: pairs[j].name != name
    ensures var t := OptionSet(s, args).value;
      (name in t.options <==> name in s.options) && (name in s.options ==> t.options[name] == s.options[name])
  {
    var pairs := OptionPairs(DecodeArgs(args, OptionSchema).value);
    UpsertAllUntouched(s.options, OptionEntries(pairs), name);
  }

  /** `default_colors_set`: only the last colour pair matters; the pairs
      before it need only decode. */
  lemma {:induction false} DefaultColorsLastPair(s: State, pre1: seq<Value>, pre2: seq<Value>, last: Value)
    requires DecodeArgs(pre1 + [last], ColorsSchema).Ok? && DecodeArgs(pre2 + [last], ColorsSchema).Ok?
    requires DecodeTuple(TupleOf(last), ColorsSchema).Ok?
    ensures DefaultColorsSet(s, pre1 + [last]) == DefaultColorsSet(s, pre2 + [last])
    ensures var t := DefaultColorsSet(s, pre1 + [last]).value;
      var c := DecodeTuple(TupleOf(last), ColorsSchema).value;
      t.defaultStyle == ColorsStyle(c[0].i32, c[1].i32) && t.calls == s.calls + [SetStyle(t.defaultStyle)]
  {
    DecodeArgsEach(pre1 + [last], ColorsSchema);
    DecodeArgsEach(pre2 + [last], ColorsSchema);
    assert (pre1 + [last])[|pre1|] == last;
    assert (pre2 + [last])[|pre2|] == last;
  }

  /** `default_colors_set` with no pair panics. */
  lemma {:induction false} DefaultColorsEmpty(s: State)
    ensures DefaultColorsSet(s, []) == Err(NoEntries)
  {
  }

  /** `grid_cursor_goto`: the cursor goes to the column and row of the first
      tuple; the tuples after it need only decode. */
  lemma {:induction false} CursorFirstTuple(s: State, first: Value, rest1: seq<Value>, rest2: seq<Value>)
    requires DecodeArgs([first] + rest1, CursorSchema).Ok? && DecodeArgs([first] + rest2, CursorSchema).Ok?
    requires DecodeTuple(TupleOf(first), CursorSchema).Ok?
    ensures GridCursorGoto(s, [first] + rest1) == GridCursorGoto(s, [first] + rest2)
    ensures var c := DecodeTuple(TupleOf(first), CursorSchema).value;
      GridCursorGoto(s, [first] + rest1) == Ok(s.(calls := s.calls + [ShowCursor(c[2].i, c[1].i)]))
  {
    DecodeArgsEach([first] + rest1, CursorSchema);
    DecodeArgsEach([first] + rest2, CursorSchema);
  }
}
