# vv redraw core in Dafny

vv is a terminal front end for an embedded Neovim. It attaches to the
editor as an external UI with the line-grid protocol. It replays the
editor's `redraw` notifications onto an in-memory cell buffer and the
terminal, and it forwards key presses and terminal resizes back to the
editor. This project models the core of that loop in `main.go`:

- the decoding of each update's argument tuples into records, by
  position, as the generic `unmarshal` closure does by reflection, with
  `Cell.UnmarshalJSON` for the cells of a `grid_line` tuple (`decode.dfy`,
  `records.dfy`);
- the highlight table and the resolution of a highlight id into a style
  (`highlight.dfy`);
- the grid buffer and what each `grid_line` and `grid_scroll` writes into it
  and sends to the terminal (`grid.dfy`);
- the dispatch of a notification's updates, one after the other, as a state
  machine over the handler's state (`redraw.dfy`);
- the handler as the program runs it: mutable state, the buffer an array
  written in place, and a method per update kind. Each method is proved to
  implement the state machine (`ui.dfy`);
- the key mapping and the resize rule of the input side (`input.dfy`).

Calls into the terminal library (`SetContent`, `Show`, `Clear`,
`SetStyle`, `EnableMouse`, `ShowCursor`) are recorded, in order, in a log
of `ScreenCall` values that is part of the state. A Go panic or a failed
`ce` check inside an update ends the process. The model turns it into an
`Err` result for the whole notification: an index out of range, a failed
type assertion on the update's kind, an empty `colors` or `info` list, or
a JSON value of the wrong type.

Where the code and the protocol's intended design disagree, the model
follows the code:

- `grid_clear` refills the buffer with zero cells (rune 0, zero style),
  not with blanks in the default style.
- A cell whose rune is zero is stored in the buffer with the current
  style, but nothing at all is sent to the terminal for it. The terminal's
  style at that position does not change either.
- A terminal resize records the new size but does not reallocate or clear
  the buffer. The buffer is replaced only by the next `grid_clear`, and
  until then it may no longer hold one cell per position.
  `Input.ResizeThenLineFails` gives an input on which a `grid_line` then
  panics.
- Highlight resolution applies only the foreground, the background and the
  reverse, bold and underline flags. Italic, undercurl and the special
  colour are decoded and ignored.
- Every key press is sent. The text of a key is never empty, so the
  `len(s) > 0` guard is always true (`Input.KeyInput`).

## Model

| member | source | states |
|---|---|---|
| Highlight.Resolve | main.go:244-268 | id 0 and ids never defined give the default style; otherwise each colour of the definition replaces the default one when present, and reverse, bold and underline are switched on when set |
| Highlight.ResolveIgnoresUnusedAttrs | main.go:248-267 | italic, undercurl and the special colour of a definition never affect the resolved style |
| Highlight.Lookup | main.go:247 | a defined id reads its definition; an undefined id reads the zero definition (id 0, no attributes), as Go's map index does |
| Highlight.UndefinedLikeZero | main.go:247 | looking up an id with no definition reads the zero definition, which resolves like id 0 |
| Highlight.ColorsStyle | main.go:187-191 | the default style has exactly the given foreground and background and no flags |
| Highlight.UpsertAll | main.go:176-178 | storing a list of entries in a map leaves exactly the old keys plus the entries' keys |
| Highlight.UpsertAllSnoc | main.go:197-199 | storing one more entry is a single map update on top of the entries before it |
| Highlight.UpsertAllUntouched | main.go:197-199 | a key no entry names keeps its presence and its old value |
| Highlight.UpsertAllLastWins | main.go:197-199 | a key ends up holding the value of its last entry |
| Decode.AttrColor | main.go:75-77 | a colour key decodes exactly when it is absent, null or a 32-bit integer, and gives that integer, or nil when absent or null |
| Decode.AttrFlag | main.go:78-82 | a flag key decodes exactly when it is absent, null or a boolean, and is set only by `true` |
| Decode.DecodeAttr | main.go:74-83 | a null gives no attributes; otherwise the value decodes exactly when it is an object whose known keys each hold a value of their field's type, and then each of the eight fields holds what its key gives: the colour or nil, the flag or false |
| Decode.DecodeCell | main.go:393-416 | an array cell succeeds exactly when its first three elements have the right types; it then takes the first rune of its string (0 when empty or absent), its highlight id and its repeat count; a scalar gives the zero cell; an object fails unless empty |
| Decode.DecodeCellSeq | main.go:236 | a list of cells decodes exactly when each cell does, into the cells decoded one by one |
| Decode.DecodeField | main.go:157-161 | a decoded field always has the field's type |
| Decode.NullIsZero | main.go:157-161 | a JSON null leaves every field type at its zero value |
| Decode.DecodePrefix | main.go:153-162 | the first k fields decode into k values of the schema's types |
| Decode.DecodeTuple | main.go:148-163 | a decoded tuple is a record of the schema |
| Decode.DecodePrefixFields | main.go:153-162 | a tuple decodes exactly when each field does, and field i is the value at position i, or zero past the tuple's end |
| Decode.ShortTupleZeroFills | main.go:154-156 | the fields past the end of a short tuple keep their zero values |
| Decode.MismatchFails | main.go:157-161 | one ill-typed element makes the whole tuple fail |
| Decode.ExtraElementsIgnored | main.go:153-156 | elements past the record's last field are never read |
| Decode.Raws | main.go:144-147 | the arguments re-read as tuples succeed exactly when each is an array or null, and give each one's elements |
| Decode.DecodeAll | main.go:149-164 | decoded tuples give one record of the schema per tuple |
| Decode.DecodeArgs | main.go:143-166 | decoding the arguments gives one record of the schema per argument |
| Decode.DecodeAllTuples | main.go:149-164 | the tuples decode exactly when each one does, and record k is tuple k decoded |
| Decode.DecodeArgsEach | main.go:143-166 | the arguments decode exactly when each is an array or null whose tuple decodes, and record i is argument i decoded |
| Decode.ZeroTail | main.go:154-156 | once the tuple runs out, the remaining fields are the zero record's |
| Decode.FailurePersists | main.go:157-161 | the first failing field decides the tuple's failure |
| Decode.DecodeAllPrefixFails | main.go:149-164 | a failure among the first k tuples is the failure of the whole list |
| Decode.DecodeRecord | main.go:150-162 | the field loop computes exactly the tuple's decoding, failure included |
| Decode.Unmarshal | main.go:143-166 | the closure computes exactly the arguments' decoding, failure included |
| Grid.Blanks | main.go:226 | a fresh buffer of n zero cells |
| Grid.Count | main.go:270-273 | a cell without a repeat count is written once; a count of zero or more is written that many times, and a negative count not at all |
| Grid.RunCalls | main.go:274-283 | a run sends at most one terminal write per buffer cell |
| Grid.RunSnoc | main.go:243-290 | the run of cells 0..j is the run of cells 0..j-1 followed by the copies of cell j in the style cell j switches to |
| Grid.RunCallsAppend | main.go:274-288 | the writes of a run followed by the writes of the next run, from the column after it, are the writes of the two runs joined |
| Grid.Run | main.go:243-290 | a tuple's run has one cell per column it covers: the sum of its cells' repeat counts |
| Grid.LinesGrid | main.go:240-291 | writing the tuples never changes the buffer's length |
| Grid.RepeatWrites | main.go:270-289 | each of the n repeats of cell j holds cell j's rune with the style in force after cell j, at consecutive columns |
| Grid.RepeatStep | main.go:274-289 | one more repeat writes one more buffer index, and sends one more cell unless its rune is zero |
| Grid.LineCellStep | main.go:243-290 | writing cell j after cells 0..j-1 leaves the buffer, the writes and the style of cells 0..j |
| Grid.LineCellFails | main.go:284 | a cell whose repeats leave the buffer means the tuple's run does not fit |
| Grid.StyleAfterNoHighlight | main.go:243-269 | cells without a highlight id keep the style in force |
| Grid.StyleAfterLastHighlight | main.go:244-268 | the style in force is the resolution of the last highlight id seen |
| Grid.StyleAfterConcat | main.go:239-243 | the style carries on from one tuple into the next |
| Grid.LinesStyleCarries | main.go:239-240 | the style after k tuples is the style after all their cells, starting from the default once per update |
| Grid.LinesStep | main.go:240-291 | writing tuple k after tuples 0..k-1 gives the buffer, the writes and the style of tuples 0..k |
| Grid.RunCallsSkipZero | main.go:275-283 | the terminal receives a cell of the run exactly when its rune is not zero, at that cell's column |
| Grid.ScrollFitsSteps | main.go:307-349 | a scroll stays inside the buffer exactly when every one of its row copies does |
| Grid.ScrollCount | main.go:307-330 | the number of row copies of a scroll is the region's height minus the shift, and none when the shift is zero or at least the height |
| Grid.DestRow | main.go:309-333 | every copy's destination row and source row lie inside [top, bottom) |
| Grid.CopyRange | main.go:315 | Go's `copy` within one buffer keeps its length |
| Grid.CopyRangeMoves | main.go:315 | after the copy the destination segment holds the source segment as it was, and every cell outside the destination is unchanged |
| Grid.CopyRangeAt | main.go:315 | inside the destination range `copy` gives the source cell as it was before the copy; outside it the buffer is unchanged |
| Grid.ScrollStepAt | main.go:309-325 | row copy k moves the segment of its source row into its destination row and changes nothing else |
| Grid.ScrollSteps | main.go:309-325 | the row copies of a scroll keep the buffer's length |
| Grid.ScrollStepsSnoc | main.go:309-325 | after k copies, copy k is one `copy` of the current buffer |
| Grid.Scrolled | main.go:305-349 | a scroll keeps the buffer's length, and rows = 0 leaves it unchanged |
| Grid.RowCalls | main.go:316-324 | a copied row sends exactly one write per cell of its destination segment |
| Grid.RowCallsSnoc | main.go:316-324 | the writes of a copied row are every cell of its destination segment in column order, zero runes included |
| Grid.ScrollStepCopies | main.go:315 | copy k writes each column of the segment from the same column of its source row |
| Grid.ScrollStepKeeps | main.go:315 | copy k leaves every cell outside its destination segment unchanged |
| Grid.ScrollUpOutside | main.go:307-326 | scrolling up leaves every cell outside the rows copied so far unchanged |
| Grid.ScrollUpSourceKept | main.go:307-326 | scrolling up reads each source row before any copy has written it |
| Grid.ScrollUpInside | main.go:307-326 | each row copied so far holds the original contents of the row `rows` below it |
| Grid.ScrollDownOutside | main.go:327-347 | scrolling down leaves every cell outside the rows copied so far unchanged |
| Grid.ScrollDownSourceKept | main.go:327-347 | scrolling down reads each source row before any copy has written it |
| Grid.ScrollDownInside | main.go:327-347 | each row copied so far holds the original contents of the row `-rows` above it |
| Grid.ScrollUp | main.go:307-326 | for rows > 0, rows [top, bottom - rows) of the segment take the contents of the rows `rows` below them, and every other cell, the vacated rows included, is unchanged |
| Grid.ScrollDown | main.go:327-347 | for rows < 0, rows [top - rows, bottom) of the segment take the contents of the rows `-rows` above them, and every other cell is unchanged |
| Grid.SameRectSameSteps | main.go:294-302 | copies depend only on the rectangle and rows, never on the grid number or cols |
| Grid.ScrollIgnoresCols | main.go:294-302 | the cols field has no effect on a scroll |
| Grid.ScrollRowStep | main.go:309-325 | row copy k after copies 0..k-1 gives the buffer and the writes of copies 0..k |
| Grid.ScrollStepFails | main.go:315 | a row copy whose slices leave the buffer means the scroll does not fit |
| Grid.ScrollAll | main.go:305-349 | the scrolls of an update never change the buffer's length |
| Grid.ScrollsStep | main.go:305-349 | scroll k after scrolls 0..k-1 gives the buffer and the writes of scrolls 0..k |
| Redraw.Initial | main.go:20-94 | the start state holds a buffer of one zero cell per position, empty option and highlight tables and the zero default style, and the screen has been cleared once |
| Redraw.OptionSet | main.go:170-178 | `option_set` succeeds exactly when its pairs decode, changes only the option table and never removes a name |
| Redraw.DefaultColorsSet | main.go:180-192 | `default_colors_set` succeeds exactly when its pairs decode and there is at least one, panics when there is none, and changes only the default style, which it hands to the terminal |
| Redraw.HlAttrDefine | main.go:194-199 | `hl_attr_define` succeeds exactly when its definitions decode, changes only the highlight table and never removes an id |
| Redraw.DecodeOnly | main.go:203-219 | `mode_info_set` (and `mode_change`, lines 363-368) succeed exactly when their arguments decode, and change nothing |
| Redraw.GridLine | main.go:231-291 | `grid_line` fails when its tuples do not decode and otherwise only by an index out of range; it changes only the buffer and the calls, keeps the buffer's length and only appends calls |
| Redraw.GridScroll | main.go:293-349 | `grid_scroll` fails when its tuples do not decode and otherwise only by an index out of range; it changes only the buffer and the calls, keeps the buffer's length and only appends calls |
| Redraw.EmptyGridUpdates | main.go:240-349 | a `grid_line` or `grid_scroll` update without tuples leaves the state unchanged |
| Redraw.GridCursorGoto | main.go:351-361 | `grid_cursor_goto` succeeds exactly when its tuples decode and there is at least one, panics when there is none, and appends exactly one call, a cursor move, changing nothing else |
| Redraw.GridClear | main.go:224-226 | after `grid_clear` the buffer has one cell per position at the recorded size |
| Redraw.Apply | main.go:168-374 | unknown kinds change nothing; the size never changes; terminal calls are only appended; only `grid_clear` changes the buffer's length, and then to zero cells; options, highlights and the default style change only through their own kinds |
| Redraw.Step | main.go:140-141 | an update that is empty or whose first element is not a string panics; otherwise the size stays and calls are only appended |
| Redraw.RunBatch | main.go:139-376 | a batch never changes the size and only appends calls; a failing first update is the failure of the whole batch |
| Redraw.RunBatchFrom | main.go:139-141 | the batch from update i on is update i, then the rest from the state it leaves, unless it fails |
| Redraw.RunBatchAppend | main.go:139 | two batches run back to back are their concatenation run in order, stopping at the first failure |
| Redraw.UnknownKindSkipped | main.go:372-373 | an update of an unknown kind can be removed from a batch without changing its outcome |
| Redraw.RunBatchPrefix | main.go:139 | each update is applied to the state its predecessors left |
| Redraw.StepKeepsShape | main.go:224-349 | every update keeps one buffer cell per position once it holds |
| Redraw.RunBatchKeepsShape | main.go:139-374 | a whole batch keeps one buffer cell per position once it holds |
| Redraw.DefineLastWins | main.go:194-199 | after `hl_attr_define` an id holds its last definition in the update |
| Redraw.DefineKeepsOthers | main.go:194-199 | ids the update does not define keep their old definitions |
| Redraw.OptionLastWins | main.go:170-178 | after `option_set` a name holds its last value in the update |
| Redraw.OptionKeepsOthers | main.go:170-178 | names the update does not set keep their old values |
| Redraw.DefaultColorsLastPair | main.go:180-192 | only the last pair decides the new default style, which is handed to the terminal |
| Redraw.DefaultColorsEmpty | main.go:186 | `default_colors_set` without pairs panics |
| Redraw.CursorFirstTuple | main.go:351-361 | the cursor goes to the first tuple's column and row; later tuples are ignored |
| Ui.Handler.constructor | main.go:20-94 | the handler starts in the initial state |
| Ui.Handler.WriteRepeats | main.go:270-289 | the repeat loop writes n copies of the cell from the given column and sends the non-zero ones, failing exactly when a write leaves the buffer |
| Ui.Handler.WriteCell | main.go:243-290 | one pass of the cell loop keeps the run-so-far invariant, or fails only when the tuple does not fit |
| Ui.Handler.WriteLine | main.go:240-290 | one tuple is written exactly when its run fits, leaving its run in the buffer, its writes on the terminal and the style for the next tuple |
| Ui.Handler.WriteLines | main.go:239-291 | the tuple loop succeeds exactly when every tuple fits, and then leaves the buffer and the writes of all tuples in order |
| Ui.Handler.GridLine | main.go:231-291 | the in-place `grid_line` handler implements the state machine's `grid_line` |
| Ui.Handler.SendRow | main.go:316-324 | the writes of a copied row are every cell of the destination segment, in column order |
| Ui.Handler.CopyRow | main.go:308-324 | one row copy succeeds exactly when both slices are inside the buffer, and then is Go's `copy` followed by the row's writes |
| Ui.Handler.ScrollRow | main.go:309-325 | one pass of the copy loop keeps the copies-so-far invariant, or fails only when the scroll does not fit |
| Ui.Handler.ScrollRegion | main.go:305-349 | one scroll succeeds exactly when it fits, and then gives the scrolled buffer and its writes |
| Ui.Handler.ScrollRegions | main.go:305-349 | the scroll loop succeeds exactly when every scroll fits, and then leaves all scrolls made in order |
| Ui.Handler.GridScroll | main.go:293-349 | the in-place `grid_scroll` handler implements the state machine's `grid_scroll` |
| Ui.Handler.OptionSet | main.go:170-178 | the in-place `option_set` handler implements the state machine's `option_set` |
| Ui.Handler.HlAttrDefine | main.go:194-199 | the in-place `hl_attr_define` handler implements the state machine's `hl_attr_define` |
| Ui.Handler.DefaultColorsSet | main.go:180-192 | the in-place `default_colors_set` handler implements the state machine's `default_colors_set` |
| Ui.Handler.GridCursorGoto | main.go:351-361 | the `grid_cursor_goto` handler implements the state machine's `grid_cursor_goto` |
| Ui.Handler.DecodeOnly | main.go:203-219 | `mode_info_set` and `mode_change` change nothing, and fail exactly when their arguments do not decode |
| Ui.Handler.GridClear | main.go:224-226 | `grid_clear` gives a fresh zeroed buffer at the recorded size and clears the screen |
| Ui.Handler.Update | main.go:140-374 | handling one update implements the state machine's step, failures included |
| Ui.Handler.OnRedraw | main.go:138-376 | handling a notification implements running its whole batch, stopping at the first failure |
| Ui.Handler.Resize | main.go:123-131 | a resize records the new size and asks the editor to resize exactly when the size changed |
| Input.KeyText | main.go:106-113 | Escape sends `<esc>`, Backspace2 sends `<bs>`, and any other key sends one character: its rune, or U+FFFD when that is not a code point |
| Input.KeyInput | main.go:105-118 | every key press sends its text |
| Input.SpecialKeysDistinct | main.go:106-113 | each special key sends text no other key sends: `<esc>` and `<bs>` differ from each other and from every single-character text |
| Input.OtherKeysInjective | main.go:111-112 | two ordinary keys send the same text exactly when they encode the same rune |
| Input.Resize | main.go:124-131 | the editor is asked to resize exactly when the width or height changed; the new size is recorded and nothing else changes |
| Input.ResizeShape | main.go:125-127 | after a resize the buffer keeps one cell per position exactly when the area is unchanged |
| Input.ResizeThenLineFails | main.go:125-127 | widening a 2 x 2 screen to 3 x 2 makes a `grid_line` write to an on-screen position leave the old buffer |
| Input.ClearAfterResize | main.go:224-226 | the next `grid_clear` restores one buffer cell per position at the new size |

## Left out

- Terminal library internals: `tcell.NewHexColor` and the styles' own
  encoding are not modelled. A style is the pair of colours and the flags
  the handler sets, and each terminal call is a value appended to a log.
- Process and RPC plumbing: spawning the editor, `AttachUI`,
  `RegisterHandler`, serving the channel, `v.Input` and `v.TryResizeUI`. A
  failure of either call ends the loop in the source; the model only says
  when the call is made.
- Concurrency: the two event goroutines and the `select` of the main loop.
  The model handles one event at a time, in arrival order.
- Notifications other than `redraw`, and the `exit` channel.
- Logging of unknown kinds: `log` only writes text, and the model leaves
  the state unchanged.
- JSON text: values arrive already parsed as a `Value` tree. Encoding the
  arguments and decoding them again is modelled as the conversion of each
  argument to a tuple. Floating-point numbers in JSON are not represented.
- Mouse events: the source ignores them.
- Writes made before a panic: the process dies at the panic, so the model
  gives `Err` and drops the partial state.
- Slices: a Go slice expression may extend up to the slice's capacity. The
  model treats a freshly made buffer's capacity as its length.
- Ui.Handler.ScrollRegion: `int` is unbounded in the model, while Go's
  `int` is 64 bits wide and wraps. No arithmetic of `grid_scroll` is
  modelled as wrapping: the loop bounds `destY+info.Rows < info.Bottom`
  and `destY-info.Rows >= info.Top`, the negation `-info.Rows` of the least
  64-bit integer, and the products `destY*width+info.Left` with their
  sums. Where one of them wraps in Go, the loop may run, or index, where
  the model makes no copy or reports the index as out of range.
- Ui.Handler.WriteRepeats: the same holds for `grid_line`. The index
  `y*width+x` and the column `x` after `x++` are not modelled as wrapping.
- Decode.DecodeAttr: Go matches a JSON key to a struct field without
  regard to case, preferring an exact match. The model matches only the
  field names in lower case, which is how Neovim sends them, so `{"Bold":
  true}` gives no attributes in the model and bold in Go. When several
  keys differ only in case, Go decodes them in the order of the JSON text;
  object key order is not represented. The same holds for the tagged keys
  that `Decode.ModeInfoOk` checks.
- Input.KeyText: text is a sequence of code points. The UTF-8 encoding Go
  gives `string(r)` is not modelled.
