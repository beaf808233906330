/** The highlight table and style resolution of the redraw handler.

    Colours are kept as the opaque 24-bit values the engine sends (an
    `int32` each); the terminal library's style type is modelled by the
    record `Style`, holding only what the handler ever sets. */
module Highlight {
  import opened Values

  /** A renderable style: `None` colours are the terminal's default colour. */
  datatype Style = Style(fg: Option<Int32>, bg: Option<Int32>, reverse: bool, bold: bool, underline: bool)

  /** The terminal library's default style, the zero value of its style type. */
  const ZeroStyle := Style(None, None, false, false, false)

  /** The RGB attributes of one highlight definition, as decoded. */
  datatype HighlightAttr = HighlightAttr(
    foreground: Option<Int32>,
    background: Option<Int32>,
    special: Option<Int32>,
    reverse: bool,
    italic: bool,
    bold: bool,
    underline: bool,
    undercurl: bool)

  const NoAttr := HighlightAttr(None, None, None, false, false, false, false, false)

  /** One `hl_attr_define` tuple: the id and its RGB attributes. */
  datatype HighlightDefine = HighlightDefine(id: Int64, attr: HighlightAttr)

  type Table = map<int, HighlightDefine>

  /** The definition a lookup sees: a missing id reads as the zero definition. */
  function Lookup(table: Table, id: int): (d: HighlightDefine)
    ensures id in table ==> d == table[id]
    ensures id !in table ==> d.id == 0 && d.attr == NoAttr
  {
    if id in table then table[id] else HighlightDefine(0, NoAttr)
  }

  /** The style of highlight `id` over `def`, as `grid_line` computes it:
      id 0 is the default style; otherwise the definition's colours replace
      the default ones where present and its reverse, bold and underline
      flags are switched on. */
  function Resolve(id: int, table: Table, def: Style): (s: Style)
    ensures id == 0 || id !in table ==> s == def
    ensures var a := Lookup(table, id).attr;
      && s.fg == (if id != 0 && a.foreground.Some? then a.foreground else def.fg)
      && s.bg == (if id != 0 && a.background.Some? then a.background else def.bg)
      && s.reverse == (def.reverse || (id != 0 && a.reverse))
      && s.bold == (def.bold || (id != 0 && a.bold))
      && s.underline == (def.underline || (id != 0 && a.underline))
  {
    if id == 0 then def
    else
      var a := Lookup(table, id).attr;
      var s1 := if a.foreground.Some? then def.(fg := a.foreground) else def;
      var s2 := if a.background.Some? then s1.(bg := a.background) else s1;
      var s3 := if a.reverse then s2.(reverse := true) else s2;
      var s4 := if a.bold then s3.(bold := true) else s3;
      if a.underline then s4.(underline := true) else s4
  }

  /** Italic, undercurl and the special colour are decoded but never
      applied: two definitions that differ only there resolve alike. */
  lemma {:induction false} ResolveIgnoresUnusedAttrs(id: int, table: Table, def: Style, italic: bool, undercurl: bool, special: Option<Int32>)
    requires id in table
    ensures var d := table[id];
      var d' := d.(attr := d.attr.(italic := italic, undercurl := undercurl, special := special));
      Resolve(id, table[id := d'], def) == Resolve(id, table, def)
  {
  }

  /** A highlight id that was never defined resolves like id 0. */
  lemma {:induction false} UndefinedLikeZero(id: int, table: Table, def: Style)
    requires id !in table
    ensures Resolve(id, table, def) == Resolve(0, table, def)
  {
  }

  /** The default style set by `default_colors_set`: the terminal's default
      style with the given foreground and background. */
  function ColorsStyle(fg: Int32, bg: Int32): (s: Style)
    ensures s.fg == Some(fg) && s.bg == Some(bg)
    ensures !s.reverse && !s.bold && !s.underline
  {
    ZeroStyle.(fg := Some(fg), bg := Some(bg))
  }

  /** Applies the keyed entries in order, each overwriting its key: the map
      updates of `option_set` and `hl_attr_define`. */
  function UpsertAll<K, V>(m: map<K, V>, entries: seq<(K, V)>): (r: map<K, V>)
    ensures r.Keys == m.Keys + set i | 0 <= i < |entries| :: entries[i].0
  {
    if entries == [] then m
    else
      var init := entries[..|entries| - 1];
      var last := entries[|entries| - 1];
      assert forall i | 0 <= i < |init| :: init[i] == entries[i];
      UpsertAll(m, init)[last.0 := last.1]
  }

  /** The first i + 1 entries: the first i, then entry i overwriting its
      key. */
  lemma {:induction false} UpsertAllSnoc<K, V>(m: map<K, V>, entries: seq<(K, V)>, i: nat)
    requires i < |entries|
    ensures UpsertAll(m, entries[..i + 1]) == UpsertAll(m, entries[..i])[entries[i].0 := entries[i].1]
  {
    assert entries[..i + 1][..i] == entries[..i];
  }

  /** A key no entry writes keeps its old binding, or stays absent. */
  lemma {:induction false} UpsertAllUntouched<K, V>(m: map<K, V>, entries: seq<(K, V)>, k: K)
    requires forall i | 0 <= i < |entries| :: entries[i].0 != k
    ensures var r := UpsertAll(m, entries);
      (k in r <==> k in m) && (k in m ==> r[k] == m[k])
  {
    if entries != [] {
      var init := entries[..|entries| - 1];
      assert forall i | 0 <= i < |init| :: init[i] == entries[i];
      UpsertAllUntouched(m, init, k);
    }
  }

  /** A key maps to the value of the LAST entry that writes it. */
  lemma {:induction false} UpsertAllLastWins<K, V>(m: map<K, V>, entries: seq<(K, V)>, i: nat)
    requires i < |entries|
    requires forall j | i < j < |entries| :: entries[j].0 != entries[i].0
    ensures var r := UpsertAll(m, entries);
      entries[i].0 in r && r[entries[i].0] == entries[i].1
  {
    if i < |entries| - 1 {
      var init := entries[..|entries| - 1];
      assert forall j | 0 <= j < |init| :: init[j] == entries[j];
      UpsertAllLastWins(m, init, i);
    }
  }
}
