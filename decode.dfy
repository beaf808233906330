/** Positional decoding of redraw argument tuples into records.

    Each redraw update carries argument tuples whose fields are matched to a
    record's fields by position. The handler does this generically, by
    reflection over the record type; here a record type is described by a
    schema, the list of its field types, and a decoded record is the list of
    its field values. A field past the end of a tuple keeps its zero value,
    tuple elements past the last field are never looked at, and a field of
    the wrong type is fatal. */
module Decode {
  import opened Values
  import opened Highlight

  /** One cell of a `grid_line` tuple: `[char?, hlId?, repeat?]`. A `ch` of
      '\0' stands for the zero rune. */
  datatype Cell = Cell(ch: char, hlId: Option<Int64>, repeat: Option<Int64>)

  const ZeroCell := Cell('\0', None, None)

  /** The Go field types the handler's records use. */
  datatype FieldType =
    | TInt        // int
    | TInt32      // int32
    | TBool       // bool
    | TString     // string
    | TAny        // interface{}
    | TAttr       // the highlight attribute struct
    | TCells      // []Cell
    | TModeInfos  // the mode_info_set list of cursor-mode structs (decoded, then dropped)

  /** A decoded field value. */
  datatype FieldVal =
    | FInt(i: Int64)
    | FInt32(i32: Int32)
    | FBool(b: bool)
    | FString(str: string)
    | FAny(any: Value)
    | FAttr(attr: HighlightAttr)
    | FCells(cells: seq<Cell>)
    | FModeInfos

  predicate HasType(f: FieldVal, t: FieldType) {
    match t
    case TInt => f.FInt?
    case TInt32 => f.FInt32?
    case TBool => f.FBool?
    case TString => f.FString?
    case TAny => f.FAny?
    case TAttr => f.FAttr?
    case TCells => f.FCells?
    case TModeInfos => f.FModeInfos?
  }

  /** A record of the given schema. */
  predicate Conforms(fields: seq<FieldVal>, schema: seq<FieldType>) {
    |fields| == |schema| && forall i | 0 <= i < |schema| :: HasType(fields[i], schema[i])
  }

  /** The zero value of a field type. */
  function Zero(t: FieldType): (f: FieldVal)
    ensures HasType(f, t)
  {
    match t
    case TInt => FInt(0)
    case TInt32 => FInt32(0)
    case TBool => FBool(false)
    case TString => FString("")
    case TAny => FAny(Null)
    case TAttr => FAttr(NoAttr)
    case TCells => FCells([])
    case TModeInfos => FModeInfos
  }

  /** A freshly allocated record: every field at its zero value. */
  function Zeros(schema: seq<FieldType>): (r: seq<FieldVal>)
    ensures Conforms(r, schema)
  {
    seq(|schema|, i requires 0 <= i < |schema| => Zero(schema[i]))
  }

  // Decoding one value into a Go variable. A JSON null leaves a non-pointer
  // variable untouched (so at zero) and sets a pointer to nil.

  function DecodeInt(v: Value): Result<Int64> {
    match v
    case Null => Ok(0)
    case Int(i) => if IsInt64(i) then Ok(i) else Err(TypeMismatch)
    case _ => Err(TypeMismatch)
  }

  function DecodeIntPtr(v: Value): Result<Option<Int64>> {
    match v
    case Null => Ok(None)
    case Int(i) => if IsInt64(i) then Ok(Some(i)) else Err(TypeMismatch)
    case _ => Err(TypeMismatch)
  }

  function DecodeInt32(v: Value): Result<Int32> {
    match v
    case Null => Ok(0)
    case Int(i) => if IsInt32(i) then Ok(i) else Err(TypeMismatch)
    case _ => Err(TypeMismatch)
  }

  function DecodeInt32Ptr(v: Value): Result<Option<Int32>> {
    match v
    case Null => Ok(None)
    case Int(i) => if IsInt32(i) then Ok(Some(i)) else Err(TypeMismatch)
    case _ => Err(TypeMismatch)
  }

  function DecodeBool(v: Value): Result<bool> {
    match v
    case Null => Ok(false)
    case Bool(b) => Ok(b)
    case _ => Err(TypeMismatch)
  }

  function DecodeString(v: Value): Result<string> {
    match v
    case Null => Ok("")
    case Str(s) => Ok(s)
    case _ => Err(TypeMismatch)
  }

  // The keys of `HighlightAttr`. Its fields carry no tags, so each is read
  // from the key that matches the field's name regardless of case; the
  // model takes the lower-case spelling Neovim sends. Unknown keys are
  // skipped and missing ones keep the zero value.
  const ColorKeys := ["foreground", "background", "special"]
  const FlagKeys := ["reverse", "italic", "bold", "underline", "undercurl"]

  /** A value a `*int32` colour field accepts. */
  predicate ColorOk(x: Value) {
    x.Null? || (x.Int? && IsInt32(x.i))
  }

  /** A value a `bool` flag field accepts. */
  predicate FlagOk(x: Value) {
    x.Null? || x.Bool?
  }

  /** The colour an object gives `key`: its integer, or nil when the key
      is absent or null. */
  function GivenColor(m: map<string, Value>, key: string): Option<Int32> {
    if key in m && m[key].Int? && IsInt32(m[key].i) then Some(m[key].i) else None
  }

  /** The flag an object gives `key`: set only by `true`. */
  function GivenFlag(m: map<string, Value>, key: string): bool {
    key in m && m[key] == Bool(true)
  }

  /** An object whose known keys all hold values of their fields' types. */
  predicate AttrFieldsOk(v: Value) {
    && v.Obj?
    && (forall k | k in ColorKeys && k in v.fields :: ColorOk(v.fields[k]))
    && (forall k | k in FlagKeys && k in v.fields :: FlagOk(v.fields[k]))
  }

  function AttrColor(m: map<string, Value>, key: string): (r: Result<Option<Int32>>)
    ensures r.Ok? <==> (key in m ==> ColorOk(m[key]))
    ensures r.Ok? ==> r.value == GivenColor(m, key)
  {
    if key in m then DecodeInt32Ptr(m[key]) else Ok(None)
  }

  function AttrFlag(m: map<string, Value>, key: string): (r: Result<bool>)
    ensures r.Ok? <==> (key in m ==> FlagOk(m[key]))
    ensures r.Ok? ==> r.value == GivenFlag(m, key)
  {
    if key in m then DecodeBool(m[key]) else Ok(false)
  }

  /** The `rgb_attr` object of an `hl_attr_define` tuple: it decodes exactly
      when every known key present holds a value of its field's type, and
      then each field holds what its key gives (nil or false when absent or
      null). */
  function DecodeAttr(v: Value): (r: Result<HighlightAttr>)
    ensures v.Null? ==> r == Ok(NoAttr)
    ensures r.Ok? <==> (v.Null? || AttrFieldsOk(v))
    ensures r.Ok? && v.Obj? ==> r.value == HighlightAttr(
      GivenColor(v.fields, "foreground"), GivenColor(v.fields, "background"), GivenColor(v.fields, "special"),
      GivenFlag(v.fields, "reverse"), GivenFlag(v.fields, "italic"), GivenFlag(v.fields, "bold"),
      GivenFlag(v.fields, "underline"), GivenFlag(v.fields, "undercurl"))
  {
    match v
    case Null => Ok(NoAttr)
    case Obj(m) =>
      var fg :- AttrColor(m, "foreground");
      var bg :- AttrColor(m, "background");
      var sp :- AttrColor(m, "special");
      var reverse :- AttrFlag(m, "reverse");
      var italic :- AttrFlag(m, "italic");
      var bold :- AttrFlag(m, "bold");
      var underline :- AttrFlag(m, "underline");
      var undercurl :- AttrFlag(m, "undercurl");
      Ok(HighlightAttr(fg, bg, sp, reverse, italic, bold, underline, undercurl))
    case _ => Err(TypeMismatch)
  }

  /** `Cell.UnmarshalJSON`: reads the opening token, then up to three
      elements in order: a string whose first rune is the character, the
      highlight id and the repeat count. A value that is not an array ends
      after its first token and leaves the cell at zero; a non-empty object
      fails on its first key. */
  function DecodeCell(v: Value): (r: Result<Cell>)
    ensures !v.Arr? && !v.Obj? ==> r == Ok(ZeroCell)
    ensures v.Obj? ==> (r.Ok? <==> v.fields == map[])
    ensures v.Arr? ==> (r.Ok? <==>
      && (|v.elems| > 0 ==> v.elems[0].Str? || v.elems[0].Null?)
      && (|v.elems| > 1 ==> v.elems[1].Null? || (v.elems[1].Int? && IsInt64(v.elems[1].i)))
      && (|v.elems| > 2 ==> v.elems[2].Null? || (v.elems[2].Int? && IsInt64(v.elems[2].i))))
    ensures v.Arr? && r.Ok? ==>
      && r.value.ch == (if |v.elems| > 0 && v.elems[0].Str? && |v.elems[0].s| > 0 then v.elems[0].s[0] else '\0')
      && r.value.hlId == (if |v.elems| > 1 && v.elems[1].Int? then Some(v.elems[1].i) else None)
      && r.value.repeat == (if |v.elems| > 2 && v.elems[2].Int? then Some(v.elems[2].i) else None)
  {
    match v
    case Arr(es) =>
      var s :- if |es| > 0 then DecodeString(es[0]) else Ok("");
      var hlId :- if |es| > 1 then DecodeIntPtr(es[1]) else Ok(None);
      var repeat :- if |es| > 2 then DecodeIntPtr(es[2]) else Ok(None);
      Ok(Cell(if |s| > 0 then s[0] else '\0', hlId, repeat))
    case Obj(m) => if m == map[] then Ok(ZeroCell) else Err(TypeMismatch)
    case _ => Ok(ZeroCell)
  }

  /** The elements of a `[]Cell` field, in order; the first failure is fatal. */
  function DecodeCellSeq(es: seq<Value>): (r: Result<seq<Cell>>)
    ensures r.Ok? <==> forall i | 0 <= i < |es| :: DecodeCell(es[i]).Ok?
    ensures r.Ok? ==> |r.value| == |es| && forall i | 0 <= i < |es| :: r.value[i] == DecodeCell(es[i]).value
  {
    if es == [] then Ok([])
    else
      var init :- DecodeCellSeq(es[..|es| - 1]);
      var last :- DecodeCell(es[|es| - 1]);
      Ok(init + [last])
  }

  const StringKeys := ["cursor_shape", "short_name", "name"]
  const IntKeys := ["cell_percentage", "blinkwait", "blinkon", "blinkoff", "attr_id", "attr_id_lm", "mouse_shape"]

  /** One cursor-mode struct of `mode_info_set`: only its field types are
      checked, under the tag spellings, which Neovim sends exactly. */
  predicate ModeInfoOk(v: Value) {
    match v
    case Null => true
    case Obj(m) =>
      && (forall k | k in StringKeys && k in m :: DecodeString(m[k]).Ok?)
      && (forall k | k in IntKeys && k in m :: DecodeInt(m[k]).Ok?)
    case _ => false
  }

  /** Decodes a value into a field of type `t`. */
  function DecodeField(t: FieldType, v: Value): (r: Result<FieldVal>)
    ensures r.Ok? ==> HasType(r.value, t)
  {
    match t
    case TInt => var i :- DecodeInt(v); Ok(FInt(i))
    case TInt32 => var i :- DecodeInt32(v); Ok(FInt32(i))
    case TBool => var b :- DecodeBool(v); Ok(FBool(b))
    case TString => var s :- DecodeString(v); Ok(FString(s))
    case TAny => Ok(FAny(v))
    case TAttr => var a :- DecodeAttr(v); Ok(FAttr(a))
    case TCells =>
      (match v
       case Null => Ok(FCells([]))
       case Arr(es) => var cells :- DecodeCellSeq(es); Ok(FCells(cells))
       case _ => Err(TypeMismatch))
    case TModeInfos =>
      (match v
       case Null => Ok(FModeInfos)
       case Arr(es) => if forall i | 0 <= i < |es| :: ModeInfoOk(es[i]) then Ok(FModeInfos) else Err(TypeMismatch)
       case _ => Err(TypeMismatch))
  }

  /** A JSON null decodes to the zero value of every field type. */
  lemma {:induction false} NullIsZero(t: FieldType)
    ensures DecodeField(t, Null) == Ok(Zero(t))
  {
  }

  /** Field `i` of a record read from tuple `raw`: decoded from `raw[i]`, or
      left at zero when the tuple is shorter. */
  function FieldAt(raw: seq<Value>, t: FieldType, i: nat): Result<FieldVal> {
    if i < |raw| then DecodeField(t, raw[i]) else Ok(Zero(t))
  }

  /** The first `k` fields of the record decoded from `raw`, in field order. */
  function DecodePrefix(raw: seq<Value>, schema: seq<FieldType>, k: nat): (r: Result<seq<FieldVal>>)
    requires k <= |schema|
    ensures r.Ok? ==> |r.value| == k && forall i | 0 <= i < k :: HasType(r.value[i], schema[i])
  {
    if k == 0 then Ok([])
    else
      var fields :- DecodePrefix(raw, schema, k - 1);
      var f :- FieldAt(raw, schema[k - 1], k - 1);
      Ok(fields + [f])
  }

  /** One argument tuple decoded into a record of the schema. */
  function DecodeTuple(raw: seq<Value>, schema: seq<FieldType>): (r: Result<seq<FieldVal>>)
    ensures r.Ok? ==> Conforms(r.value, schema)
  {
    DecodePrefix(raw, schema, |schema|)
  }

  /** Field by field: the tuple decodes exactly when every field does, and
      then field `i` is what `FieldAt` gives for position `i`. */
  lemma {:induction false} DecodePrefixFields(raw: seq<Value>, schema: seq<FieldType>, k: nat)
    requires k <= |schema|
    ensures DecodePrefix(raw, schema, k).Ok? <==> forall i | 0 <= i < k :: FieldAt(raw, schema[i], i).Ok?
    ensures DecodePrefix(raw, schema, k).Ok? ==>
      forall i | 0 <= i < k :: DecodePrefix(raw, schema, k).value[i] == FieldAt(raw, schema[i], i).value
  {
    if k > 0 {
      DecodePrefixFields(raw, schema, k - 1);
    }
  }

  /** A tuple shorter than the record leaves the trailing fields at zero. */
  lemma {:induction false} ShortTupleZeroFills(raw: seq<Value>, schema: seq<FieldType>)
    requires DecodeTuple(raw, schema).Ok?
    ensures forall i | |raw| <= i < |schema| :: DecodeTuple(raw, schema).value[i] == Zero(schema[i])
  {
    DecodePrefixFields(raw, schema, |schema|);
  }

  /** A field whose value has the wrong type makes the whole tuple fail. */
  lemma {:induction false} MismatchFails(raw: seq<Value>, schema: seq<FieldType>, i: nat)
    requires i < |raw| && i < |schema| && DecodeField(schema[i], raw[i]).Err?
    ensures DecodeTuple(raw, schema).Err?
  {
    DecodePrefixFields(raw, schema, |schema|);
  }

  /** Elements past the record's last field are ignored. */
  lemma {:induction false} ExtraElementsIgnored(raw: seq<Value>, extra: seq<Value>, schema: seq<FieldType>, k: nat)
    requires k <= |schema| <= |raw|
    ensures DecodePrefix(raw + extra, schema, k) == DecodePrefix(raw, schema, k)
  {
    if k > 0 {
      ExtraElementsIgnored(raw, extra, schema, k - 1);
      assert (raw + extra)[k - 1] == raw[k - 1];
    }
  }

  /** The elements of one argument read as a tuple: a null is the empty
      tuple. */
  function TupleOf(v: Value): seq<Value> {
    if v.Arr? then v.elems else []
  }

  /** The argument list as a list of tuples: each argument must be an array
      (a null reads as an empty tuple), or the whole list is rejected. */
  function Raws(args: seq<Value>): (r: Result<seq<seq<Value>>>)
    ensures r.Ok? <==> forall i | 0 <= i < |args| :: args[i].Arr? || args[i].Null?
    ensures r.Ok? ==> |r.value| == |args| && forall i | 0 <= i < |args| :: r.value[i] == TupleOf(args[i])
  {
    if forall i | 0 <= i < |args| :: args[i].Arr? || args[i].Null? then
      Ok(seq(|args|, i requires 0 <= i < |args| => TupleOf(args[i])))
    else
      Err(NotATuple)
  }

  /** The records of a list of tuples, in order; the first failure is fatal. */
  function DecodeAll(raws: seq<seq<Value>>, schema: seq<FieldType>): (r: Result<seq<seq<FieldVal>>>)
    ensures r.Ok? ==> |r.value| == |raws| && forall k | 0 <= k < |raws| :: Conforms(r.value[k], schema)
  {
    if raws == [] then Ok([])
    else
      var init :- DecodeAll(raws[..|raws| - 1], schema);
      var last :- DecodeTuple(raws[|raws| - 1], schema);
      Ok(init + [last])
  }

  /** The `unmarshal` helper: every argument tuple of one update decoded into
      a record of the schema. */
  function DecodeArgs(args: seq<Value>, schema: seq<FieldType>): (r: Result<seq<seq<FieldVal>>>)
    ensures r.Ok? ==> |r.value| == |args| && forall k | 0 <= k < |args| :: Conforms(r.value[k], schema)
  {
    var raws :- Raws(args);
    DecodeAll(raws, schema)
  }

  /** The records are the tuples decoded one by one: the argument list
      decodes exactly when every argument is a tuple and every tuple decodes. */
  lemma {:induction false} DecodeAllTuples(raws: seq<seq<Value>>, schema: seq<FieldType>)
    ensures DecodeAll(raws, schema).Ok? <==> forall k | 0 <= k < |raws| :: DecodeTuple(raws[k], schema).Ok?
    ensures DecodeAll(raws, schema).Ok? ==>
      forall k | 0 <= k < |raws| :: DecodeAll(raws, schema).value[k] == DecodeTuple(raws[k], schema).value
  {
    if raws != [] {
      var init := raws[..|raws| - 1];
      assert forall k | 0 <= k < |init| :: init[k] == raws[k];
      DecodeAllTuples(init, schema);
    }
  }

  /** The arguments of an update decode exactly when each of them is a
      tuple that decodes, and then into those tuples' records, in order. */
  lemma {:induction false} DecodeArgsEach(args: seq<Value>, schema: seq<FieldType>)
    ensures DecodeArgs(args, schema).Ok? <==>
      forall i | 0 <= i < |args| :: (args[i].Arr? || args[i].Null?) && DecodeTuple(TupleOf(args[i]), schema).Ok?
    ensures DecodeArgs(args, schema).Ok? ==>
      forall i | 0 <= i < |args| :: DecodeArgs(args, schema).value[i] == DecodeTuple(TupleOf(args[i]), schema).value
  {
    var raws := Raws(args);
    if raws.Ok? {
      DecodeAllTuples(raws.value, schema);
    }
  }

  /** Once `|raw|` fields are decoded, the rest of the record is zero. */
  lemma {:induction false} ZeroTail(raw: seq<Value>, schema: seq<FieldType>, i: nat, k: nat)
    requires |raw| <= i <= k <= |schema|
    requires DecodePrefix(raw, schema, i).Ok?
    ensures DecodePrefix(raw, schema, k) == Ok(DecodePrefix(raw, schema, i).value + Zeros(schema)[i..k])
  {
    if k > i {
      ZeroTail(raw, schema, i, k - 1);
      var v := DecodePrefix(raw, schema, i).value;
      assert FieldAt(raw, schema[k - 1], k - 1) == Ok(Zero(schema[k - 1]));
      assert Zeros(schema)[i..k] == Zeros(schema)[i..k - 1] + [Zero(schema[k - 1])];
      assert v + Zeros(schema)[i..k] == (v + Zeros(schema)[i..k - 1]) + [Zero(schema[k - 1])];
    } else {
      assert DecodePrefix(raw, schema, i).value + Zeros(schema)[i..k] == DecodePrefix(raw, schema, i).value;
    }
  }

  /** The first failing field decides the tuple's failure. */
  lemma {:induction false} FailurePersists(raw: seq<Value>, schema: seq<FieldType>, i: nat, k: nat)
    requires i <= k <= |schema| && DecodePrefix(raw, schema, i).Err?
    ensures DecodePrefix(raw, schema, k) == DecodePrefix(raw, schema, i)
  {
    if k > i {
      FailurePersists(raw, schema, i, k - 1);
    }
  }

  /** The body of the `unmarshal` closure for one tuple: a zero record is
      allocated and its fields are decoded in order until the record or the
      tuple runs out. */
  method DecodeRecord(raw: seq<Value>, schema: seq<FieldType>) returns (r: Result<seq<FieldVal>>)
    ensures r == DecodeTuple(raw, schema)
  {
    var record := Zeros(schema);
    var i := 0;
    while i < |schema|
      invariant 0 <= i <= |schema| && |record| == |schema|
      invariant DecodePrefix(raw, schema, i) == Ok(record[..i])
      invariant record[i..] == Zeros(schema)[i..]
    {
      if i >= |raw| {
        break;
      }
      var f := DecodeField(schema[i], raw[i]);
      if f.Err? {
        assert DecodePrefix(raw, schema, i + 1) == Err(f.error);
        FailurePersists(raw, schema, i + 1, |schema|);
        return Err(f.error);
      }
      assert record[i := f.value][..i + 1] == record[..i] + [f.value];
      record := record[i := f.value];
      i := i + 1;
    }
    if i < |schema| {
      ZeroTail(raw, schema, i, |schema|);
      assert record == record[..i] + Zeros(schema)[i..|schema|];
    } else {
      assert record == record[..i];
    }
    return Ok(record);
  }

  /** The `unmarshal` closure: the arguments are re-read as a list of tuples,
      then each tuple is decoded into a record, in order. */
  method Unmarshal(args: seq<Value>, schema: seq<FieldType>) returns (r: Result<seq<seq<FieldVal>>>)
    ensures r == DecodeArgs(args, schema)
  {
    var tuples := Raws(args);
    if tuples.Err? {
      return Err(tuples.error);
    }
    var raws := tuples.value;
    var records: seq<seq<FieldVal>> := [];
    for k := 0 to |raws|
      invariant DecodeAll(raws[..k], schema) == Ok(records)
    {
      assert raws[..k + 1][..k] == raws[..k];
      assert raws[..k + 1][k] == raws[k];
      var record := DecodeRecord(raws[k], schema);
      if record.Err? {
        assert DecodeAll(raws[..k + 1], schema) == Err(record.error);
        DecodeAllPrefixFails(raws, k + 1, schema);
        return Err(record.error);
      }
      records := records + [record.value];
    }
    assert raws[..|raws|] == raws;
    return Ok(records);
  }

  /** A failure among the first tuples fails the whole list. */
  lemma {:induction false} DecodeAllPrefixFails(raws: seq<seq<Value>>, k: nat, schema: seq<FieldType>)
    requires k <= |raws| && DecodeAll(raws[..k], schema).Err?
    ensures DecodeAll(raws, schema) == DecodeAll(raws[..k], schema)
  {
    if k < |raws| {
      assert raws[..|raws| - 1][..k] == raws[..k];
      DecodeAllPrefixFails(raws[..|raws| - 1], k, schema);
    } else {
      assert raws[..k] == raws;
    }
  }
}
