/** Snapshots of interpreter frames: `Code` and `Frame`, two attrs classes
    declared with slots, built field by field from the interpreter's
    objects, and `Frame.to_json`. A snapshot rebuilds the whole caller
    chain and shares the frame's locals dict instead of copying it. */
module Frames {
  import opened Outcomes
  import opened Values
  import opened Runtime
  import Base85
  import JsonText
  import Converter

  /** The fields of a code object a snapshot keeps. */
  datatype Code = Code(
    co_name: string,
    co_argcount: int,
    co_posonlyargcount: int,
    co_kwonlyargcount: int,
    co_nlocals: int,
    co_code: seq<Base85.Byte>,
    co_filename: string,
    co_firstlineno: int,
    co_lnotab: seq<Base85.Byte>,
    co_stacksize: int,
    co_flags: int)

  /** `Code.from_syscode(syscode)`. */
  function FromSyscode(sc: SysCode): Code
  {
    Code(sc.co_name, sc.co_argcount, sc.co_posonlyargcount, sc.co_kwonlyargcount, sc.co_nlocals,
         sc.co_code, sc.co_filename, sc.co_firstlineno, sc.co_lnotab, sc.co_stacksize, sc.co_flags)
  }

  /** A snapshot of a frame. `f_locals` is the frame's own dict. */
  datatype Frame = Frame(
    f_back: Option<Frame>,
    f_code: Code,
    f_locals: LocalsDict,
    f_lasti: int,
    f_trace: Option<Obj>,
    f_trace_lines: bool,
    f_trace_opcodes: bool,
    f_lineno: int)

  /** `Frame.from_sysframe(sysframe)`: the caller is snapshotted first,
      recursively, down to the bottom of the stack. */
  function FromSysframe(sf: SysFrame): (f: Frame)
    requires sf.Valid()
    reads sf.Chain()
    ensures f.f_back.None? <==> sf.f_back.None?
    ensures f.f_locals == sf.f_locals
    decreases sf.depth
  {
    Frame(if sf.f_back.Some? then Some(FromSysframe(sf.f_back.value)) else None,
          FromSyscode(sf.f_code), sf.f_locals, sf.f_lasti,
          sf.f_trace, sf.f_trace_lines, sf.f_trace_opcodes, sf.f_lineno)
  }

  /** The frame `k` calls below `sf`, if the stack is that deep. */
  function Ancestor(sf: SysFrame, k: nat): (a: Option<SysFrame>)
    requires sf.Valid()
    ensures a.Some? ==> a.value.Valid()
    decreases k
  {
    if k == 0 then Some(sf)
    else if sf.f_back.None? then None
    else Ancestor(sf.f_back.value, k - 1)
  }

  /** The snapshot `k` links down a snapshot's chain. */
  function Back(f: Frame, k: nat): Option<Frame>
    decreases k
  {
    if k == 0 then Some(f)
    else if f.f_back.None? then None
    else Back(f.f_back.value, k - 1)
  }

  /** The number of frames in a chain. */
  ghost function ChainLength(sf: SysFrame): nat
    requires sf.Valid()
    decreases sf.depth
  {
    if sf.f_back.None? then 1 else 1 + ChainLength(sf.f_back.value)
  }

  function Length(f: Frame): nat
  {
    if f.f_back.None? then 1 else 1 + Length(f.f_back.value)
  }

  /* ---------- properties of the snapshot builders ---------- */

  /** Every kept field is copied, and two code objects give the same
      snapshot exactly when they agree on the kept fields. */
  lemma FromSyscodeCopies(a: SysCode, b: SysCode)
    ensures var c := FromSyscode(a);
            c.co_name == a.co_name && c.co_argcount == a.co_argcount &&
            c.co_posonlyargcount == a.co_posonlyargcount && c.co_kwonlyargcount == a.co_kwonlyargcount &&
            c.co_nlocals == a.co_nlocals && c.co_code == a.co_code && c.co_filename == a.co_filename &&
            c.co_firstlineno == a.co_firstlineno && c.co_lnotab == a.co_lnotab &&
            c.co_stacksize == a.co_stacksize && c.co_flags == a.co_flags
    ensures FromSyscode(a) == FromSyscode(b) <==>
            a.co_name == b.co_name && a.co_argcount == b.co_argcount &&
            a.co_posonlyargcount == b.co_posonlyargcount && a.co_kwonlyargcount == b.co_kwonlyargcount &&
            a.co_nlocals == b.co_nlocals && a.co_code == b.co_code && a.co_filename == b.co_filename &&
            a.co_firstlineno == b.co_firstlineno && a.co_lnotab == b.co_lnotab &&
            a.co_stacksize == b.co_stacksize && a.co_flags == b.co_flags
  {
  }

  /** The snapshot of a frame holds its own copy of the frame's code and
      trace fields, and the frame's locals dict itself. */
  lemma FromSysframeFields(sf: SysFrame)
    requires sf.Valid()
    ensures var f := FromSysframe(sf);
            f.f_code == FromSyscode(sf.f_code) && f.f_locals == sf.f_locals &&
            f.f_lasti == sf.f_lasti && f.f_trace == sf.f_trace && f.f_trace_lines == sf.f_trace_lines &&
            f.f_trace_opcodes == sf.f_trace_opcodes && f.f_lineno == sf.f_lineno
  {
  }

  /** The k-th snapshot down the chain is the snapshot of the k-th frame
      down the stack, and the two chains end at the same depth. */
  lemma {:induction false} FromSysframeAncestors(sf: SysFrame, k: nat)
    requires sf.Valid()
    ensures Back(FromSysframe(sf), k).Some? <==> Ancestor(sf, k).Some?
    ensures Ancestor(sf, k).Some? ==> Back(FromSysframe(sf), k).value == FromSysframe(Ancestor(sf, k).value)
    decreases k
  {
    if k > 0 && sf.f_back.Some? {
      FromSysframeAncestors(sf.f_back.value, k - 1);
    }
  }

  /** The snapshot chain is exactly as long as the stack. */
  lemma {:induction false} FromSysframeLength(sf: SysFrame)
    requires sf.Valid()
    ensures Length(FromSysframe(sf)) == ChainLength(sf)
    ensures Ancestor(sf, ChainLength(sf)).None? && Ancestor(sf, ChainLength(sf) - 1).Some?
    decreases sf.depth
  {
    if sf.f_back.Some? {
      FromSysframeLength(sf.f_back.value);
    }
  }

  /* ---------- Frame.to_json ---------- */

  /** The locals dicts a snapshot chain refers to. */
  ghost function LocalsOf(f: Frame): set<LocalsDict>
    decreases f
  {
    {f.f_locals} + (if f.f_back.Some? then LocalsOf(f.f_back.value) else {})
  }

  /** An instance of an attrs class declared with slots, all fields set. */
  function AttrsObject(typeName: string, fields: seq<(string, Value)>): Obj
  {
    Obj(typeName, false, None, Some(Converter.FieldNames(fields) + ["__weakref__"]), fields,
        None, NotADict, [], false, false, [])
  }

  function CodeFields(c: Code): seq<(string, Value)>
  {
    [("co_name", Str(c.co_name)), ("co_argcount", Int(c.co_argcount)),
     ("co_posonlyargcount", Int(c.co_posonlyargcount)), ("co_kwonlyargcount", Int(c.co_kwonlyargcount)),
     ("co_nlocals", Int(c.co_nlocals)), ("co_code", Bytes(c.co_code)), ("co_filename", Str(c.co_filename)),
     ("co_firstlineno", Int(c.co_firstlineno)), ("co_lnotab", Bytes(c.co_lnotab)),
     ("co_stacksize", Int(c.co_stacksize)), ("co_flags", Int(c.co_flags))]
  }

  /** A dict of local variables as a value. */
  function LocalsValue(items: seq<(string, Value)>): Value
  {
    Dict(seq(|items|, i requires 0 <= i < |items| => (Str(items[i].0), items[i].1)))
  }

  function TraceValue(t: Option<Obj>): Value
  {
    if t.Some? then Object(t.value) else NoneValue
  }

  /** A snapshot as the value the converter is handed. */
  function FrameValue(f: Frame): Value
    reads LocalsOf(f)
    decreases f, 1
  {
    Object(AttrsObject("Frame", FrameFields(f)))
  }

  /** The eight fields of `Frame`, in declaration order. */
  function FrameFields(f: Frame): (fields: seq<(string, Value)>)
    reads LocalsOf(f)
    ensures |fields| == 8
    decreases f, 0
  {
    [("f_back", if f.f_back.Some? then FrameValue(f.f_back.value) else NoneValue),
     ("f_code", Object(AttrsObject("Code", CodeFields(f.f_code))))] + OtherFrameFields(f)
  }

  /** The fields of `Frame` after `f_back` and `f_code`. */
  function OtherFrameFields(f: Frame): (fields: seq<(string, Value)>)
    reads f.f_locals
  {
    [("f_locals", LocalsValue(f.f_locals.items)),
     ("f_lasti", Int(f.f_lasti)),
     ("f_trace", TraceValue(f.f_trace)),
     ("f_trace_lines", Bool(f.f_trace_lines)),
     ("f_trace_opcodes", Bool(f.f_trace_opcodes)),
     ("f_lineno", Int(f.f_lineno))]
  }

  /** `frame.to_json()`: `json.dumps(make_converter().unstructure(frame))`. */
  function ToJson(f: Frame): Result<string>
    reads LocalsOf(f)
  {
    Converter.DumpsUnstructured(FrameValue(f))
  }

  lemma FrameFieldsAreAttrs(fields: seq<(string, Value)>)
    requires |fields| == 8
    requires fields[0].0 == "f_back" && fields[1].0 == "f_code" && fields[2].0 == "f_locals" && fields[3].0 == "f_lasti"
    requires fields[4].0 == "f_trace" && fields[5].0 == "f_trace_lines" && fields[6].0 == "f_trace_opcodes"
    requires fields[7].0 == "f_lineno"
    ensures Converter.AttrsFields(fields)
  {
    forall i | 0 <= i < 8
      ensures !Converter.IsDunder(fields[i].0)
    {
      assert fields[i].0[0] == 'f';
    }
    forall i, j | 0 <= i < j < 8
      ensures fields[i].0 != fields[j].0
    {
      var a, b := fields[i].0, fields[j].0;
      assert |a| >= 4 && |b| >= 4;
      assert |a| != |b| || a[2] != b[2] || a[3] != b[3];
    }
  }

  /** Every snapshot fails to serialize: `Frame` is a slotted attrs class,
      so the fallback hands back its fields unconverted, and `json.dumps`
      stops at the first field that holds an object: the caller's
      snapshot, or else the `Code` snapshot, which every frame has. */
  lemma ToJsonAlwaysFails(f: Frame)
    ensures ToJson(f) == Err(TypeError(JsonText.NotSerializable(if f.f_back.Some? then "Frame" else "Code")))
  {
    var fields := FrameFields(f);
    FrameFieldsAreAttrs(fields);
    Converter.AttrsInstance(AttrsObject("Frame", fields), fields);
    var pairs := Converter.RawPairs(fields);
    assert fields[0].0 == "f_back" && fields[1].0 == "f_code";
    assert pairs[0] == (TStr("f_back"), Raw(fields[0].1));
    if f.f_back.Some? {
      FirstEntryUnwritable(pairs, FrameValue(f.f_back.value).obj);
    } else {
      assert pairs[1] == (TStr("f_code"), Raw(fields[1].1));
      SecondEntryUnwritable(pairs, AttrsObject("Code", CodeFields(f.f_code)));
    }
  }

  /** A dict whose first value is an object `json.dumps` cannot write. */
  lemma FirstEntryUnwritable(pairs: seq<(Tree, Tree)>, o: Obj)
    requires |pairs| >= 1 && pairs[0].0.TStr? && pairs[0].1 == Raw(Object(o))
    requires !o.isListOrTuple && o.dictKind == NotADict
    ensures JsonText.Dumps(TDict(pairs)) == Err(TypeError(JsonText.NotSerializable(o.typeName)))
  {
    assert pairs[..1][..0] == [];
    JsonText.DumpsEntriesFirstError(pairs, 1);
  }

  /** A dict whose first value is None and whose second is an object
      `json.dumps` cannot write. */
  lemma SecondEntryUnwritable(pairs: seq<(Tree, Tree)>, o: Obj)
    requires |pairs| >= 2 && pairs[0].0.TStr? && pairs[0].1 == Raw(NoneValue)
    requires pairs[1].0.TStr? && pairs[1].1 == Raw(Object(o))
    requires !o.isListOrTuple && o.dictKind == NotADict
    ensures JsonText.Dumps(TDict(pairs)) == Err(TypeError(JsonText.NotSerializable(o.typeName)))
  {
    var one, two := pairs[..1], pairs[..2];
    assert JsonText.DumpsEntries(one).Ok? by {
      assert one[..0] == [];
    }
    assert two[..1] == one;
    assert JsonText.DumpsEntries(two) == Err(TypeError(JsonText.NotSerializable(o.typeName)));
    JsonText.DumpsEntriesFirstError(pairs, 2);
  }

  /* ---------- to_json as intended: snapshots converted field by field ---------- */

  /** A list of fields converted one by one, as a dict of field name to
      value: each value goes through `make_converter`'s converter in order,
      and the first failure is the result. */
  function AsDict(fields: seq<(string, Value)>): (r: Result<seq<(Tree, Tree)>>)
    ensures r.Ok? ==> |r.value| == |fields| && (forall i :: 0 <= i < |fields| ==> r.value[i].0 == TStr(fields[i].0))
  {
    if fields == [] then Ok([])
    else match Converter.Unstructure(fields[0].1)
      case Err(e) => Err(e)
      case Ok(t) =>
        match AsDict(fields[1..])
        case Err(e) => Err(e)
        case Ok(rest) => Ok([(TStr(fields[0].0), t)] + rest)
  }

  /** A `Code` snapshot converted field by field. */
  function CodeTree(c: Code): Result<Tree>
  {
    match AsDict(CodeFields(c))
    case Err(e) => Err(e)
    case Ok(entries) => Ok(TDict(entries))
  }

  /** A `Frame` snapshot converted field by field: the caller's snapshot
      first, then the code, then the remaining fields. */
  function FrameTree(f: Frame): (r: Result<Tree>)
    reads LocalsOf(f)
    ensures r.Ok? ==> r.value.TDict? && |r.value.entries| == 8
    ensures r.Ok? ==> r.value.entries[0] == (TStr("f_back"), r.value.entries[0].1)
    ensures r.Ok? ==> (r.value.entries[0].1 == TNone <==> f.f_back.None?)
    decreases f
  {
    var back := if f.f_back.Some? then FrameTree(f.f_back.value) else Ok(TNone);
    FrameDict(back, f.f_code, AsDict(OtherFrameFields(f)))
  }

  /** The dict for one frame, from its caller's tree and its converted
      fields; the first failure in field order is the result. */
  function FrameDict(back: Result<Tree>, c: Code, other: Result<seq<(Tree, Tree)>>): (r: Result<Tree>)
    ensures r.Ok? ==> back.Ok? && other.Ok? && r.value.TDict? && |r.value.entries| == 2 + |other.value|
    ensures r.Ok? ==> r.value.entries[0] == (TStr("f_back"), back.value)
  {
    match back
    case Err(e) => Err(e)
    case Ok(bt) =>
      match CodeTree(c)
      case Err(e) => Err(e)
      case Ok(ct) =>
        match other
        case Err(e) => Err(e)
        case Ok(rest) => Ok(TDict([(TStr("f_back"), bt), (TStr("f_code"), ct)] + rest))
  }

  /** `to_json` as intended: `make_converter`'s converter turns `Frame` and
      `Code` snapshots into nested dicts field by field, and each other
      field value goes through it as usual. */
  function ToJsonFixed(f: Frame): Result<string>
    reads LocalsOf(f)
  {
    match FrameTree(f)
    case Err(e) => Err(e)
    case Ok(t) => JsonText.Dumps(t)
  }

  ghost predicate FieldsWritable(fields: seq<(string, Value)>)
  {
    forall i :: 0 <= i < |fields| ==> Converter.DumpsUnstructured(fields[i].1).Ok?
  }

  ghost predicate AllWritable(entries: seq<(Tree, Tree)>)
  {
    forall i :: 0 <= i < |entries| ==> JsonText.EntryWritable(entries[i])
  }

  /** Every frame down the chain has locals and a trace function that the
      converter and `json.dumps` can write. */
  ghost predicate Writable(f: Frame)
    reads LocalsOf(f)
    decreases f
  {
    Converter.DumpsUnstructured(LocalsValue(f.f_locals.items)).Ok? &&
    Converter.DumpsUnstructured(TraceValue(f.f_trace)).Ok? &&
    (f.f_back.Some? ==> Writable(f.f_back.value))
  }

  /** Fields converted one by one give a writable dict exactly when each
      field's value can be converted and written. */
  lemma {:induction false} AsDictWritable(fields: seq<(string, Value)>)
    ensures AsDict(fields).Ok? && AllWritable(AsDict(fields).value) <==> FieldsWritable(fields)
  {
    if fields != [] {
      var tail := fields[1..];
      AsDictWritable(tail);
      assert FieldsWritable(fields) <==>
        Converter.DumpsUnstructured(fields[0].1).Ok? && FieldsWritable(tail) by {
        forall i | 0 <= i < |tail| ensures tail[i] == fields[i + 1] { }
        if FieldsWritable(fields) {
          assert Converter.DumpsUnstructured(fields[0].1).Ok?;
        }
        if Converter.DumpsUnstructured(fields[0].1).Ok? && FieldsWritable(tail) {
          forall i | 0 <= i < |fields| ensures Converter.DumpsUnstructured(fields[i].1).Ok? {
            if i > 0 { assert fields[i] == tail[i - 1]; }
          }
        }
      }
      var h := Converter.Unstructure(fields[0].1);
      if h.Ok? && AsDict(tail).Ok? {
        var head := (TStr(fields[0].0), h.value);
        AllWritableCons(head, AsDict(tail).value);
      }
    }
  }

  lemma AllWritableCons(head: (Tree, Tree), rest: seq<(Tree, Tree)>)
    ensures AllWritable([head] + rest) <==> JsonText.EntryWritable(head) && AllWritable(rest)
  {
    var all := [head] + rest;
    assert all[0] == head;
    assert forall i :: 0 <= i < |rest| ==> all[i + 1] == rest[i];
    if JsonText.EntryWritable(head) && AllWritable(rest) {
      forall i | 0 <= i < |all| ensures JsonText.EntryWritable(all[i]) {
        if i > 0 { assert all[i] == rest[i - 1]; }
      }
    }
  }

  /** A code snapshot is always written: its fields are str, int and bytes. */
  lemma CodeTreeWritable(c: Code)
    ensures CodeTree(c).Ok? && JsonText.Dumps(CodeTree(c).value).Ok?
  {
    var fields := CodeFields(c);
    assert FieldsWritable(fields) by {
      forall i | 0 <= i < |fields| ensures Converter.DumpsUnstructured(fields[i].1).Ok? {
        ScalarWritable(fields[i].1);
      }
    }
    AsDictWritable(fields);
    JsonText.DumpsDictOk(AsDict(fields).value);
  }

  /** The remaining frame fields are written exactly when the locals and the
      trace function are. */
  lemma OtherFieldsWritable(f: Frame)
    ensures FieldsWritable(OtherFrameFields(f)) <==>
      Converter.DumpsUnstructured(LocalsValue(f.f_locals.items)).Ok? &&
      Converter.DumpsUnstructured(TraceValue(f.f_trace)).Ok?
  {
    var fields := OtherFrameFields(f);
    ScalarWritable(fields[1].1);
    ScalarWritable(fields[3].1);
    ScalarWritable(fields[4].1);
    ScalarWritable(fields[5].1);
    if Converter.DumpsUnstructured(fields[0].1).Ok? && Converter.DumpsUnstructured(fields[2].1).Ok? {
      forall i | 0 <= i < 6 ensures Converter.DumpsUnstructured(fields[i].1).Ok? { }
    }
  }

  /** str, int, bool and bytes values are always written. */
  lemma ScalarWritable(v: Value)
    requires v.Str? || v.Int? || v.Bool? || v.Bytes?
    ensures Converter.DumpsUnstructured(v).Ok?
  {
    var t := if v.Str? then TStr(v.s) else if v.Int? then TInt(v.i) else if v.Bool? then TBool(v.b)
             else TStr(Converter.UnstructureBytes(v.data));
    assert Converter.Unstructure(v) == Ok(t);
    assert JsonText.Dumps(t).Ok?;
  }

  /** A trace function is always written, as its name. */
  lemma CallableTraceWritable(o: Obj)
    requires o.isCallable
    ensures Converter.DumpsUnstructured(TraceValue(Some(o))).Ok?
  {
    Converter.CallableWins(o);
    var n := if o.name.Some? then o.name.value else Converter.UnknownName;
    var e := (TStr(n), TStr("<function " + n + ">"));
    assert JsonText.EntryWritable(e);
    assert AllWritable([e]);
    JsonText.DumpsDictOk([e]);
  }

  /** Converted field by field, a snapshot is written exactly when
      the locals and the trace function of every frame down the chain can
      be. */
  lemma {:induction false} ToJsonFixedWritable(f: Frame)
    ensures ToJsonFixed(f).Ok? <==> Writable(f)
    decreases f
  {
    var back := if f.f_back.Some? then FrameTree(f.f_back.value) else Ok(TNone);
    var other := OtherFrameFields(f);
    assert back.Ok? && JsonText.Dumps(back.value).Ok? <==> f.f_back.None? || Writable(f.f_back.value) by {
      if f.f_back.Some? {
        ToJsonFixedWritable(f.f_back.value);
        TreeWritten(f.f_back.value);
      }
    }
    AsDictWritable(other);
    OtherFieldsWritable(f);
    FrameTreeUnfold(f);
    FrameDictWritable(back, f.f_code, AsDict(other));
    TreeWritten(f);
  }

  lemma FrameTreeUnfold(f: Frame)
    ensures FrameTree(f) ==
      FrameDict(if f.f_back.Some? then FrameTree(f.f_back.value) else Ok(TNone), f.f_code, AsDict(OtherFrameFields(f)))
  {
  }

  lemma TreeWritten(f: Frame)
    ensures ToJsonFixed(f).Ok? <==> FrameTree(f).Ok? && JsonText.Dumps(FrameTree(f).value).Ok?
  {
  }

  lemma FrameDictWritable(back: Result<Tree>, c: Code, other: Result<seq<(Tree, Tree)>>)
    ensures var r := FrameDict(back, c, other);
      r.Ok? && JsonText.Dumps(r.value).Ok? <==>
      back.Ok? && JsonText.Dumps(back.value).Ok? && other.Ok? && AllWritable(other.value)
  {
    if back.Ok? && other.Ok? {
      var ct := CodeTree(c);
      CodeTreeWritable(c);
      var e0, e1 := (TStr("f_back"), back.value), (TStr("f_code"), ct.value);
      assert FrameDict(back, c, other) == Ok(TDict([e0, e1] + other.value));
      FrameDictOk(e0, e1, other.value);
    }
  }

  lemma FrameDictOk(e0: (Tree, Tree), e1: (Tree, Tree), rest: seq<(Tree, Tree)>)
    ensures JsonText.Dumps(TDict([e0, e1] + rest)).Ok? <==>
      JsonText.EntryWritable(e0) && JsonText.EntryWritable(e1) && AllWritable(rest)
  {
    JsonText.DumpsDictOk([e0, e1] + rest);
    PairWritable(e0, e1, rest);
  }

  lemma PairWritable(e0: (Tree, Tree), e1: (Tree, Tree), rest: seq<(Tree, Tree)>)
    ensures AllWritable([e0, e1] + rest) <==>
      JsonText.EntryWritable(e0) && JsonText.EntryWritable(e1) && AllWritable(rest)
  {
    AllWritableCons(e1, rest);
    assert [e0, e1] + rest == [e0] + ([e1] + rest);
    AllWritableCons(e0, [e1] + rest);
  }
}
