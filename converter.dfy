/** The converter `make_converter()` builds, as it dispatches.

    Hooks are consulted in a fixed order: the class hooks for `bytes`
    (base85 text) and `datetime` (`isoformat`) first; then the predicate
    hook `is_not_jsonable`, which claims every type other than the eight
    JSON-native ones; then the library's own hooks for those eight types,
    which pass primitives through and rebuild lists, tuples and dicts with
    their members unstructured in turn. The predicate hook's fallback is
    shallow: it returns the attribute values it finds as they are. */
module Converter {
  import opened Outcomes
  import opened Values
  import Base85
  import IsoTime
  import JsonText

  /** `is_jsonable(typ)`. */
  predicate IsJsonable(t: PyType)
  {
    t in {StrType, IntType, FloatType, BoolType, ListType, TupleType, DictType, NoneType}
  }

  /** `is_not_jsonable(typ)`, the predicate the fallback hook is registered under. */
  predicate IsNotJsonable(t: PyType)
  {
    !IsJsonable(t)
  }

  const UnknownName: string := "<unknown>"

  predicate IsDunder(name: string)
  {
    |name| >= 2 && name[..2] == "__"
  }

  /** What the fallback can observe of a value that reaches it: sets and
      frozensets have no `__slots__`, no `__dict__`, and iterate over their
      elements. */
  function Facts(v: Value): (o: Obj)
    requires IsNotJsonable(TypeOf(v)) && !v.Bytes? && !v.Datetime?
    ensures v.Object? ==> o == v.obj
  {
    match v
    case Set(items) => Obj("set", false, None, None, [], None, NotADict, [], false, true, items)
    case FrozenSet(items) => Obj("frozenset", false, None, None, [], None, NotADict, [], false, true, items)
    case Object(o) => o
  }

  /** `getattr(obj, name)` on the slots that hold a value. */
  function SlotValue(values: seq<(string, Value)>, name: string): (r: Option<Value>)
    ensures r.Some? ==> exists i :: 0 <= i < |values| && values[i] == (name, r.value)
    ensures r.None? ==> forall i :: 0 <= i < |values| ==> values[i].0 != name
  {
    if values == [] then None
    else if values[0].0 == name then Some(values[0].1)
    else SlotValue(values[1..], name)
  }

  /** The pairs of `{slot: getattr(obj, slot) for slot in obj.__slots__ if
      not slot.startswith('__')}`, or the AttributeError of the first slot
      that holds no value. */
  function SlotPairs(slots: seq<string>, values: seq<(string, Value)>): (r: Result<seq<(Tree, Tree)>>)
  {
    if slots == [] then Ok([])
    else match SlotPairs(slots[..|slots| - 1], values)
      case Err(e) => Err(e)
      case Ok(init) =>
        var slot := slots[|slots| - 1];
        if IsDunder(slot) then Ok(init)
        else match SlotValue(values, slot)
          case None => Err(AttributeError(slot))
          case Some(x) => Ok(init + [(TStr(slot), Raw(x))])
  }

  /** The pairs of `{k: v for k, v in obj.__dict__.items() if not
      k.startswith('__')}`. */
  function AttributePairs(d: seq<(string, Value)>): (r: seq<(Tree, Tree)>)
    ensures |r| <= |d|
  {
    if d == [] then []
    else
      var init := AttributePairs(d[..|d| - 1]);
      var (k, x) := d[|d| - 1];
      if IsDunder(k) then init else init + [(TStr(k), Raw(x))]
  }

  /** `unstructure_not_jsonable(obj)`: the first branch that applies wins. */
  function UnstructureNotJsonable(o: Obj): Result<Tree>
  {
    if o.isCallable then
      var name := if o.name.Some? then o.name.value else UnknownName;
      Ok(TDict([(TStr(name), TStr("<function " + name + ">"))]))
    else if o.slots.Some? then
      match SlotPairs(o.slots.value, o.slotValues)
      case Err(e) => Err(e)
      case Ok(pairs) => Ok(TDict(BuildDict(pairs)))
    else if o.instanceDict.Some? then
      Ok(TDict(BuildDict(AttributePairs(o.instanceDict.value))))
    else if o.dictKind == DefaultDict then
      Ok(TDict(BuildDict(seq(|o.mappingItems|, i requires 0 <= i < |o.mappingItems| =>
        (Raw(o.mappingItems[i].0), Raw(o.mappingItems[i].1))))))
    else if o.isIterable then
      Ok(TList(seq(|o.iteration|, i requires 0 <= i < |o.iteration| => Raw(o.iteration[i]))))
    else
      Ok(TDict([]))
  }

  /** `unstructure_bytes(b)`. */
  function UnstructureBytes(b: seq<Base85.Byte>): string
  {
    if |b| == 0 then "" else Base85.Encode(b)
  }

  /** `unstructure_datetime(dt)`. */
  function UnstructureDatetime(dt: IsoTime.DateTime): string
  {
    IsoTime.IsoFormat(dt)
  }

  /** `converter.unstructure(v)`. */
  function Unstructure(v: Value): Result<Tree>
    decreases v, 1
  {
    if v.Bytes? then Ok(TStr(UnstructureBytes(v.data)))
    else if v.Datetime? then Ok(TStr(UnstructureDatetime(v.dt)))
    else if IsNotJsonable(TypeOf(v)) then UnstructureNotJsonable(Facts(v))
    else UnstructureJsonable(v)
  }

  /** The library's own hooks for the eight JSON-native types. */
  function UnstructureJsonable(v: Value): Result<Tree>
    requires IsJsonable(TypeOf(v))
    decreases v, 0
  {
    match v
    case Str(s) => Ok(TStr(s))
    case Int(i) => Ok(TInt(i))
    case Flt(f) => Ok(TFloat(f))
    case Bool(b) => Ok(TBool(b))
    case NoneValue => Ok(TNone)
    case List(items) =>
      (match UnstructureItems(items)
       case Err(e) => Err(e)
       case Ok(ts) => Ok(TList(ts)))
    case Tuple(items) =>
      (match UnstructureItems(items)
       case Err(e) => Err(e)
       case Ok(ts) => Ok(TList(ts)))
    case Dict(entries) =>
      (match UnstructureEntries(entries)
       case Err(e) => Err(e)
       case Ok(pairs) => Ok(TDict(BuildDict(pairs))))
  }

  function UnstructureItems(items: seq<Value>): (r: Result<seq<Tree>>)
    ensures r.Ok? ==> |r.value| == |items|
    decreases items, 2
  {
    if items == [] then Ok([])
    else match UnstructureItems(items[..|items| - 1])
      case Err(e) => Err(e)
      case Ok(init) =>
        match Unstructure(items[|items| - 1])
        case Err(e) => Err(e)
        case Ok(last) => Ok(init + [last])
  }

  /** Each key, then its value, is unstructured; a key that comes out as a
      list or dict cannot be stored in the new dict. */
  function UnstructureEntries(entries: seq<(Value, Value)>): (r: Result<seq<(Tree, Tree)>>)
    ensures r.Ok? ==> |r.value| == |entries|
    decreases entries, 2
  {
    if entries == [] then Ok([])
    else match UnstructureEntries(entries[..|entries| - 1])
      case Err(e) => Err(e)
      case Ok(init) =>
        var entry := entries[|entries| - 1];
        assert entry in entries && entry.0 < entry && entry.1 < entry;
        match Unstructure(entry.0)
        case Err(e) => Err(e)
        case Ok(k) =>
          match Unstructure(entry.1)
          case Err(e) => Err(e)
          case Ok(x) =>
            if Hashable(k) then Ok(init + [(k, x)])
            else Err(TypeError("unhashable type: '" + (if k.TList? then "list" else "dict") + "'"))
  }

  /** `json.dumps(converter.unstructure(v))`. */
  function DumpsUnstructured(v: Value): Result<string>
  {
    match Unstructure(v)
    case Err(e) => Err(e)
    case Ok(t) => JsonText.Dumps(t)
  }

  /* ---------- properties ---------- */

  /** Bytes come out as a JSON string holding their base85 text unescaped,
      and that text decodes back to the same bytes. */
  lemma DumpsBytes(b: seq<Base85.Byte>)
    ensures DumpsUnstructured(Bytes(b)) == Ok("\"" + UnstructureBytes(b) + "\"")
    ensures Base85.Decode(UnstructureBytes(b)) == Ok(b)
  {
    var text := UnstructureBytes(b);
    if |b| > 0 {
      assert text == Base85.Encode(b);
      Base85.EncodePlain(b);
    } else {
      assert text == [];
    }
    assert forall i :: 0 <= i < |text| ==> JsonText.Printable(text[i]) && text[i] != '"' && text[i] != '\\';
    JsonText.EscapeAllPlain(text);
    assert Unstructure(Bytes(b)) == Ok(TStr(text));
    Base85.DecodeEncode(b);
  }

  /** A datetime comes out as a JSON string holding its `isoformat` text
      unescaped; for a valid datetime that text parses back to it. */
  lemma DumpsDatetime(dt: IsoTime.DateTime)
    ensures DumpsUnstructured(Datetime(dt)) == Ok("\"" + IsoTime.IsoFormat(dt) + "\"")
    ensures dt.Valid() ==> IsoTime.ParseIso(UnstructureDatetime(dt)) == Ok(dt)
  {
    IsoTime.IsoFormatPlain(dt);
    JsonText.EscapeAllPlain(IsoTime.IsoFormat(dt));
    if dt.Valid() {
      IsoTime.ParseIsoFormat(dt);
    }
  }

  /** A callable is written as a one-entry dict naming it, whatever else it
      has: `__slots__`, `__dict__` and iteration are never consulted. */
  lemma CallableWins(o: Obj)
    requires o.isCallable
    ensures var n := if o.name.Some? then o.name.value else UnknownName;
            Unstructure(Object(o)) == Ok(TDict([(TStr(n), TStr("<function " + n + ">"))]))
  {
  }

  /** The text of a callable whose name needs no escaping. */
  lemma DumpsCallable(o: Obj, n: string)
    requires o.isCallable && n == (if o.name.Some? then o.name.value else UnknownName)
    requires forall i :: 0 <= i < |n| ==> JsonText.Printable(n[i]) && n[i] != '"' && n[i] != '\\'
    ensures DumpsUnstructured(Object(o)) == Ok("{\"" + n + "\": \"<function " + n + ">\"}")
  {
    var text := "<function " + n + ">";
    CallableWins(o);
    JsonText.EscapeAllPlain(n);
    FunctionTextPlain(n);
    JsonText.EscapeAllPlain(text);
    JsonText.OneEntryDict(n, TStr(text), "\"" + text + "\"");
    CallableText(n);
  }

  lemma FunctionTextPlain(n: string)
    requires forall i :: 0 <= i < |n| ==> JsonText.Printable(n[i]) && n[i] != '"' && n[i] != '\\'
    ensures var text := "<function " + n + ">";
            forall i :: 0 <= i < |text| ==> JsonText.Printable(text[i]) && text[i] != '"' && text[i] != '\\'
  {
    var text := "<function " + n + ">";
    forall i | 0 <= i < |text|
      ensures JsonText.Printable(text[i]) && text[i] != '"' && text[i] != '\\'
    {
      if 10 <= i < 10 + |n| {
        assert text[i] == n[i - 10];
      }
    }
  }

  lemma CallableText(n: string)
    ensures "{" + ("\"" + n + "\"") + ": " + ("\"" + ("<function " + n + ">") + "\"") + "}"
         == "{\"" + n + "\": \"<function " + n + ">\"}"
  {
  }

  /** Data made of JSON-native values only: primitives, lists and tuples of
      such data, and dicts with primitive keys and such data as values. */
  ghost predicate PlainJson(v: Value)
    decreases v
  {
    match v
    case List(items) => forall x :: x in items ==> PlainJson(x)
    case Tuple(items) => forall x :: x in items ==> PlainJson(x)
    case Dict(entries) =>
      DistinctValueKeys(entries) &&
      forall e :: e in entries ==> PrimitiveKey(e.0) && (assert e.1 < e; PlainJson(e.1))
    case _ => PrimitiveKey(v)
  }

  ghost predicate PlainEntries(entries: seq<(Value, Value)>)
  {
    PlainJson(Dict(entries))
  }

  /** The converter leaves JSON-native data as it is: dumping what it
      returns gives the same text as dumping the data itself. */
  lemma {:induction false} UnstructurePlain(v: Value)
    requires PlainJson(v)
    ensures Unstructure(v).Ok?
    ensures JsonText.Dumps(Unstructure(v).value) == JsonText.DumpsValue(v)
    decreases v, 1
  {
    match v
    case List(_) =>
      UnstructurePlainSeq(v);
    case Tuple(_) =>
      UnstructurePlainSeq(v);
    case Dict(entries) =>
      UnstructurePlainDict(entries);
    case _ =>
      PrimitivePlain(v);
  }

  lemma {:induction false} UnstructurePlainSeq(v: Value)
    requires (v.List? || v.Tuple?) && PlainJson(v)
    ensures Unstructure(v).Ok?
    ensures JsonText.Dumps(Unstructure(v).value) == JsonText.DumpsValue(v)
    decreases v, 0
  {
    UnstructurePlainItems(v.items);
    var ts := UnstructureItems(v.items).value;
    assert IsJsonable(TypeOf(v));
    assert Unstructure(v) == Ok(TList(ts));
  }

  /** A primitive comes out as its own tree, written as the value is. */
  lemma PrimitivePlain(v: Value)
    requires PrimitiveKey(v)
    ensures Unstructure(v) == Ok(KeyTree(v))
    ensures JsonText.Dumps(KeyTree(v)) == JsonText.DumpsValue(v)
  {
    assert IsJsonable(TypeOf(v));
  }

  lemma {:induction false} UnstructurePlainDict(entries: seq<(Value, Value)>)
    requires PlainJson(Dict(entries))
    ensures Unstructure(Dict(entries)).Ok?
    ensures JsonText.Dumps(Unstructure(Dict(entries)).value) == JsonText.DumpsObject(entries)
    decreases Dict(entries), 0
  {
    UnstructurePlainEntries(entries);
    var pairs := UnstructureEntries(entries).value;
    KeyTreesDistinct(entries, pairs);
    BuildDictOfDistinct(pairs);
    DictTree(entries, pairs);
    DictText(entries, pairs);
  }

  /** A dict whose entries unstructure to pairs with distinct keys comes out
      as a dict of exactly those pairs. */
  lemma DictTree(entries: seq<(Value, Value)>, pairs: seq<(Tree, Tree)>)
    requires UnstructureEntries(entries) == Ok(pairs) && BuildDict(pairs) == pairs
    ensures Unstructure(Dict(entries)) == Ok(TDict(pairs))
  {
    assert IsJsonable(TypeOf(Dict(entries)));
    assert Unstructure(Dict(entries)) == UnstructureJsonable(Dict(entries));
  }

  lemma DictText(entries: seq<(Value, Value)>, pairs: seq<(Tree, Tree)>)
    requires JsonText.DumpsEntries(pairs) == JsonText.DumpsValueEntries(entries)
    ensures JsonText.Dumps(TDict(pairs)) == JsonText.DumpsObject(entries)
  {
  }

  lemma KeyTreesDistinct(entries: seq<(Value, Value)>, pairs: seq<(Tree, Tree)>)
    requires DistinctValueKeys(entries) && |pairs| == |entries|
    requires forall i :: 0 <= i < |entries| ==> pairs[i].0 == KeyTree(entries[i].0)
    ensures DistinctKeys(pairs)
  {
    forall i, j | 0 <= i < j < |pairs|
      ensures !SameKey(pairs[i].0, pairs[j].0)
    {
      assert pairs[i].0 == KeyTree(entries[i].0) && pairs[j].0 == KeyTree(entries[j].0);
    }
  }

  lemma {:induction false} UnstructurePlainItems(items: seq<Value>)
    requires forall x :: x in items ==> PlainJson(x)
    ensures UnstructureItems(items).Ok?
    ensures JsonText.DumpsItems(UnstructureItems(items).value) == JsonText.DumpsValues(items)
    decreases items, 2
  {
    if items != [] {
      var init, last := items[..|items| - 1], items[|items| - 1];
      assert forall x :: x in init ==> x in items;
      UnstructurePlainItems(init);
      UnstructurePlain(last);
      var ts := UnstructureItems(init).value;
      var t := Unstructure(last).value;
      assert UnstructureItems(items).value == ts + [t];
      assert (ts + [t])[..|ts|] == ts;
    }
  }

  /** A primitive key comes out as the matching tree, and is written the
      same way on both sides. */
  lemma PrimitiveKeyTree(k: Value)
    requires PrimitiveKey(k)
    ensures Unstructure(k) == Ok(KeyTree(k)) && Hashable(KeyTree(k))
    ensures JsonText.KeyText(KeyTree(k)) == JsonText.ValueKeyText(k)
  {
  }

  /** Dropping the last entry of a plain dict leaves a plain dict. */
  lemma PlainInit(entries: seq<(Value, Value)>)
    requires PlainJson(Dict(entries)) && entries != []
    ensures PlainJson(Dict(entries[..|entries| - 1]))
    ensures PrimitiveKey(entries[|entries| - 1].0) && PlainJson(entries[|entries| - 1].1)
  {
    var init := entries[..|entries| - 1];
    assert forall e :: e in init ==> e in entries;
    assert entries[|entries| - 1] in entries;
    assert DistinctValueKeys(init) by {
      forall i, j | 0 <= i < j < |init|
        ensures !SameKey(KeyTree(init[i].0), KeyTree(init[j].0))
      {
        assert init[i] == entries[i] && init[j] == entries[j];
      }
    }
  }

  lemma {:induction false} UnstructurePlainEntries(entries: seq<(Value, Value)>)
    requires PlainEntries(entries)
    ensures UnstructureEntries(entries).Ok?
    ensures var pairs := UnstructureEntries(entries).value;
            forall i :: 0 <= i < |entries| ==> pairs[i].0 == KeyTree(entries[i].0)
    ensures JsonText.DumpsEntries(UnstructureEntries(entries).value) == JsonText.DumpsValueEntries(entries)
    decreases entries, 2
  {
    if entries != [] {
      var init, entry := entries[..|entries| - 1], entries[|entries| - 1];
      assert entry in entries && entry.1 < entry;
      PlainInit(entries);
      UnstructurePlainEntries(init);
      UnstructurePlain(entry.1);
      EntriesStep(entries);
    }
  }

  /** The step of the induction above: one more plain entry. */
  lemma EntriesStep(entries: seq<(Value, Value)>)
    requires entries != []
    requires var init := entries[..|entries| - 1];
             UnstructureEntries(init).Ok? &&
             (forall i :: 0 <= i < |init| ==> UnstructureEntries(init).value[i].0 == KeyTree(init[i].0)) &&
             JsonText.DumpsEntries(UnstructureEntries(init).value) == JsonText.DumpsValueEntries(init)
    requires PrimitiveKey(entries[|entries| - 1].0) && Unstructure(entries[|entries| - 1].1).Ok?
    requires JsonText.Dumps(Unstructure(entries[|entries| - 1].1).value) == JsonText.DumpsValue(entries[|entries| - 1].1)
    ensures UnstructureEntries(entries).Ok?
    ensures var pairs := UnstructureEntries(entries).value;
            forall i :: 0 <= i < |entries| ==> pairs[i].0 == KeyTree(entries[i].0)
    ensures JsonText.DumpsEntries(UnstructureEntries(entries).value) == JsonText.DumpsValueEntries(entries)
  {
    var init, entry := entries[..|entries| - 1], entries[|entries| - 1];
    PrimitiveKeyTree(entry.0);
    var ps := UnstructureEntries(init).value;
    var k := KeyTree(entry.0);
    var x := Unstructure(entry.1).value;
    EntriesTree(entries, ps, k, x);
    EntriesText(entries, ps, k, x);
    var pairs := ps + [(k, x)];
    forall i | 0 <= i < |entries|
      ensures pairs[i].0 == KeyTree(entries[i].0)
    {
      if i < |init| {
        assert pairs[i] == ps[i] && entries[i] == init[i];
      }
    }
  }

  /** One more entry, unstructured. */
  lemma EntriesTree(entries: seq<(Value, Value)>, ps: seq<(Tree, Tree)>, k: Tree, x: Tree)
    requires entries != [] && UnstructureEntries(entries[..|entries| - 1]) == Ok(ps)
    requires Unstructure(entries[|entries| - 1].0) == Ok(k) && Hashable(k)
    requires Unstructure(entries[|entries| - 1].1) == Ok(x)
    ensures UnstructureEntries(entries) == Ok(ps + [(k, x)])
  {
  }

  /** One more entry, written the same way on both sides. */
  lemma EntriesText(entries: seq<(Value, Value)>, ps: seq<(Tree, Tree)>, k: Tree, x: Tree)
    requires entries != [] && JsonText.DumpsEntries(ps) == JsonText.DumpsValueEntries(entries[..|entries| - 1])
    requires JsonText.KeyText(k) == JsonText.ValueKeyText(entries[|entries| - 1].0)
    requires JsonText.Dumps(x) == JsonText.DumpsValue(entries[|entries| - 1].1)
    ensures JsonText.DumpsEntries(ps + [(k, x)]) == JsonText.DumpsValueEntries(entries)
  {
    assert (ps + [(k, x)])[..|ps|] == ps;
  }

  /** `is_jsonable` holds of exactly eight kinds of value; every other
      value, sets and objects included, reaches the fallback hook unless
      it is bytes or a datetime. */
  lemma JsonableKinds(v: Value)
    ensures IsJsonable(TypeOf(v)) <==>
      v.Str? || v.Int? || v.Flt? || v.Bool? || v.NoneValue? || v.List? || v.Tuple? || v.Dict?
  {
  }

  /** The fallback answers from the first branch that applies: the fields
      later branches read make no difference. */
  lemma FirstMatchWins(o: Obj, p: Obj)
    ensures o.isCallable && p.isCallable && o.name == p.name ==>
              UnstructureNotJsonable(o) == UnstructureNotJsonable(p)
    ensures !o.isCallable && !p.isCallable && o.slots.Some? && o.slots == p.slots && o.slotValues == p.slotValues ==>
              UnstructureNotJsonable(o) == UnstructureNotJsonable(p)
    ensures !o.isCallable && !p.isCallable && o.slots.None? && p.slots.None? &&
            o.instanceDict.Some? && o.instanceDict == p.instanceDict ==>
              UnstructureNotJsonable(o) == UnstructureNotJsonable(p)
    ensures !o.isCallable && !p.isCallable && o.slots.None? && p.slots.None? &&
            o.instanceDict.None? && p.instanceDict.None? &&
            o.dictKind == DefaultDict && p.dictKind == DefaultDict && o.mappingItems == p.mappingItems ==>
              UnstructureNotJsonable(o) == UnstructureNotJsonable(p)
    ensures !o.isCallable && !p.isCallable && o.slots.None? && p.slots.None? &&
            o.instanceDict.None? && p.instanceDict.None? &&
            o.dictKind != DefaultDict && p.dictKind != DefaultDict &&
            o.isIterable && p.isIterable && o.iteration == p.iteration ==>
              UnstructureNotJsonable(o) == UnstructureNotJsonable(p)
    ensures !o.isCallable && o.slots.None? && o.instanceDict.None? && o.dictKind != DefaultDict && !o.isIterable ==>
              UnstructureNotJsonable(o) == Ok(TDict([]))
  {
  }

  /** The attributes taken from `__dict__`: exactly its entries whose name
      does not start with `__`, each with its value as it is, in order. */
  lemma {:induction false} DictAttributes(d: seq<(string, Value)>)
    ensures forall k, x :: (TStr(k), Raw(x)) in AttributePairs(d) <==> (k, x) in d && !IsDunder(k)
    ensures forall p :: p in AttributePairs(d) ==> p.0.TStr? && p.1.Raw?
  {
    if d != [] {
      var init, last := d[..|d| - 1], d[|d| - 1];
      DictAttributes(init);
      assert d == init + [last];
      var r := AttributePairs(d);
      assert r == if IsDunder(last.0) then AttributePairs(init) else AttributePairs(init) + [(TStr(last.0), Raw(last.1))];
      forall k, x
        ensures (TStr(k), Raw(x)) in r <==> (k, x) in d && !IsDunder(k)
      {
        assert (k, x) in d <==> (k, x) in init || (k, x) == last;
      }
    }
  }

  /** The positions of `d` whose name does not start with `__`, in
      increasing order. */
  function KeptPositions(d: seq<(string, Value)>): (ks: seq<nat>)
    ensures forall i :: 0 <= i < |ks| ==> ks[i] < |d| && !IsDunder(d[ks[i]].0)
    ensures forall i, j :: 0 <= i < j < |ks| ==> ks[i] < ks[j]
    ensures forall p :: 0 <= p < |d| && !IsDunder(d[p].0) ==> p in ks
  {
    if d == [] then []
    else
      var init := KeptPositions(d[..|d| - 1]);
      assert forall i :: 0 <= i < |init| ==> d[..|d| - 1][init[i]] == d[init[i]];
      if IsDunder(d[|d| - 1].0) then init else init + [|d| - 1]
  }

  /** The attributes keep the order of `__dict__`: the i-th one comes from
      the i-th position whose name does not start with `__`. */
  lemma {:induction false} DictAttributesInOrder(d: seq<(string, Value)>)
    ensures var r, ks := AttributePairs(d), KeptPositions(d);
      |r| == |ks| && forall i :: 0 <= i < |r| ==> r[i] == (TStr(d[ks[i]].0), Raw(d[ks[i]].1))
  {
    if d != [] {
      var init := d[..|d| - 1];
      DictAttributesInOrder(init);
      var ri, ki := AttributePairs(init), KeptPositions(init);
      forall i | 0 <= i < |ki|
        ensures ri[i] == (TStr(d[ki[i]].0), Raw(d[ki[i]].1))
      {
        assert init[ki[i]] == d[ki[i]];
      }
    }
  }

  /** Attribute names are distinct, so every attribute survives into the
      dict the fallback builds. */
  lemma {:induction false} DictAttributesKept(d: seq<(string, Value)>)
    requires forall i, j :: 0 <= i < j < |d| ==> d[i].0 != d[j].0
    ensures BuildDict(AttributePairs(d)) == AttributePairs(d)
  {
    AttributeNamesDistinct(d);
    BuildDictOfDistinct(AttributePairs(d));
  }

  lemma {:induction false} AttributeNamesDistinct(d: seq<(string, Value)>)
    requires forall i, j :: 0 <= i < j < |d| ==> d[i].0 != d[j].0
    ensures DistinctKeys(AttributePairs(d))
  {
    if d != [] {
      var init := d[..|d| - 1];
      AttributeNamesDistinct(init);
      DictAttributes(init);
      var (k, x) := d[|d| - 1];
      if !IsDunder(k) {
        var r := AttributePairs(d);
        forall i, j | 0 <= i < j < |r|
          ensures !SameKey(r[i].0, r[j].0)
        {
          if j == |r| - 1 {
            assert r[i] in AttributePairs(init);
            var k' := r[i].0.s;
            assert (TStr(k'), Raw(r[i].1.v)) in AttributePairs(init);
            assert (k', r[i].1.v) in init;
            var m :| 0 <= m < |init| && init[m] == (k', r[i].1.v);
            assert d[m].0 != d[|d| - 1].0;
          }
        }
      }
    }
  }

  /** A set or frozenset becomes the list of its elements, as they are:
      the elements are not converted. */
  lemma SetsBecomeRawLists(items: seq<Value>)
    ensures Unstructure(Set(items)).Ok? && Unstructure(FrozenSet(items)).Ok?
    ensures Unstructure(Set(items)) == Unstructure(FrozenSet(items))
    ensures var t := Unstructure(Set(items)).value;
            t.TList? && |t.items| == |items| && forall i :: 0 <= i < |items| ==> t.items[i] == Raw(items[i])
  {
    assert Facts(Set(items)).iteration == items;
    assert Facts(FrozenSet(items)).iteration == items;
  }

  /** So a set holding bytes cannot be dumped, although bytes alone can. */
  lemma SetOfBytesFails(b: seq<Base85.Byte>)
    ensures DumpsUnstructured(Set([Bytes(b)])) == Err(TypeError(JsonText.NotSerializable("bytes")))
    ensures DumpsUnstructured(Bytes(b)).Ok?
  {
    DumpsBytes(b);
    SetsBecomeRawLists([Bytes(b)]);
    var items := Unstructure(Set([Bytes(b)])).value.items;
    assert items == [Raw(Bytes(b))];
    RawBytesFail(items, b);
  }

  lemma RawBytesFail(items: seq<Tree>, b: seq<Base85.Byte>)
    requires items == [Raw(Bytes(b))]
    ensures JsonText.Dumps(TList(items)) == Err(TypeError(JsonText.NotSerializable("bytes")))
  {
    assert items[..0] == [];
    assert JsonText.DumpsValue(Bytes(b)) == Err(TypeError(JsonText.NotSerializable("bytes")));
    assert JsonText.DumpsItems(items) == Err(TypeError(JsonText.NotSerializable("bytes")));
  }

  /** A `Counter` has a `__dict__` (empty) before it is a dict: its items
      are never read, whatever they are. */
  lemma CounterLosesItems(o: Obj)
    requires !o.isCallable && o.slots.None? && o.instanceDict == Some([])
    ensures DumpsUnstructured(Object(o)) == Ok("{}")
  {
    assert AttributePairs([]) == [];
    assert Unstructure(Object(o)) == Ok(TDict([]));
    JsonText.EmptyContainers();
  }

  /** The converter as the documentation of `configure_converter` describes
      it for counters: an instance of a dict subclass is converted as the
      dict of its items, and every other value as before. */
  function UnstructureDocumented(v: Value): Result<Tree>
  {
    if v.Object? && v.obj.dictKind == DictSubclass then Unstructure(Dict(v.obj.mappingItems))
    else Unstructure(v)
  }

  /** Converted that way, a counter whose items are plain JSON data is
      written exactly as the dict of those items, whatever its `__dict__`. */
  lemma CounterKeepsItems(o: Obj)
    requires o.dictKind == DictSubclass && PlainJson(Dict(o.mappingItems))
    ensures UnstructureDocumented(Object(o)).Ok?
    ensures JsonText.Dumps(UnstructureDocumented(Object(o)).value) == JsonText.DumpsValue(Dict(o.mappingItems))
  {
    UnstructurePlain(Dict(o.mappingItems));
  }

  /* ---------- attrs classes with slots ---------- */

  /** The names of an instance's fields, in declaration order. */
  function FieldNames(fields: seq<(string, Value)>): (names: seq<string>)
    ensures |names| == |fields| && forall i :: 0 <= i < |fields| ==> names[i] == fields[i].0
  {
    seq(|fields|, i requires 0 <= i < |fields| => fields[i].0)
  }

  /** Each field as a str key with its value as it is. */
  function RawPairs(fields: seq<(string, Value)>): (pairs: seq<(Tree, Tree)>)
    ensures |pairs| == |fields|
    ensures forall i :: 0 <= i < |fields| ==> pairs[i] == (TStr(fields[i].0), Raw(fields[i].1))
  {
    seq(|fields|, i requires 0 <= i < |fields| => (TStr(fields[i].0), Raw(fields[i].1)))
  }

  /** Field names as an attrs class has them: distinct, none starting with `__`. */
  ghost predicate AttrsFields(fields: seq<(string, Value)>)
  {
    (forall i, j :: 0 <= i < j < |fields| ==> fields[i].0 != fields[j].0) &&
    forall i :: 0 <= i < |fields| ==> !IsDunder(fields[i].0)
  }

  lemma SlotValueAt(fields: seq<(string, Value)>, k: nat)
    requires AttrsFields(fields) && k < |fields|
    ensures SlotValue(fields, fields[k].0) == Some(fields[k].1)
  {
  }

  lemma {:induction false} SlotPairsPrefix(fields: seq<(string, Value)>, k: nat)
    requires AttrsFields(fields) && k <= |fields|
    ensures SlotPairs(FieldNames(fields)[..k], fields) == Ok(RawPairs(fields)[..k])
  {
    if k > 0 {
      var slots := FieldNames(fields)[..k];
      assert slots[..k - 1] == FieldNames(fields)[..k - 1];
      SlotPairsPrefix(fields, k - 1);
      SlotValueAt(fields, k - 1);
      assert RawPairs(fields)[..k] == RawPairs(fields)[..k - 1] + [RawPairs(fields)[k - 1]];
    }
  }

  /** An instance of an attrs class declared with slots, every field set:
      its `__slots__` lists the fields and then `__weakref__`, and the
      fallback gives the fields in order with their values as they are. */
  lemma AttrsInstance(o: Obj, fields: seq<(string, Value)>)
    requires AttrsFields(fields)
    requires !o.isCallable && o.slots == Some(FieldNames(fields) + ["__weakref__"]) && o.slotValues == fields
    ensures Unstructure(Object(o)) == Ok(TDict(RawPairs(fields)))
  {
    AttrsSlotPairs(fields);
    RawPairsDistinct(fields);
    BuildDictOfDistinct(RawPairs(fields));
    SlottedObject(o, RawPairs(fields));
  }

  /** The slots branch, reached by a non-callable object with `__slots__`. */
  lemma SlottedObject(o: Obj, pairs: seq<(Tree, Tree)>)
    requires !o.isCallable && o.slots.Some? && SlotPairs(o.slots.value, o.slotValues) == Ok(pairs)
    requires BuildDict(pairs) == pairs
    ensures Unstructure(Object(o)) == Ok(TDict(pairs))
  {
    assert IsNotJsonable(TypeOf(Object(o)));
    assert Facts(Object(o)) == o;
    assert UnstructureNotJsonable(o) == Ok(TDict(pairs));
  }

  lemma AttrsSlotPairs(fields: seq<(string, Value)>)
    requires AttrsFields(fields)
    ensures SlotPairs(FieldNames(fields) + ["__weakref__"], fields) == Ok(RawPairs(fields))
  {
    var names := FieldNames(fields);
    SlotPairsPrefix(fields, |fields|);
    assert names[..|names|] == names;
    assert RawPairs(fields)[..|fields|] == RawPairs(fields);
    assert (names + ["__weakref__"])[..|names|] == names;
    assert IsDunder("__weakref__");
  }

  lemma RawPairsDistinct(fields: seq<(string, Value)>)
    requires AttrsFields(fields)
    ensures DistinctKeys(RawPairs(fields))
  {
    var pairs := RawPairs(fields);
    forall i, j | 0 <= i < j < |pairs|
      ensures !SameKey(pairs[i].0, pairs[j].0)
    {
      assert fields[i].0 != fields[j].0;
    }
  }
}
