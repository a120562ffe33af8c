/** The expected outputs of `json.dumps(converter.unstructure(x))` for the
    values the converter's test module tries. */
module ConverterExamples {
  import opened Outcomes
  import opened Values
  import opened Converter
  import JsonText
  import Decimal
  import Base85
  import IsoTime

  lemma Integers()
    ensures DumpsUnstructured(Int(1)) == Ok("1")
    ensures DumpsUnstructured(Int(0)) == Ok("0")
    ensures DumpsUnstructured(Int(-1)) == Ok("-1")
  {
    JsonText.ShowDigit(1);
    JsonText.ShowDigit(0);
  }

  lemma Floats()
    ensures DumpsUnstructured(Flt(Finite("3.13"))) == Ok("3.13")
    ensures DumpsUnstructured(Flt(Finite("1e+100"))) == Ok("1e+100")
    ensures DumpsUnstructured(Flt(Finite("1e-100"))) == Ok("1e-100")
    ensures DumpsUnstructured(Flt(PosInf)) == Ok("Infinity")
    ensures DumpsUnstructured(Flt(NegInf)) == Ok("-Infinity")
    ensures DumpsUnstructured(Flt(NaN)) == Ok("NaN")
  {
  }

  lemma Bools()
    ensures DumpsUnstructured(Bool(true)) == Ok("true")
    ensures DumpsUnstructured(Bool(false)) == Ok("false")
  {
  }

  lemma Strings()
    ensures DumpsUnstructured(Str("a")) == Ok("\"a\"")
  {
    assert Unstructure(Str("a")) == Ok(TStr("a"));
    JsonText.EscapeAllPlain("a");
    var q: string := "\"" + "a" + "\"";
    assert q == "\"a\"";
  }

  /** An object with neither `__slots__`, `__dict__` nor `__iter__`. */
  function Bare(typeName: string): Obj
  {
    Obj(typeName, false, None, None, [], None, NotADict, [], false, false, [])
  }

  lemma EmptySequences()
    ensures DumpsUnstructured(Tuple([])) == Ok("[]")
    ensures DumpsUnstructured(List([])) == Ok("[]")
  {
    JsonText.EmptyContainers();
  }

  lemma EmptySets()
    ensures DumpsUnstructured(Set([])) == Ok("[]")
    ensures DumpsUnstructured(FrozenSet([])) == Ok("[]")
  {
    JsonText.EmptyContainers();
  }

  lemma EmptyDict()
    ensures DumpsUnstructured(Dict([])) == Ok("{}")
  {
    JsonText.EmptyContainers();
  }

  /** `Counter()`: a dict subclass whose instances have a `__dict__`. */
  lemma EmptyCounter()
    ensures DumpsUnstructured(Object(Bare("Counter").(instanceDict := Some([]), dictKind := DictSubclass,
      isIterable := true))) == Ok("{}")
  {
    JsonText.EmptyContainers();
  }

  /** `defaultdict()`: a dict subclass without a `__dict__`. */
  lemma EmptyDefaultDict()
    ensures DumpsUnstructured(Object(Bare("defaultdict").(dictKind := DefaultDict, isIterable := true))) == Ok("{}")
  {
    JsonText.EmptyContainers();
  }

  /** `object()` and an instance of a class without attributes. */
  lemma PlainObjects()
    ensures DumpsUnstructured(Object(Bare("object"))) == Ok("{}")
    ensures DumpsUnstructured(Object(Bare("A").(instanceDict := Some([])))) == Ok("{}")
  {
    JsonText.EmptyContainers();
  }

  /** `b'123'`. */
  lemma BytesExample(b: seq<Base85.Byte>)
    requires b == [49, 50, 51]
    ensures DumpsUnstructured(Bytes(b)) == Ok("\"F)}j\"")
  {
    DumpsBytes(b);
    Base85.EncodeExample();
    QuotedBytes(UnstructureBytes(b));
  }

  lemma QuotedBytes(s: string)
    requires s == "F)}j"
    ensures "\"" + s + "\"" == "\"F)}j\""
  {
  }

  /** `b''` is written as the empty string, not passed to the encoder. */
  lemma EmptyBytes()
    ensures DumpsUnstructured(Bytes([])) == Ok("\"\"")
  {
    DumpsBytes([]);
    var q: string := "\"" + "" + "\"";
    assert q == "\"\"";
  }

  /** `datetime(1, 2, 3, 4, 5, 6, 7)`. */
  lemma DatetimeExample(dt: IsoTime.DateTime)
    requires dt == IsoTime.DateTime(1, 2, 3, 4, 5, 6, 7)
    ensures DumpsUnstructured(Datetime(dt)) == Ok("\"0001-02-03T04:05:06.000007\"")
  {
    DumpsDatetime(dt);
    IsoTime.IsoFormatExample();
    QuotedIso(IsoTime.IsoFormat(dt));
  }

  lemma QuotedIso(s: string)
    requires s == "0001-02-03T04:05:06.000007"
    ensures "\"" + s + "\"" == "\"0001-02-03T04:05:06.000007\""
  {
  }

  /** `'{"x": 1}'`, what each of the four classes with one attribute `x = 1` gives. */
  lemma XIsOne()
    ensures JsonText.Dumps(TDict([(TStr("x"), Raw(Int(1)))])) == Ok("{\"x\": 1}")
  {
    JsonText.ShowDigit(1);
    var one: string := [Decimal.DigitChar(1)];
    assert one == "1";
    assert JsonText.Dumps(Raw(Int(1))) == Ok("1");
    JsonText.OneEntryDict("x", Raw(Int(1)), "1");
    assert JsonText.Quote("x") == "\"x\"" by {
      JsonText.EscapeAllPlain("x");
      var q: string := "\"" + "x" + "\"";
      assert q == "\"x\"";
    }
    var d: string := "{" + "\"x\"" + ": " + "1" + "}";
    assert d == "{\"x\": 1}";
  }

  /** `B(x=1)` with `__init__` setting `self.x`, and the dataclass `E(x=1)`:
      attributes in `__dict__`. */
  lemma DictObjects()
    ensures DumpsUnstructured(Object(Bare("B").(instanceDict := Some([("x", Int(1))])))) == Ok("{\"x\": 1}")
  {
    var pairs := [(TStr("x"), Raw(Int(1)))];
    assert AttributePairs([("x", Int(1))]) == pairs by {
      assert [("x", Int(1))][..0] == [];
    }
    assert BuildDict(pairs) == pairs by {
      assert pairs[..0] == [];
    }
    XIsOne();
  }

  /** `C(x=1)` and `D(x=1)`, declared with `attr.define` and `attr.frozen`:
      slotted classes whose `__slots__` also lists `__weakref__`. */
  lemma SlottedObjects()
    ensures DumpsUnstructured(Object(Bare("C").(slots := Some(["x", "__weakref__"]), slotValues := [("x", Int(1))])))
         == Ok("{\"x\": 1}")
  {
    var pairs := [(TStr("x"), Raw(Int(1)))];
    assert SlotPairs(["x"], [("x", Int(1))]) == Ok(pairs) by {
      assert ["x"][..0] == [];
      assert !IsDunder("x");
      assert SlotValue([("x", Int(1))], "x") == Some(Int(1));
      assert [] + pairs == pairs;
    }
    assert SlotPairs(["x", "__weakref__"], [("x", Int(1))]) == Ok(pairs) by {
      assert ["x", "__weakref__"][..1] == ["x"];
      assert IsDunder("__weakref__");
    }
    assert BuildDict(pairs) == pairs by {
      assert pairs[..0] == [];
    }
    XIsOne();
  }

  /** A function object: callable, named, and with a `__dict__` that the
      callable branch never reaches. */
  function Function(name: string): Obj
  {
    Bare("function").(isCallable := true, name := Some(name), instanceDict := Some([]))
  }

  /** `def f(): ...` */
  lemma Functions(name: string)
    requires name == "f"
    ensures DumpsUnstructured(Object(Function(name))) == Ok("{\"f\": \"<function f>\"}")
  {
    DumpsCallable(Function(name), name);
    var d: string := "{\"" + "f" + "\": \"<function " + "f" + ">\"}";
    assert d == "{\"f\": \"<function f>\"}";
  }

  /** `lambda: ...` */
  lemma Lambdas(name: string)
    requires name == "<lambda>"
    ensures DumpsUnstructured(Object(Function(name))) == Ok("{\"<lambda>\": \"<function <lambda>>\"}")
  {
    assert forall i :: 0 <= i < |name| ==> JsonText.Printable(name[i]) && name[i] != '"' && name[i] != '\\';
    DumpsCallable(Function(name), name);
    LambdaText(name);
  }

  lemma LambdaText(name: string)
    requires name == "<lambda>"
    ensures "{\"" + name + "\": \"<function " + name + ">\"}" == "{\"<lambda>\": \"<function <lambda>>\"}"
  {
    var d: string := "{\"" + "<lambda>" + "\": \"<function " + "<lambda>" + ">\"}";
    assert d == "{\"<lambda>\": \"<function <lambda>>\"}";
  }

  /* ---------- keys `json.dumps` refuses ---------- */

  /** `defaultdict(int, {(1, 2): 0})`: the fallback hands the tuple key back
      as it is, and the encoder refuses it by its type. */
  lemma TupleKeyInDefaultDict(key: Value)
    requires key == Tuple([Int(1), Int(2)])
    ensures DumpsUnstructured(Object(Bare("defaultdict").(dictKind := DefaultDict, isIterable := true,
      mappingItems := [(key, Int(0))])))
      == Err(TypeError("keys must be str, int, float, bool or None, not tuple"))
  {
    var o := Bare("defaultdict").(dictKind := DefaultDict, isIterable := true, mappingItems := [(key, Int(0))]);
    var pairs := [(Raw(key), Raw(Int(0)))];
    assert BuildDict(pairs) == pairs by {
      assert pairs[..0] == [];
    }
    assert UnstructureNotJsonable(o) == Ok(TDict(pairs)) by {
      assert seq(1, i requires 0 <= i < 1 => (Raw(o.mappingItems[i].0), Raw(o.mappingItems[i].1))) == pairs;
    }
    assert Unstructure(Object(o)) == Ok(TDict(pairs));
    var message := JsonText.BadKey("tuple");
    assert message == "keys must be str, int, float, bool or None, not tuple";
    assert JsonText.KeyText(Raw(key)) == Err(TypeError(message));
    assert pairs[..0] == [];
    assert JsonText.DumpsEntries(pairs) == Err(TypeError(message));
  }

  /** `{(1, 2): 0}`: the tuple key comes out as a list, which cannot be a
      key of the new dict. */
  lemma TupleKeyInDict(key: Value)
    requires key == Tuple([Int(1), Int(2)])
    ensures DumpsUnstructured(Dict([(key, Int(0))])) == Err(TypeError("unhashable type: 'list'"))
  {
    var items := [Int(1), Int(2)];
    IntItems(items);
    assert IsJsonable(TypeOf(key));
    assert Unstructure(key) == Ok(TList([TInt(1), TInt(2)]));
    var entries := [(key, Int(0))];
    assert entries[..0] == [];
    assert UnstructureEntries(entries[..0]) == Ok([]);
    assert Unstructure(Int(0)) == Ok(TInt(0));
    assert !Hashable(TList([TInt(1), TInt(2)]));
    var message: string := "unhashable type: '" + "list" + "'";
    assert message == "unhashable type: 'list'";
    var r := UnstructureEntries(entries);
    assert r.Err? && r.error == TypeError(message);
    var v := Dict(entries);
    assert IsJsonable(TypeOf(v)) && !IsNotJsonable(TypeOf(v));
    assert UnstructureJsonable(v) == Err(TypeError(message));
    var u := Unstructure(v);
    assert u.Err? && u.error == TypeError(message);
  }

  lemma IntItems(items: seq<Value>)
    requires items == [Int(1), Int(2)]
    ensures UnstructureItems(items) == Ok([TInt(1), TInt(2)])
  {
    var one := items[..1];
    assert one[..0] == [];
    assert UnstructureItems(one[..0]) == Ok([]);
    assert Unstructure(Int(1)) == Ok(TInt(1)) && Unstructure(Int(2)) == Ok(TInt(2));
    var r1 := UnstructureItems(one);
    assert r1.Ok? && r1.value == [TInt(1)];
    var r := UnstructureItems(items);
    assert r.Ok? && r.value == [TInt(1), TInt(2)];
  }
}
