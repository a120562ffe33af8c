/** The Python values the converter is given, and the trees it gives back.

    A `Value` is one of the built-in kinds the converter and `json.dumps`
    tell apart, or an `Object` described by the attributes the fallback hook
    inspects. A `Tree` is what `converter.unstructure` returns: built-in
    JSON-shaped values, plus `Raw` leaves holding original values that the
    fallback hook passes through without converting them. */
module Values {
  import opened Outcomes
  import Base85
  import IsoTime

  /** A float, as far as `json.dumps` can tell: its `repr`, or one of the
      three non-finite values. */
  datatype Float = Finite(repr: string) | PosInf | NegInf | NaN

  /** Whether an object is an instance of `dict` (and then whether of
      `collections.defaultdict`). */
  datatype DictKind = NotADict | DictSubclass | DefaultDict

  /** An instance of a class that is none of the built-in kinds below. */
  datatype Obj = Obj(
    typeName: string,
    isCallable: bool,
    /** `__name__`, when the object has one */
    name: Option<string>,
    /** `__slots__`, when the class declares it */
    slots: Option<seq<string>>,
    /** the slots that hold a value, with that value */
    slotValues: seq<(string, Value)>,
    /** `__dict__`, when the object has one, in insertion order */
    instanceDict: Option<seq<(string, Value)>>,
    dictKind: DictKind,
    /** `items()`, for an instance of a dict subclass */
    mappingItems: seq<(Value, Value)>,
    /** whether it is an instance of a list or tuple subclass */
    isListOrTuple: bool,
    /** whether the object has `__iter__` */
    isIterable: bool,
    /** `list(iter(obj))`, when it has */
    iteration: seq<Value>)

  datatype Value =
    | Str(s: string)
    | Int(i: int)
    | Flt(f: Float)
    | Bool(b: bool)
    | NoneValue
    | List(items: seq<Value>)
    | Tuple(items: seq<Value>)
    /** a dict, with its entries in insertion order */
    | Dict(entries: seq<(Value, Value)>)
    | Bytes(data: seq<Base85.Byte>)
    | Datetime(dt: IsoTime.DateTime)
    /** a set or frozenset, with its elements in iteration order */
    | Set(items: seq<Value>)
    | FrozenSet(items: seq<Value>)
    | Object(obj: Obj)

  /** The exact type of a value, which is what the converter dispatches on. */
  datatype PyType =
    | StrType | IntType | FloatType | BoolType | NoneType
    | ListType | TupleType | DictType | BytesType | DatetimeType
    | SetType | FrozenSetType | ClassType(name: string)

  function TypeOf(v: Value): PyType
  {
    match v
    case Str(_) => StrType
    case Int(_) => IntType
    case Flt(_) => FloatType
    case Bool(_) => BoolType
    case NoneValue => NoneType
    case List(_) => ListType
    case Tuple(_) => TupleType
    case Dict(_) => DictType
    case Bytes(_) => BytesType
    case Datetime(_) => DatetimeType
    case Set(_) => SetType
    case FrozenSet(_) => FrozenSetType
    case Object(o) => ClassType(o.typeName)
  }

  /** What `converter.unstructure` returns. */
  datatype Tree =
    | TStr(s: string)
    | TInt(i: int)
    | TFloat(f: Float)
    | TBool(b: bool)
    | TNone
    | TList(items: seq<Tree>)
    | TDict(entries: seq<(Tree, Tree)>)
    /** an original value, returned as it is */
    | Raw(v: Value)

  /** Whether a tree may be a dict key: lists and dicts are unhashable. */
  predicate Hashable(t: Tree)
  {
    !t.TList? && !t.TDict?
  }

  /** Python's `==` on dict keys, where `True == 1` and `False == 0`. */
  predicate SameKey(a: Tree, b: Tree)
  {
    match (NumericKey(a), NumericKey(b))
    case (Some(x), Some(y)) => x == y
    case _ => a == b
  }

  function NumericKey(t: Tree): Option<int>
  {
    match t
    case TInt(i) => Some(i)
    case TBool(b) => Some(if b then 1 else 0)
    case _ => None
  }

  /** The position of the key equal to `k`, if any. */
  function FindKey(entries: seq<(Tree, Tree)>, k: Tree): (r: Option<nat>)
    ensures r.Some? ==> r.value < |entries| && SameKey(entries[r.value].0, k)
    ensures r.None? ==> forall i :: 0 <= i < |entries| ==> !SameKey(entries[i].0, k)
  {
    if entries == [] then None
    else match FindKey(entries[..|entries| - 1], k)
      case Some(i) => Some(i)
      case None => if SameKey(entries[|entries| - 1].0, k) then Some(|entries| - 1) else None
  }

  /** `d[k] = v` on a dict: a new key goes at the end, an existing key keeps
      its place and its first spelling and takes the new value. */
  function Store(entries: seq<(Tree, Tree)>, k: Tree, v: Tree): (r: seq<(Tree, Tree)>)
  {
    match FindKey(entries, k)
    case None => entries + [(k, v)]
    case Some(i) => entries[i := (entries[i].0, v)]
  }

  /** The dict built from pairs in order, as a dict display or comprehension
      builds it. */
  function BuildDict(pairs: seq<(Tree, Tree)>): seq<(Tree, Tree)>
  {
    if pairs == [] then []
    else Store(BuildDict(pairs[..|pairs| - 1]), pairs[|pairs| - 1].0, pairs[|pairs| - 1].1)
  }

  /** No two keys are equal. */
  ghost predicate DistinctKeys(entries: seq<(Tree, Tree)>)
  {
    forall i, j :: 0 <= i < j < |entries| ==> !SameKey(entries[i].0, entries[j].0)
  }

  /** Storing keeps keys distinct, replaces the value of an existing key in
      place, and otherwise appends. */
  lemma StoreKeepsDistinct(entries: seq<(Tree, Tree)>, k: Tree, v: Tree)
    requires DistinctKeys(entries)
    ensures DistinctKeys(Store(entries, k, v))
    ensures |Store(entries, k, v)| == |entries| + (if FindKey(entries, k).None? then 1 else 0)
  {
    match FindKey(entries, k)
    case None =>
      var r := entries + [(k, v)];
      forall i, j | 0 <= i < j < |r|
        ensures !SameKey(r[i].0, r[j].0)
      {
        if j == |entries| {
          SameKeySymmetric(r[i].0, k);
        }
      }
    case Some(_) =>
  }

  lemma SameKeySymmetric(a: Tree, b: Tree)
    ensures SameKey(a, b) == SameKey(b, a)
  {
  }

  /** Building a dict from pairs whose keys are pairwise distinct keeps
      every pair, in order. */
  lemma {:induction false} BuildDictOfDistinct(pairs: seq<(Tree, Tree)>)
    requires DistinctKeys(pairs)
    ensures BuildDict(pairs) == pairs
  {
    if pairs != [] {
      var init := pairs[..|pairs| - 1];
      assert DistinctKeys(init);
      BuildDictOfDistinct(init);
      var last := pairs[|pairs| - 1];
      assert FindKey(init, last.0).None? by {
        forall i | 0 <= i < |init|
          ensures !SameKey(init[i].0, last.0)
        {
          assert init[i] == pairs[i];
        }
      }
      assert init + [last] == pairs;
    }
  }

  /** A built dict never holds two equal keys. */
  lemma {:induction false} BuildDictDistinct(pairs: seq<(Tree, Tree)>)
    ensures DistinctKeys(BuildDict(pairs))
  {
    if pairs != [] {
      BuildDictDistinct(pairs[..|pairs| - 1]);
      StoreKeepsDistinct(BuildDict(pairs[..|pairs| - 1]), pairs[|pairs| - 1].0, pairs[|pairs| - 1].1);
    }
  }

  /** The keys `json.dumps` accepts: str, int, float, bool and None. */
  predicate PrimitiveKey(k: Value)
  {
    k.Str? || k.Int? || k.Flt? || k.Bool? || k.NoneValue?
  }

  /** A primitive as a tree; anything else as a raw leaf. */
  function KeyTree(k: Value): (t: Tree)
    ensures PrimitiveKey(k) ==> Hashable(t) && !t.Raw?
  {
    match k
    case Str(s) => TStr(s)
    case Int(i) => TInt(i)
    case Flt(f) => TFloat(f)
    case Bool(b) => TBool(b)
    case NoneValue => TNone
    case _ => Raw(k)
  }

  /** The keys of a Python dict are pairwise unequal. */
  ghost predicate DistinctValueKeys(entries: seq<(Value, Value)>)
  {
    forall i, j :: 0 <= i < j < |entries| ==> !SameKey(KeyTree(entries[i].0), KeyTree(entries[j].0))
  }
}
