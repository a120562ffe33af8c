/** `json.dumps` with its default settings, applied to what the converter
    returns: separators `", "` and `": "`, every non-ASCII or control
    character escaped (`ensure_ascii`), non-finite floats written as
    `Infinity`, `-Infinity` and `NaN`, dict keys that are str, int, float,
    bool or None written as strings, and a TypeError for anything else. */
module JsonText {
  import opened Outcomes
  import opened Values
  import Decimal
  import Positional

  /* ---------- strings ---------- */

  function HexChar(d: nat): (c: char)
    requires d < 16
  {
    if d < 10 then (48 + d) as char else (87 + d) as char
  }

  function HexValue(c: char): (r: Option<nat>)
    ensures r.Some? ==> r.value < 16
  {
    if '0' <= c <= '9' then Some(c as int - 48)
    else if 'a' <= c <= 'f' then Some(c as int - 87)
    else if 'A' <= c <= 'F' then Some(c as int - 55)
    else None
  }

  /** Four lowercase hexadecimal digits, as `'{0:04x}'.format(n)` writes
      a number below 0x10000. */
  function Hex4(n: nat): (s: string)
    ensures |s| == 4
  {
    var ds := Positional.Digits(16, n, 4);
    [HexChar(ds[0]), HexChar(ds[1]), HexChar(ds[2]), HexChar(ds[3])]
  }

  function UEscape(n: nat): (s: string)
    ensures |s| == 6
  {
    "\\u" + Hex4(n)
  }

  /** How `json.dumps` writes one character of a string under
      `ensure_ascii`: the short escapes, printable ASCII as itself, other
      characters of the Basic Multilingual Plane as `\uXXXX`, and the rest
      as a UTF-16 surrogate pair. */
  function EscapeChar(c: char): (s: string)
    ensures 1 <= |s| <= 12
  {
    if c == '"' then "\\\""
    else if c == '\\' then "\\\\"
    else if c == '\n' then "\\n"
    else if c == '\r' then "\\r"
    else if c == '\t' then "\\t"
    else if c == '\U{8}' then "\\b"
    else if c == '\U{C}' then "\\f"
    else if ' ' <= c <= '~' then [c]
    else if (c as int) < 0x10000 then UEscape(c as int)
    else
      var n := c as int - 0x10000;
      UEscape(0xD800 + n / 0x400) + UEscape(0xDC00 + n % 0x400)
  }

  function EscapeAll(s: string): string
  {
    if s == [] then "" else EscapeChar(s[0]) + EscapeAll(s[1..])
  }

  /** A str as `json.dumps` writes it. */
  function Quote(s: string): (q: string)
    ensures |q| >= 2 && q[0] == '"' && q[|q| - 1] == '"'
  {
    "\"" + EscapeAll(s) + "\""
  }

  /** Printable ASCII: what `ensure_ascii` output is made of. */
  predicate Printable(c: char)
  {
    ' ' <= c <= '~'
  }

  /* ---------- numbers and constants ---------- */

  function FloatText(f: Float): string
  {
    match f
    case Finite(r) => r
    case PosInf => "Infinity"
    case NegInf => "-Infinity"
    case NaN => "NaN"
  }

  function BoolText(b: bool): string
  {
    if b then "true" else "false"
  }

  /** Parts joined by `", "`. */
  function Join(parts: seq<string>): string
  {
    if parts == [] then ""
    else if |parts| == 1 then parts[0]
    else Join(parts[..|parts| - 1]) + ", " + parts[|parts| - 1]
  }

  /* ---------- trees ---------- */

  /** A dict key as the encoder writes it, before the `": "`. */
  function KeyText(k: Tree): Result<string>
  {
    match k
    case TStr(s) => Ok(Quote(s))
    case TFloat(f) => Ok(Quote(FloatText(f)))
    case TBool(b) => Ok(Quote(BoolText(b)))
    case TNone => Ok(Quote("null"))
    case TInt(i) => Ok(Quote(Decimal.ShowInt(i)))
    case Raw(v) => ValueKeyText(v)
    case TList(_) => Err(TypeError(BadKey("list")))
    case TDict(_) => Err(TypeError(BadKey("dict")))
  }

  function ValueKeyText(k: Value): Result<string>
  {
    match k
    case Str(s) => Ok(Quote(s))
    case Flt(f) => Ok(Quote(FloatText(f)))
    case Bool(b) => Ok(Quote(BoolText(b)))
    case NoneValue => Ok(Quote("null"))
    case Int(i) => Ok(Quote(Decimal.ShowInt(i)))
    case _ => Err(TypeError(BadKey(TypeName(k))))
  }

  /** The message of the TypeError for a dict key of a type the encoder
      does not write. */
  function BadKey(typeName: string): string
  {
    "keys must be str, int, float, bool or None, not " + typeName
  }

  /** The name of a value's type, as the encoder's TypeErrors give it. */
  function TypeName(v: Value): string
  {
    match v
    case Str(_) => "str"
    case Int(_) => "int"
    case Flt(_) => "float"
    case Bool(_) => "bool"
    case NoneValue => "NoneType"
    case List(_) => "list"
    case Tuple(_) => "tuple"
    case Dict(_) => "dict"
    case Bytes(_) => "bytes"
    case Datetime(_) => "datetime"
    case Set(_) => "set"
    case FrozenSet(_) => "frozenset"
    case Object(o) => o.typeName
  }

  /** The message of the TypeError for a value of a type it cannot encode. */
  function NotSerializable(typeName: string): string
  {
    "Object of type " + typeName + " is not JSON serializable"
  }

  /** `json.dumps(t)`. */
  function Dumps(t: Tree): Result<string>
    decreases t
  {
    match t
    case TStr(s) => Ok(Quote(s))
    case TInt(i) => Ok(Decimal.ShowInt(i))
    case TFloat(f) => Ok(FloatText(f))
    case TBool(b) => Ok(BoolText(b))
    case TNone => Ok("null")
    case TList(items) =>
      (match DumpsItems(items)
       case Err(e) => Err(e)
       case Ok(parts) => Ok("[" + Join(parts) + "]"))
    case TDict(entries) =>
      (match DumpsEntries(entries)
       case Err(e) => Err(e)
       case Ok(parts) => Ok("{" + Join(parts) + "}"))
    case Raw(v) => DumpsValue(v)
  }

  /** The encoded items of a list, stopping at the first that fails. */
  function DumpsItems(items: seq<Tree>): (r: Result<seq<string>>)
    ensures r.Ok? ==> |r.value| == |items|
    decreases items
  {
    if items == [] then Ok([])
    else match DumpsItems(items[..|items| - 1])
      case Err(e) => Err(e)
      case Ok(init) =>
        match Dumps(items[|items| - 1])
        case Err(e) => Err(e)
        case Ok(last) => Ok(init + [last])
  }

  /** The encoded `key: value` members of a dict; each key is checked
      before its value is encoded. */
  function DumpsEntries(entries: seq<(Tree, Tree)>): (r: Result<seq<string>>)
    ensures r.Ok? ==> |r.value| == |entries|
    decreases entries
  {
    if entries == [] then Ok([])
    else match DumpsEntries(entries[..|entries| - 1])
      case Err(e) => Err(e)
      case Ok(init) =>
        var entry := entries[|entries| - 1];
        assert entry in entries && entry.1 < entry;
        match KeyText(entry.0)
        case Err(e) => Err(e)
        case Ok(kt) =>
          match Dumps(entry.1)
          case Err(e) => Err(e)
          case Ok(vt) => Ok(init + [kt + ": " + vt])
  }

  /** `json.dumps(v)` of an original value: the built-in kinds, lists,
      tuples and dicts (subclasses included) are encoded; anything else is
      a TypeError. */
  function DumpsValue(v: Value): Result<string>
    decreases v
  {
    match v
    case Str(s) => Ok(Quote(s))
    case Int(i) => Ok(Decimal.ShowInt(i))
    case Flt(f) => Ok(FloatText(f))
    case Bool(b) => Ok(BoolText(b))
    case NoneValue => Ok("null")
    case List(items) => DumpsArray(items)
    case Tuple(items) => DumpsArray(items)
    case Dict(entries) => DumpsObject(entries)
    case Object(o) =>
      if o.isListOrTuple then DumpsArray(o.iteration)
      else if o.dictKind != NotADict then DumpsObject(o.mappingItems)
      else Err(TypeError(NotSerializable(o.typeName)))
    case _ => Err(TypeError(NotSerializable(TypeName(v))))
  }

  function DumpsArray(items: seq<Value>): Result<string>
    decreases items, 1
  {
    match DumpsValues(items)
    case Err(e) => Err(e)
    case Ok(parts) => Ok("[" + Join(parts) + "]")
  }

  function DumpsObject(entries: seq<(Value, Value)>): Result<string>
    decreases entries, 1
  {
    match DumpsValueEntries(entries)
    case Err(e) => Err(e)
    case Ok(parts) => Ok("{" + Join(parts) + "}")
  }

  function DumpsValues(items: seq<Value>): (r: Result<seq<string>>)
    ensures r.Ok? ==> |r.value| == |items|
    decreases items, 0
  {
    if items == [] then Ok([])
    else match DumpsValues(items[..|items| - 1])
      case Err(e) => Err(e)
      case Ok(init) =>
        match DumpsValue(items[|items| - 1])
        case Err(e) => Err(e)
        case Ok(last) => Ok(init + [last])
  }

  function DumpsValueEntries(entries: seq<(Value, Value)>): (r: Result<seq<string>>)
    ensures r.Ok? ==> |r.value| == |entries|
    decreases entries, 0
  {
    if entries == [] then Ok([])
    else match DumpsValueEntries(entries[..|entries| - 1])
      case Err(e) => Err(e)
      case Ok(init) =>
        var entry := entries[|entries| - 1];
        assert entry in entries && entry.1 < entry;
        match ValueKeyText(entry.0)
        case Err(e) => Err(e)
        case Ok(kt) =>
          match DumpsValue(entry.1)
          case Err(e) => Err(e)
          case Ok(vt) => Ok(init + [kt + ": " + vt])
  }

  /* ---------- properties ---------- */

  /** Characters that need no escape are written as they are. */
  lemma {:induction false} EscapeAllPlain(s: string)
    requires forall i :: 0 <= i < |s| ==> Printable(s[i]) && s[i] != '"' && s[i] != '\\'
    ensures EscapeAll(s) == s
  {
    if s != [] {
      EscapeAllPlain(s[1..]);
      assert s == [s[0]] + s[1..];
    }
  }

  /** A single digit as `str(int)` writes it. */
  lemma ShowDigit(d: nat)
    requires d < 10
    ensures Decimal.ShowInt(d) == [Decimal.DigitChar(d)]
    ensures Decimal.ShowInt(-(d as int)) == if d == 0 then "0" else ['-', Decimal.DigitChar(d)]
  {
    Decimal.PaddedDigit(d, 1);
  }

  /** Empty lists and dicts. */
  lemma EmptyContainers()
    ensures Dumps(TList([])) == Ok("[]")
    ensures Dumps(TDict([])) == Ok("{}")
  {
    var l: string := "[" + Join([]) + "]";
    assert l == "[]";
    var d: string := "{" + Join([]) + "}";
    assert d == "{}";
  }

  /** A one-entry dict with a str key. */
  lemma OneEntryDict(k: string, v: Tree, vt: string)
    requires Dumps(v) == Ok(vt)
    ensures Dumps(TDict([(TStr(k), v)])) == Ok("{" + Quote(k) + ": " + vt + "}")
  {
    var entries := [(TStr(k), v)];
    assert entries[..|entries| - 1] == [];
    assert DumpsEntries([]) == Ok([]);
    assert entries[|entries| - 1] == (TStr(k), v);
    assert KeyText(TStr(k)) == Ok(Quote(k));
    var part := Quote(k) + ": " + vt;
    assert DumpsEntries(entries) == Ok([] + [part]);
    assert [] + [part] == [part];
    assert Join([part]) == part;
    assert Dumps(TDict(entries)) == Ok("{" + part + "}");
    assert "{" + part + "}" == "{" + Quote(k) + ": " + vt + "}";
  }

  /** A dict whose every key and value can be written is written. */
  lemma {:induction false} DumpsEntriesOk(entries: seq<(Tree, Tree)>)
    requires forall i :: 0 <= i < |entries| ==> EntryWritable(entries[i])
    ensures DumpsEntries(entries).Ok?
  {
    if entries != [] {
      var init := entries[..|entries| - 1];
      forall i | 0 <= i < |init|
        ensures EntryWritable(init[i])
      {
        assert init[i] == entries[i];
      }
      DumpsEntriesOk(init);
      DumpsEntriesStep(entries);
    }
  }

  /** And a dict that is written has only keys and values that can be. */
  lemma {:induction false} DumpsEntriesOkAt(entries: seq<(Tree, Tree)>, i: nat)
    requires DumpsEntries(entries).Ok? && i < |entries|
    ensures EntryWritable(entries[i])
  {
    DumpsEntriesStep(entries);
    var init := entries[..|entries| - 1];
    assert DumpsEntries(init).Ok?;
    if i < |init| {
      DumpsEntriesOkAt(init, i);
      assert init[i] == entries[i];
    } else {
      assert i == |entries| - 1;
    }
  }

  /** A dict is written exactly when all its keys and values can be. */
  lemma DumpsDictOk(entries: seq<(Tree, Tree)>)
    ensures Dumps(TDict(entries)).Ok? <==> forall i :: 0 <= i < |entries| ==> EntryWritable(entries[i])
  {
    if DumpsEntries(entries).Ok? {
      forall i | 0 <= i < |entries|
        ensures EntryWritable(entries[i])
      {
        DumpsEntriesOkAt(entries, i);
      }
    } else if forall i :: 0 <= i < |entries| ==> EntryWritable(entries[i]) {
      DumpsEntriesOk(entries);
    }
  }

  predicate EntryWritable(e: (Tree, Tree))
  {
    KeyText(e.0).Ok? && Dumps(e.1).Ok?
  }

  lemma DumpsEntriesStep(entries: seq<(Tree, Tree)>)
    requires entries != []
    ensures DumpsEntries(entries).Ok? <==>
      DumpsEntries(entries[..|entries| - 1]).Ok? && EntryWritable(entries[|entries| - 1])
  {
  }

  /** The first entry that cannot be written decides the error: entries
      after it are never looked at. */
  lemma {:induction false} DumpsEntriesFirstError(entries: seq<(Tree, Tree)>, k: nat)
    requires k <= |entries| && DumpsEntries(entries[..k]).Err?
    ensures DumpsEntries(entries) == DumpsEntries(entries[..k])
    decreases |entries| - k
  {
    if k < |entries| {
      var init := entries[..|entries| - 1];
      assert init[..k] == entries[..k];
      DumpsEntriesFirstError(init, k);
    } else {
      assert entries[..k] == entries;
    }
  }
}
