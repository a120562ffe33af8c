# goet, modelled in Dafny

goet is a Python execution tracer. While it is installed, a trace function receives every `call`, `line`, `return`, `exception` and `opcode` event of the traced program. Each `line` event is recorded as one row of a SQLite table, holding:

- a frame id and the frame id of the enclosing call;
- the file name and the line number;
- the frame's local variables, serialized to JSON.

The JSON comes from a converter built on cattrs. It:

- passes the eight JSON-native types through;
- writes bytes as base85 text and datetimes in ISO 8601;
- sends every other value to a shallow fallback that looks at the object's shape in a fixed order: callable, `__slots__`, `__dict__`, `defaultdict`, iterable, else `{}`.

The repository also contains:

- snapshot classes `Code` and `Frame` that copy an interpreter frame and its whole caller chain;
- `Frame.to_json`;
- a helper that finds the repository root from any file path.

The model covers these pieces, module by module:

- `Values`: the Python values the converter sees and the tree it returns. The tree has a `Raw` leaf for values that the fallback hands back unconverted.
- `Converter`: `is_jsonable`, `unstructure_not_jsonable` and the two leaf encoders, plus the converter's fixed dispatch order.
- `Base85`: the RFC 1924 alphabet and the 4-byte groups `b85encode` writes, together with a decoder used to state the round trip.
- `IsoTime`, `Decimal`, `Positional`: `datetime.isoformat()` and a parser for its output, and the positional-notation arithmetic both rest on.
- `JsonText`, `JsonDecode`: what `json.dumps` writes for a tree, including the `ensure_ascii` escaping and the TypeError for values it cannot write, plus an unescaper for the string round trip.
- `ConverterExamples`: the expected outputs the converter's test script checks.
- `Runtime`: the interpreter objects (code objects, frames with writable trace fields, locals dicts, the installed trace function), as classes.
- `Frames`: `Code.from_syscode`, `Frame.from_sysframe` over the caller chain, and `Frame.to_json`, both as written and as intended, with the snapshots converted field by field.
- `Correlation`: how the SQL tracer numbers frames, as a pure step function over the counter and the stack of parent ids, with lemmas about whole runs of events.
- `Tracers`: `BaseTracer.tracefunc`, `__enter__`/`__exit__`, `pause_tracing` and `SqlTracer`'s handlers. These are methods on classes whose fields the source updates in place. Each method is specified by the `Correlation` step.
- `RootDir`: `get_root_dir` as written, and a corrected version.

## Model

| member | source | states |
|---|---|---|
| Converter.JsonableKinds | goet/lib/converter/converter.py:12-13 | `is_jsonable` holds exactly for str, int, float, bool, list, tuple, dict and None. |
| Converter.SlotValue | goet/lib/converter/converter.py:24 | `getattr` on a slot finds the value stored under that name, and finds none exactly when no slot of that name holds a value. |
| Converter.FirstMatchWins | goet/lib/converter/converter.py:18-33 | The fallback answers from the first branch that applies (callable, slots, dict, defaultdict, iterable), whatever the fields later branches read; with no branch it gives `{}`. |
| Converter.CallableWins | goet/lib/converter/converter.py:19-22 | A callable becomes the one-entry dict `{name: "<function name>"}`, with `<unknown>` when it has no name, whatever slots, dict or iteration it has. |
| Converter.DumpsCallable | goet/lib/converter/converter.py:19-22 | The JSON text of a callable whose name needs no escaping is `{"name": "<function name>"}`. |
| Converter.DictAttributes | goet/lib/converter/converter.py:25-26 | The attributes taken from `__dict__` are exactly its entries whose name does not start with `__`, each with its value unconverted. |
| Converter.DictAttributesInOrder | goet/lib/converter/converter.py:26 | The attributes keep the order of `__dict__`: the i-th one is the i-th entry whose name does not start with `__`. |
| Converter.DictAttributesKept | goet/lib/converter/converter.py:26 | Attribute names are distinct, so every such attribute survives into the dict the fallback builds. |
| Converter.AttrsInstance | goet/lib/converter/converter.py:23-24 | An attrs instance with slots gives its fields in declaration order with their values unconverted; `__weakref__` is skipped. |
| Converter.SetsBecomeRawLists | goet/lib/converter/converter.py:29-30 | A set and a frozenset both become the list of their elements, with the elements not converted. |
| Converter.SetOfBytesFails | goet/lib/converter/converter.py:29-30 | So a set holding bytes cannot be dumped (TypeError naming bytes), although the bytes alone can. |
| Converter.CounterLosesItems | goet/lib/converter/converter.py:25-26 | A `Counter` is caught by the `__dict__` branch and dumps as `{}`, whatever its items. |
| Converter.CounterKeepsItems | goet/lib/converter/converter.py:42 | Converted as the documentation says, a counter is written exactly as the dict of its items. |
| Converter.DumpsBytes | goet/lib/converter/converter.py:46-48 | Bytes are written as a JSON string holding their base85 text unescaped, and that text decodes back to the same bytes. |
| Converter.DumpsDatetime | goet/lib/converter/converter.py:51-53 | A datetime is written as a JSON string holding its `isoformat` text, which parses back to the same valid datetime. |
| Converter.UnstructurePlain | goet/lib/converter/converter.py:56-68 | The converter leaves JSON-native data alone: dumping its result gives the same text as dumping the data itself. |
| Converter.UnstructurePlainEntries | goet/lib/converter/converter.py:56-68 | Dict entries with primitive keys keep their keys and are written as the original entries are. |
| Base85.DecodeEncode | goet/lib/converter/converter.py:47 | Decoding the base85 text of any byte string gives back the byte string. |
| Base85.Encode | goet/lib/converter/converter.py:47 | The text has 5 characters per full 4-byte group and k+1 for a final partial group of k bytes. |
| Base85.EncodeExample | goet/lib/converter/converter_test.py:44 | `b'123'` encodes to `F)}j`. |
| Base85.EncodePlain | goet/lib/converter/converter.py:47 | Every character of the encoding is printable ASCII other than `"` and `\`, so `json.dumps` writes it unescaped. |
| Base85.DigitCharInAlphabet | goet/lib/converter/converter.py:47 | The digit character for each value 0–84 is that value's entry in the RFC 1924 alphabet. |
| Base85.DigitValueOfChar | goet/lib/converter/converter.py:47 | Each alphabet character is read back as its own digit value. |
| Base85.DecodeRejects | goet/lib/converter/converter.py:47 | The source only encodes; the decoder is the partner the round trip is stated with, and it rejects a text holding a character outside the alphabet at any position. |
| IsoTime.IsoFormat | goet/lib/converter/converter.py:51-53 | The ISO text of a naive datetime has 19 characters, or 26 when there are microseconds. |
| IsoTime.IsoFormatFields | goet/lib/converter/converter.py:51-53 | Year (4 digits), month, day, hour, minute and second (2 digits) sit at fixed positions with `-`, `T` and `:` between them, then `.` and 6 digits of microseconds when they are not 0. |
| IsoTime.ParseIsoFormat | goet/lib/converter/converter.py:51-53 | Parsing the ISO text of a valid datetime gives it back. |
| IsoTime.IsoFormatExample | goet/lib/converter/converter_test.py:47 | `datetime(1,2,3,4,5,6,7)` is written `0001-02-03T04:05:06.000007`. |
| IsoTime.IsoFormatPlain | goet/lib/converter/converter.py:51-53 | The ISO text needs no JSON escaping. |
| Decimal.ReadPadded | goet/lib/converter/converter.py:51-53 | A number written zero-padded to a width it fits in reads back as itself. |
| Decimal.ShowIntReads | goet/lib/converter/converter_test.py:21-23 | The decimal text `json.dumps` writes for an int reads back as that int, negative numbers included. |
| Positional.FromDigitsOfDigits | goet/lib/converter/converter.py:47 | The fixed-width digits of a number below base^width give the number back. |
| Positional.DigitsOfFromDigits | goet/lib/converter/converter.py:47 | A digit sequence gives back the same digits when its value is expanded again at its width. |
| JsonText.EscapeAllPlain | goet/lib/converter/converter_test.py:32 | A string of printable characters other than `"` and `\` is written as it is. |
| JsonText.DumpsDictOk | goet/lib/converter/converter_test.py:15 | `json.dumps` writes a dict exactly when every key is a str, number, bool or None and every value can be written. |
| JsonText.DumpsEntriesFirstError | goet/lib/converter/converter_test.py:15 | Writing stops at the first entry that cannot be written, and its error is the result. |
| JsonText.OneEntryDict | goet/lib/converter/converter_test.py:59 | A one-entry dict is written `{"key": value}`. |
| JsonText.EmptyContainers | goet/lib/converter/converter_test.py:35-41 | An empty list is written `[]`, an empty dict `{}`. |
| JsonDecode.UnquoteQuote | goet/lib/converter/converter_test.py:32 | Unquoting the JSON text of any string gives the string back. |
| JsonDecode.UnescapeEscapeAll | goet/lib/converter/converter_test.py:32 | The escaping, with `\uXXXX` and surrogate pairs for non-ASCII, is undone exactly. |
| JsonDecode.EscapeAllPrintable | goet/lib/converter/converter_test.py:32 | The escaped text holds printable ASCII only. |
| Values.BuildDictOfDistinct | goet/lib/converter/converter.py:24-28 | Building a dict from pairs with distinct keys keeps every pair in order. |
| Values.BuildDictDistinct | goet/lib/converter/converter.py:24-28 | A built dict never holds two equal keys. |
| Values.StoreKeepsDistinct | goet/lib/converter/converter.py:24-28 | Storing under a key keeps the keys distinct; it adds an entry only for a new key. |
| ConverterExamples.Integers | goet/lib/converter/converter_test.py:21-23 | 1, 0 and -1 are written `1`, `0`, `-1`. |
| ConverterExamples.Floats | goet/lib/converter/converter_test.py:24-29 | Floats pass through as their own text, including `Infinity`, `-Infinity` and `NaN`. |
| ConverterExamples.Bools | goet/lib/converter/converter_test.py:30-31 | True and False are written `true` and `false`. |
| ConverterExamples.Strings | goet/lib/converter/converter_test.py:32 | `"a"` is written `"a"`. |
| ConverterExamples.EmptySequences | goet/lib/converter/converter_test.py:35-36 | `()` and `[]` are written `[]`. |
| ConverterExamples.EmptySets | goet/lib/converter/converter_test.py:37-38 | `set()` and `frozenset()` are written `[]`. |
| ConverterExamples.EmptyDict | goet/lib/converter/converter_test.py:39 | `{}` is written `{}`. |
| ConverterExamples.EmptyCounter | goet/lib/converter/converter_test.py:40 | `Counter()` is written `{}`. |
| ConverterExamples.EmptyDefaultDict | goet/lib/converter/converter_test.py:41 | `defaultdict()` is written `{}`. |
| ConverterExamples.BytesExample | goet/lib/converter/converter_test.py:44 | `b'123'` is written `"F)}j"`. |
| ConverterExamples.EmptyBytes | goet/lib/converter/converter.py:47 | `b''` is written `""`. |
| ConverterExamples.DatetimeExample | goet/lib/converter/converter_test.py:47 | `datetime(1,2,3,4,5,6,7)` is written `"0001-02-03T04:05:06.000007"`. |
| ConverterExamples.PlainObjects | goet/lib/converter/converter_test.py:50-54 | `object()` and an attribute-less `A()` are written `{}`. |
| ConverterExamples.DictObjects | goet/lib/converter/converter_test.py:56-59 | `B(x=1)` (and the dataclass `E(x=1)`, same shape) is written `{"x": 1}`. |
| ConverterExamples.SlottedObjects | goet/lib/converter/converter_test.py:61-69 | The slotted attrs classes `C(x=1)` and `D(x=1)` are written `{"x": 1}`. |
| ConverterExamples.Functions | goet/lib/converter/converter_test.py:77-79 | A function `f` is written `{"f": "<function f>"}`. |
| ConverterExamples.Lambdas | goet/lib/converter/converter_test.py:93 | A lambda is written `{"<lambda>": "<function <lambda>>"}`. |
| ConverterExamples.TupleKeyInDefaultDict | goet/lib/converter/converter.py:27-28 | `defaultdict(int, {(1, 2): 0})` keeps its tuple key, and `json.dumps` raises TypeError "keys must be str, int, float, bool or None, not tuple". |
| ConverterExamples.TupleKeyInDict | goet/lib/converter/converter.py:59-68 | In `{(1, 2): 0}` the converter turns the key into a list, and `json.dumps` raises TypeError "unhashable type: 'list'". |
| Frames.FromSyscodeCopies | goet/lib/frame/frame.py:75-94 | All eleven kept code fields are copied unchanged, and two code objects give equal snapshots exactly when they agree on those fields. |
| Frames.FromSysframe | goet/lib/frame/frame.py:131-144 | The snapshot has a caller exactly when the frame has one, and shares the frame's own locals dict. |
| Frames.FromSysframeFields | goet/lib/frame/frame.py:131-144 | The snapshot holds a fresh code snapshot, the locals dict itself, and copies of `f_lasti`, the trace fields and `f_lineno`. |
| Frames.FromSysframeAncestors | goet/lib/frame/frame.py:134 | The k-th snapshot down the chain exists exactly when the k-th caller does, and is that caller's snapshot. |
| Frames.FromSysframeLength | goet/lib/frame/frame.py:134 | The snapshot chain is exactly as long as the caller chain. |
| Frames.ToJsonAlwaysFails | goet/lib/frame/frame.py:164-166 | `to_json` raises TypeError for every frame: it names `Frame` when there is a caller, else `Code`. |
| Frames.ToJsonFixedWritable | goet/lib/frame/frame.py:164-166 | Converted as intended, field by field through `make_converter`'s converter, a snapshot is written exactly when the locals and trace function of every frame down the chain can be. |
| Frames.CodeTreeWritable | goet/lib/frame/frame.py:164-166 | Converted field by field, a code snapshot is always written. |
| Frames.AsDictWritable | goet/lib/frame/frame.py:164-166 | Fields converted one by one give a writable dict exactly when each field can be converted and written. |
| Correlation.StepStack | goet/tracer/sql.py:33-34 | `call` pushes the current counter and changes nothing else; `return` pops exactly one entry and raises only on an empty stack; `exception` and `opcode` change nothing; none records a row. |
| Correlation.StepLine | goet/tracer/sql.py:36-50 | `line` advances the counter by one, leaves the stack alone, and records the new id with the top of the stack; it raises exactly on an empty stack. |
| Correlation.StepKeepsConsistent | goet/tracer/sql.py:33-60 | Each event keeps every stack entry at most the counter and keeps the links numbered 1, 2, 3, … with each parent id below its own. |
| Correlation.RunCounts | goet/tracer/sql.py:11-12 | After any run that does not raise, the stack holds 1 + calls − returns entries, the counter equals the number of lines, and the links are numbered with no gaps. |
| Correlation.RunOk | goet/tracer/sql.py:41 | A run raises exactly when a `line` or `return` comes after more returns than calls. |
| Correlation.RunExample | goet/tracer/sql.py:33-60 | line, call, line, return, line record (1, None), (2, 1), (3, None). |
| Correlation.RunEmptiedStack | goet/tracer/sql.py:41 | A `return` that empties the initial stack makes the next `line` raise IndexError. |
| Tracers.ParseEvent | goet/tracer/base.py:49-56 | The event lookup accepts exactly the five event names, each mapping to the event of that name; any other name is a KeyError. |
| Tracers.ParseEventName | goet/tracer/base.py:49-56 | Each event's name is looked up to that event. |
| Tracers.Arm | goet/tracer/base.py:59-61 | The frame is traced by `tracefunc`, line by line and not opcode by opcode; its position is unchanged. |
| Tracers.ProtocolTracer.TraceFunc | goet/tracer/base.py:48-62 | For a tracer that overrides none of the protocol's handlers (base.py:17-31), an unknown event raises KeyError and leaves the frame alone; each of the five events arms the frame first and then raises NotImplementedError. |
| Tracers.HandleFollowsStep | goet/tracer/sql.py:36-57 | The SQL handlers change the ids as the correlation step does, and record at most one row, exactly for a `line` with a non-empty stack and serializable locals. |
| Tracers.FrameIds.constructor | goet/tracer/sql.py:11-12 | The shared counter starts at 0 and the parent stack at `[None]`. |
| Tracers.SqlTracer.constructor | goet/tracer/sql.py:22-25 | A tracer starts with no rows and a fixed run id. |
| Tracers.SqlTracer.Enter | goet/tracer/base.py:37-43 | `__enter__` arms the caller frame (trace function and `f_trace_lines`) and installs `tracefunc`, the one trace function it adds to the history; with no caller it raises AttributeError before anything changes. |
| Tracers.SqlTracer.BaseExit | goet/tracer/base.py:45-46 | `BaseTracer.__exit__` uninstalls the trace function: the history gains exactly one `None`. |
| Tracers.SqlTracer.Exit | goet/tracer/sql.py:27-31 | `SqlTracer.__exit__` uninstalls the trace function itself and again through `BaseTracer.__exit__`: the history gains exactly `None`, `None`. |
| Tracers.SqlTracer.DispatchCall | goet/tracer/sql.py:33-34 | `call` changes the ids as the correlation step does. |
| Tracers.SqlTracer.DispatchLine | goet/tracer/sql.py:36-57 | `line` advances the ids and appends the step's row, with the same outcome as the step. The trace functions it installs are `None` (the pause, base.py:67), then `tracefunc` from the handler itself only when it did not raise (sql.py:57), then `tracefunc` from `pause_tracing`'s `finally` (base.py:70). |
| Tracers.SqlTracer.DispatchReturn | goet/tracer/sql.py:59-60 | `return` pops as the correlation step does, raising IndexError on an empty stack. |
| Tracers.SqlTracer.DispatchException | goet/tracer/sql.py:62-63 | `exception` does nothing. |
| Tracers.SqlTracer.DispatchOpcode | goet/tracer/sql.py:65-66 | `opcode` does nothing. |
| Tracers.SqlTracer.TraceFunc | goet/tracer/base.py:48-62 | An unknown event raises KeyError before any frame field is written. Otherwise the frame is armed (`f_trace`, lines on, opcodes off), and exactly the matching handler runs, with the effect the correlation step gives. Only a `line` event installs trace functions, exactly those its handler installs. |
| RootDir.Levels | goet/lib/path/get_root_dir.py:11-15 | It raises ValueError exactly when `goet` does not occur in the path. |
| RootDir.RelPath | goet/lib/path/get_root_dir.py:14-15 | The counted part is the suffix starting at the first `goet`, and it holds no more slashes than the whole path. |
| RootDir.UpShape | goet/lib/path/get_root_dir.py:16 | The relative part is empty for 0 levels and otherwise has 3·count − 1 characters and splits into exactly `count` `..` components. |
| RootDir.GetRootDir | goet/lib/path/get_root_dir.py:5-16 | It fails exactly when `goet` does not occur in the path. |
| RootDir.GetRootDirParents | goet/lib/path/get_root_dir.py:16 | The result's components are the path's followed by the counted number of `..`. |
| RootDir.SplitCount | goet/lib/path/get_root_dir.py:15 | A path has one component more than it has slashes. |
| RootDir.LevelsOvershoot | goet/lib/path/get_root_dir.py:11-15 | For `/h/goetz/goet/x.py` the code goes up 2 levels, landing in `goetz`; the root directory is 1 level up. |
| RootDir.FixedLevels | goet/lib/path/get_root_dir.py:11-15 | The corrected count points at the first component equal to `goet`, and fails exactly when no component is `goet`. |
| RootDir.FixedReachesRoot | goet/lib/path/get_root_dir.py:16 | The corrected result's components are the path's followed by the parents that cancel everything after the first `goet` directory. |

## Left out

- Floats are an opaque leaf holding their `repr` text. `json.dumps`'s float formatting is not modelled.
- Values are finite trees. A self-containing list or dict, on which the converter's unstructuring recurses until RecursionError, is not modelled.
- Set iteration order is a parameter of the value, not computed from the hash function.
- Subclasses of int, float, list, tuple or dict are not separate kinds of value. `is_jsonable` compares the exact type, so they would reach the fallback; only dict subclasses (`Counter`) are modelled that way. A str subclass would not reach it: the class hooks are matched through the class hierarchy, so cattrs' own identity hook for str passes it through as a string.
- The cattrs dispatch machinery is replaced by the order it produces: first the class hooks, which are cattrs' own identity hook for str together with the hooks registered for bytes (replacing cattrs' identity hook for bytes) and datetime, then `is_not_jsonable`, then the library's hooks for the eight native types. Under that order the `Set: list` collection override in `make_converter` is never reached, because sets are already claimed by the fallback.
- The module-level `converter` that `goet/tracer/sql.py` imports is not defined in `converter.py`. The model uses a converter built as `make_converter()` builds it.
- `sql.py` calls `Frame.from_sysframe` with three arguments and reads `f_id`, `f_back_id` and `f_filename`, which `frame.py` does not define. The row is therefore built directly from the counter, the stack top, the frame's code file name, its line number and its locals.
- The SQLite connection, the cursor, `execute` and `commit` are left out (I/O). The rows written are kept in a sequence field, and `goet/lib/db/sqlite.py` is not part of this model beyond its column list.
- The run id from `uuid.uuid4()` is a constructor parameter.
- `sys.settrace` and `sys._getframe` are modelled by the `Interpreter` and `SysFrame` classes. What the interpreter does after a trace function raises is not modelled.
- `Path.joinpath`'s normalisation and `resolve()` are left out (filesystem). `JoinPath` only appends the relative part.
- The print tracer, the prototype tracers and the hypothesis strategy registration are demo and test tooling. They are not part of this model.
- The docstring of `configure_converter` says bytes become base64 text, but the code uses `b85encode`. The model follows the code.
- JsonDecode.UnescapeEscapeAll: the round trip covers strings of Unicode scalar values. Lone surrogates, which a Python `str` can hold, are not represented by Dafny's `char`.
- Frames.FromSyscodeCopies: code object identity is not modelled. Each snapshot is a fresh value, so "no caching" shows only as equality of fields.
- Correlation.RunOk: reading the top of an empty stack is modelled as an IndexError outcome rather than as a precondition. The counter has already advanced when that `line` raises.
- IsoTime.IsoFormat and Converter.DumpsDatetime: datetimes are naive. A `tzinfo` and the `+HH:MM` offset `isoformat` appends for an aware datetime are not modelled, so the 19 and 26 character lengths hold only for naive datetimes.
- Frames.ToJsonFixed: the commented-out code in `to_json` (frame.py:148-162) builds a plain `GenConverter` and registers a hook that pickles every other object. The model does not follow that draft. Its corrected `to_json` converts the snapshots field by field through `make_converter`'s converter, so other values are converted as everywhere else.
- Converter.UnstructureDocumented is used only to state the counter finding. The rest of the model, the tracer included, uses the converter as written.
- ConverterExamples.Functions: only `f` is stated. `g`, `h` and `i` of the same test differ only in the name.

## Findings

| source | as written | input that shows it | evidently intended | confidence | as-written member | corrected member |
|---|---|---|---|---|---|---|
| goet/lib/frame/frame.py:164-166 | `to_json` unstructures the slotted attrs `Frame` through the fallback, which returns its field values unconverted; `json.dumps` then meets a `Frame` or `Code` object | any frame, e.g. one with no caller: TypeError "Object of type Code is not JSON serializable" | the frame written as nested dicts, each snapshot converted field by field through `make_converter`'s converter | not executed | Frames.ToJsonAlwaysFails | Frames.ToJsonFixedWritable |
| goet/lib/path/get_root_dir.py:11-15 | the root is found as a substring, so a longer directory name containing `goet` matches first | `/h/goetz/goet/x.py`: 2 levels up, to `/h/goetz`, instead of 1 up to `/h/goetz/goet` | the first path component equal to `goet` | not executed | RootDir.LevelsOvershoot | RootDir.FixedReachesRoot |
| goet/lib/converter/converter.py:42 | the docstring says counters are serialized as dicts, but a `Counter` has an empty `__dict__`, so the fallback's `__dict__` branch catches it first and its items are never read | `Counter({'a': 1})` is written `{}` | the counter written as the dict of its items, `{"a": 1}` | not executed | Converter.CounterLosesItems | Converter.CounterKeepsItems |
