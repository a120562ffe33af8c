/** The tracers: `BaseTracer.tracefunc`, which arms the frame it is called
    for and hands the event to one handler, and `SqlTracer`, whose handlers
    number frames through the shared counter and stack of parent ids and
    record one row per `line` event. */
module Tracers {
  import opened Outcomes
  import opened Values
  import opened Runtime
  import Correlation
  import Converter
  import Frames

  /** The event name the interpreter passes for each event. */
  function EventName(e: Correlation.Event): string
  {
    match e
    case Call => "call"
    case Line => "line"
    case Return => "return"
    case Exception => "exception"
    case Opcode => "opcode"
  }

  /** The lookup `mapping[event]`: a KeyError for any other name. */
  function ParseEvent(name: string): (r: Result<Correlation.Event>)
    ensures r.Ok? ==> EventName(r.value) == name
    ensures r.Err? ==> r.error == KeyError(name) && forall e: Correlation.Event :: EventName(e) != name
  {
    if name == "call" then Ok(Correlation.Call)
    else if name == "line" then Ok(Correlation.Line)
    else if name == "return" then Ok(Correlation.Return)
    else if name == "exception" then Ok(Correlation.Exception)
    else if name == "opcode" then Ok(Correlation.Opcode)
    else Err(KeyError(name))
  }

  /** Every event's name is looked up to that event. */
  lemma ParseEventName(e: Correlation.Event)
    ensures ParseEvent(EventName(e)) == Ok(e)
  {
  }

  /** The handlers of the `Tracer` protocol, as a class that does not
      override them runs them. */
  function DefaultHandler(e: Correlation.Event): Outcome
  {
    Fail(NotImplementedError)
  }

  /** The bound method `self.tracefunc`, as the interpreter stores it. */
  const TraceHook: Obj := Obj("method", true, Some("tracefunc"), None, [], None, NotADict, [], false, false, [])

  /** The three assignments `tracefunc` makes to the frame it is called for:
      traced by `tracefunc`, line by line, not opcode by opcode. */
  method Arm(sf: SysFrame)
    modifies sf
    ensures sf.f_trace == Some(TraceHook) && sf.f_trace_lines && !sf.f_trace_opcodes
    ensures sf.f_lasti == old(sf.f_lasti) && sf.f_lineno == old(sf.f_lineno)
  {
    sf.f_trace := Some(TraceHook);
    sf.f_trace_lines := true;
    sf.f_trace_opcodes := false;
  }

  /** A `BaseTracer` that overrides none of the protocol's handlers. */
  class ProtocolTracer {
    constructor ()
    {
    }

    /** `tracefunc(frame, event, arg)`: an unknown event is a KeyError and
        leaves the frame alone; any of the five arms the frame first and
        then raises NotImplementedError from the inherited handler. */
    method TraceFunc(sf: SysFrame, event: string) returns (o: Outcome)
      modifies sf
      ensures ParseEvent(event).Err? ==> o == Fail(KeyError(event)) && unchanged(sf)
      ensures ParseEvent(event).Ok? ==>
        o == Fail(NotImplementedError) &&
        sf.f_trace == Some(TraceHook) && sf.f_trace_lines && !sf.f_trace_opcodes &&
        sf.f_lasti == old(sf.f_lasti) && sf.f_lineno == old(sf.f_lineno)
    {
      var parsed := ParseEvent(event);
      if parsed.Err? {
        return Fail(parsed.error);
      }
      Arm(sf);
      o := DefaultHandler(parsed.value);
    }
  }

  /** One row of the `frames` table. */
  datatype Row = Row(runId: string, fId: nat, fBackId: Option<nat>, fFilename: string, fLineno: int, fLocals: string)

  /** `json.dumps(converter.unstructure(frame.f_locals))`. */
  function LocalsText(items: seq<(string, Value)>): Result<string>
  {
    Converter.DumpsUnstructured(Frames.LocalsValue(items))
  }

  /** What an event does to the ids, which rows it records and whether its
      handler raised. */
  datatype Effect = Effect(ids: Correlation.Ids, emitted: seq<Row>, outcome: Outcome)

  /** The SQL tracer's handler for an event at a frame with the given file
      name, line and serialized locals. */
  function Handle(runId: string, s: Correlation.Ids, e: Correlation.Event, filename: string, lineno: int,
                  locals: Result<string>): Effect
  {
    var r := Correlation.Step(s, e);
    if e != Correlation.Line || r.outcome.Fail? then Effect(r.ids, [], r.outcome)
    else if locals.Err? then Effect(r.ids, [], Fail(locals.error))
    else Effect(r.ids, [Row(runId, r.link.value.id, r.link.value.backId, filename, lineno, locals.value)], Pass)
  }

  /** The handlers number frames exactly as the correlation step does, and
      only a `line` event whose stack is not empty and whose locals are
      serializable records a row: the one for the step's link. */
  lemma HandleFollowsStep(runId: string, s: Correlation.Ids, e: Correlation.Event, filename: string, lineno: int,
                          locals: Result<string>)
    ensures var h, r := Handle(runId, s, e, filename, lineno, locals), Correlation.Step(s, e);
      h.ids == r.ids && |h.emitted| <= 1 &&
      (h.emitted != [] <==> e == Correlation.Line && r.outcome.Pass? && locals.Ok?) &&
      (h.emitted != [] ==>
         r.link.Some? && h.emitted[0] == Row(runId, r.link.value.id, r.link.value.backId, filename, lineno, locals.value)) &&
      (h.outcome.Pass? <==> r.outcome.Pass? && (e == Correlation.Line ==> locals.Ok?))
  {
    if e == Correlation.Line {
      Correlation.StepLine(s);
    } else {
      Correlation.StepStack(s, e);
    }
  }

  /** `CURR_FRAME_ID` and `PREV_FRAME_IDS`: module globals, so every tracer
      shares one. */
  class FrameIds {
    var curr: nat
    var prev: seq<Option<nat>>

    constructor ()
      ensures State() == Correlation.Initial
    {
      curr := 0;
      prev := [None];
    }

    function State(): Correlation.Ids
      reads this
    {
      Correlation.Ids(curr, prev)
    }
  }

  /** `SqlTracer`: the rows it has written to the `frames` table, the shared
      ids, and the interpreter whose trace function it installs. */
  class SqlTracer {
    const runId: string
    const ids: FrameIds
    const interp: Interpreter
    var rows: seq<Row>

    /** `SqlTracer(connection)`; `run_id` is the fresh uuid4 text. */
    constructor (runId: string, ids: FrameIds, interp: Interpreter)
      ensures this.runId == runId && this.ids == ids && this.interp == interp && rows == []
    {
      this.runId := runId;
      this.ids := ids;
      this.interp := interp;
      rows := [];
    }

    /** `__enter__`, run in frame `current`: arms the frame that entered the
        `with` block and installs the trace function. */
    method Enter(current: SysFrame) returns (o: Outcome)
      requires current.Valid()
      modifies if current.f_back.Some? then {current.f_back.value} else {}, interp
      ensures current.f_back.None? ==> o == Fail(AttributeError("f_trace")) && unchanged(interp)
      ensures current.f_back.Some? ==>
        o == Pass && interp.traceFunction == Some(TraceHook) &&
        interp.installed == old(interp.installed) + [Some(TraceHook)]
      ensures current.f_back.Some? ==>
        current.f_back.value.f_trace == Some(TraceHook) && current.f_back.value.f_trace_lines &&
        current.f_back.value.f_trace_opcodes == old(current.f_back.value.f_trace_opcodes) &&
        current.f_back.value.f_lineno == old(current.f_back.value.f_lineno) &&
        current.f_back.value.f_lasti == old(current.f_back.value.f_lasti)
    {
      if current.f_back.None? {
        return Fail(AttributeError("f_trace"));
      }
      var caller := current.f_back.value;
      caller.f_trace := Some(TraceHook);
      caller.f_trace_lines := true;
      interp.SetTrace(Some(TraceHook));
      o := Pass;
    }

    /** `BaseTracer.__exit__`: uninstalls the trace function. */
    method BaseExit()
      modifies interp
      ensures interp.traceFunction.None? && interp.installed == old(interp.installed) + [None]
    {
      interp.SetTrace(None);
    }

    /** `SqlTracer.__exit__`: uninstalls the trace function itself, then
        once more through `BaseTracer.__exit__`. */
    method Exit()
      modifies interp
      ensures interp.traceFunction.None? && interp.installed == old(interp.installed) + [None, None]
    {
      interp.SetTrace(None);
      BaseExit();
    }

    method DispatchCall(sf: SysFrame)
      modifies ids
      ensures ids.State() == Correlation.Step(old(ids.State()), Correlation.Call).ids
    {
      ids.prev := ids.prev + [Some(ids.curr)];
    }

    /** The `line` handler, inside `pause_tracing`: the trace function is
        uninstalled before it works; once the row is written the handler
        installs `tracefunc` itself, and `pause_tracing` installs it again
        on the way out, whether or not the handler raised. */
    method DispatchLine(sf: SysFrame) returns (o: Outcome)
      modifies ids, this, interp
      ensures var h := Handle(runId, old(ids.State()), Correlation.Line, sf.f_code.co_filename, sf.f_lineno,
                              LocalsText(sf.f_locals.items));
        ids.State() == h.ids && rows == old(rows) + h.emitted && o == h.outcome
      ensures interp.traceFunction == Some(TraceHook)
      ensures interp.installed ==
        old(interp.installed) + [None] + (if o.Pass? then [Some(TraceHook)] else []) + [Some(TraceHook)]
    {
      interp.SetTrace(None);
      ids.curr := ids.curr + 1;
      if ids.prev == [] {
        o := Fail(IndexError);
      } else {
        var backId := ids.prev[|ids.prev| - 1];
        var text := LocalsText(sf.f_locals.items);
        if text.Err? {
          o := Fail(text.error);
        } else {
          rows := rows + [Row(runId, ids.curr, backId, sf.f_code.co_filename, sf.f_lineno, text.value)];
          interp.SetTrace(Some(TraceHook));
          o := Pass;
        }
      }
      interp.SetTrace(Some(TraceHook));
    }

    method DispatchReturn(sf: SysFrame) returns (o: Outcome)
      modifies ids
      ensures var r := Correlation.Step(old(ids.State()), Correlation.Return);
        ids.State() == r.ids && o == r.outcome
    {
      if ids.prev == [] {
        return Fail(IndexError);
      }
      ids.prev := ids.prev[..|ids.prev| - 1];
      o := Pass;
    }

    method DispatchException(sf: SysFrame) returns (o: Outcome)
      ensures o == Correlation.Step(ids.State(), Correlation.Exception).outcome
    {
      o := Pass;
    }

    method DispatchOpcode(sf: SysFrame) returns (o: Outcome)
      ensures o == Correlation.Step(ids.State(), Correlation.Opcode).outcome
    {
      o := Pass;
    }

    /** `tracefunc(frame, event, arg)`: looks the handler up, arms the frame
        to be traced line by line, and runs exactly that handler. */
    method TraceFunc(sf: SysFrame, event: string) returns (o: Outcome)
      modifies sf, ids, this, interp
      ensures ParseEvent(event).Err? ==>
        o == Fail(KeyError(event)) && unchanged(sf, ids, interp) && rows == old(rows)
      ensures ParseEvent(event).Ok? ==>
        sf.f_trace == Some(TraceHook) && sf.f_trace_lines && !sf.f_trace_opcodes &&
        sf.f_lasti == old(sf.f_lasti) && sf.f_lineno == old(sf.f_lineno)
      ensures ParseEvent(event).Ok? ==>
        var h := Handle(runId, old(ids.State()), ParseEvent(event).value, sf.f_code.co_filename, sf.f_lineno,
                        LocalsText(sf.f_locals.items));
        ids.State() == h.ids && rows == old(rows) + h.emitted && o == h.outcome
      ensures interp.traceFunction ==
        if ParseEvent(event) == Ok(Correlation.Line) then Some(TraceHook) else old(interp.traceFunction)
      ensures interp.installed ==
        old(interp.installed) +
          if ParseEvent(event) == Ok(Correlation.Line)
          then [None] + (if o.Pass? then [Some(TraceHook)] else []) + [Some(TraceHook)]
          else []
    {
      var parsed := ParseEvent(event);
      if parsed.Err? {
        return Fail(parsed.error);
      }
      Arm(sf);
      match parsed.value
      case Call =>
        DispatchCall(sf);
        o := Pass;
      case Line =>
        o := DispatchLine(sf);
      case Return =>
        o := DispatchReturn(sf);
      case Exception =>
        o := DispatchException(sf);
      case Opcode =>
        o := DispatchOpcode(sf);
    }
  }
}
