/** The interpreter objects the tracer is handed: code objects, frames with
    their locals, and the per-thread trace function that `sys.settrace`
    installs. Frames link to their caller through `f_back`; the trace
    fields of a frame are writable, everything else is fixed once the
    frame exists. */
module Runtime {
  import opened Outcomes
  import opened Values
  import Base85

  /** An interpreter code object, with the fields that are copied into a
      snapshot and a few that are not. */
  datatype SysCode = SysCode(
    co_name: string,
    co_argcount: int,
    co_posonlyargcount: int,
    co_kwonlyargcount: int,
    co_nlocals: int,
    co_varnames: seq<string>,
    co_code: seq<Base85.Byte>,
    co_consts: seq<Value>,
    co_names: seq<string>,
    co_filename: string,
    co_firstlineno: int,
    co_lnotab: seq<Base85.Byte>,
    co_stacksize: int,
    co_flags: int)

  /** The dict a frame looks its local variables up in; the running code
      changes it in place. */
  class LocalsDict {
    var items: seq<(string, Value)>

    constructor (items: seq<(string, Value)>)
      ensures this.items == items
    {
      this.items := items;
    }
  }

  /** An interpreter frame. `depth` is the number of frames below it on the
      call stack. */
  class SysFrame {
    const f_back: Option<SysFrame>
    const f_code: SysCode
    const f_locals: LocalsDict
    var f_lasti: int
    var f_trace: Option<Obj>
    var f_trace_lines: bool
    var f_trace_opcodes: bool
    var f_lineno: int
    ghost const depth: nat

    /** The caller chain is finite: each caller sits lower on the stack. */
    ghost predicate Valid()
      decreases depth
    {
      f_back.Some? ==> f_back.value.depth < depth && f_back.value.Valid()
    }

    /** This frame and every frame below it. */
    ghost function Chain(): (c: set<SysFrame>)
      requires Valid()
      ensures this in c
      ensures f_back.Some? ==> f_back.value.Chain() <= c
      decreases depth
    {
      {this} + (if f_back.Some? then f_back.value.Chain() else {})
    }

    /** The locals of this frame and every frame below it. */
    ghost function ChainLocals(): (c: set<LocalsDict>)
      requires Valid()
      ensures f_locals in c
      ensures f_back.Some? ==> f_back.value.ChainLocals() <= c
      decreases depth
    {
      {f_locals} + (if f_back.Some? then f_back.value.ChainLocals() else {})
    }

    /** A frame as the interpreter pushes it for a call from `back`: not
        traced until a trace function arms it. */
    constructor (back: Option<SysFrame>, code: SysCode, locals: LocalsDict, lineno: int)
      requires back.Some? ==> back.value.Valid()
      ensures Valid() && f_back == back && f_code == code && f_locals == locals
      ensures f_trace.None? && f_trace_lines && !f_trace_opcodes && f_lineno == lineno
    {
      f_back := back;
      f_code := code;
      f_locals := locals;
      f_lasti := -1;
      f_trace := None;
      f_trace_lines := true;
      f_trace_opcodes := false;
      f_lineno := lineno;
      depth := if back.Some? then back.value.depth + 1 else 0;
    }
  }

  /** The trace function `sys.settrace` installs for the running thread. */
  class Interpreter {
    var traceFunction: Option<Obj>
    /** Every trace function `sys.settrace` has installed, oldest first. */
    ghost var installed: seq<Option<Obj>>

    constructor ()
      ensures traceFunction.None? && installed == []
    {
      traceFunction := None;
      installed := [];
    }

    /** `sys.settrace(f)`. */
    method SetTrace(f: Option<Obj>)
      modifies this
      ensures traceFunction == f && installed == old(installed) + [f]
    {
      traceFunction := f;
      installed := installed + [f];
    }
  }
}
