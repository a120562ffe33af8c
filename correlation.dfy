/** How the SQL tracer numbers what it records. Every `line` event takes the
    next id from a counter and records it with the id that was current when
    the enclosing call began, which it reads from the top of a stack of
    parent ids: `call` pushes the current id, `return` pops. The counter
    starts at 0 and the stack at `[None]`. */
module Correlation {
  import opened Outcomes

  /** The five events a trace function is called with. */
  datatype Event = Call | Line | Return | Exception | Opcode

  /** `CURR_FRAME_ID` and `PREV_FRAME_IDS`. */
  datatype Ids = Ids(curr: nat, prev: seq<Option<nat>>)

  const Initial: Ids := Ids(0, [None])

  /** The ids a `line` event records: its own and its parent's. */
  datatype Link = Link(id: nat, backId: Option<nat>)

  /** The ids after one event, the link a `line` event records, and whether
      the handler raised. */
  datatype StepResult = StepResult(ids: Ids, link: Option<Link>, outcome: Outcome)

  /** One event. A `line` on an empty stack has already advanced the
      counter when reading the top raises; a `return` on an empty stack
      raises and changes nothing. */
  function Step(s: Ids, e: Event): StepResult
  {
    match e
    case Call => StepResult(Ids(s.curr, s.prev + [Some(s.curr)]), None, Pass)
    case Line =>
      if s.prev == [] then StepResult(Ids(s.curr + 1, s.prev), None, Fail(IndexError))
      else StepResult(Ids(s.curr + 1, s.prev), Some(Link(s.curr + 1, s.prev[|s.prev| - 1])), Pass)
    case Return =>
      if s.prev == [] then StepResult(s, None, Fail(IndexError))
      else StepResult(Ids(s.curr, s.prev[..|s.prev| - 1]), None, Pass)
    case Exception => StepResult(s, None, Pass)
    case Opcode => StepResult(s, None, Pass)
  }

  /** The ids and the links recorded after a run of events from the initial
      state, or the error of the first handler that raised (tracing stops
      there). */
  datatype Trace = Trace(ids: Ids, links: seq<Link>)

  function Run(events: seq<Event>): Result<Trace>
  {
    if events == [] then Ok(Trace(Initial, []))
    else match Run(events[..|events| - 1])
      case Err(e) => Err(e)
      case Ok(t) =>
        var r := Step(t.ids, events[|events| - 1]);
        if r.outcome.Fail? then Err(r.outcome.error)
        else Ok(Trace(r.ids, t.links + (if r.link.Some? then [r.link.value] else [])))
  }

  function Count(events: seq<Event>, e: Event): nat
  {
    if events == [] then 0
    else Count(events[..|events| - 1], e) + (if events[|events| - 1] == e then 1 else 0)
  }

  /** The stack depth the events leave, counting from the initial `[None]`. */
  function Depth(events: seq<Event>): int
  {
    1 + Count(events, Call) - Count(events, Return)
  }

  /* ---------- properties of one step ---------- */

  /** `call` pushes the current id and changes nothing else; `return` pops
      exactly one entry; `exception` and `opcode` change nothing; none of
      them records a link. */
  lemma StepStack(s: Ids, e: Event)
    requires e != Line
    ensures Step(s, e).link.None? && Step(s, e).ids.curr == s.curr
    ensures e == Call ==> Step(s, e).ids.prev == s.prev + [Some(s.curr)] && Step(s, e).outcome.Pass?
    ensures e == Return ==> (Step(s, e).outcome.Pass? <==> s.prev != [])
    ensures e == Return && s.prev != [] ==> Step(s, e).ids.prev + [s.prev[|s.prev| - 1]] == s.prev
    ensures e == Exception || e == Opcode ==> Step(s, e) == StepResult(s, None, Pass)
  {
    if e == Return && s.prev != [] {
      assert s.prev[..|s.prev| - 1] + [s.prev[|s.prev| - 1]] == s.prev;
    }
  }

  /** `line` advances the counter by one, leaves the stack as it is, and
      records the new id with the id on top of the stack. */
  lemma StepLine(s: Ids)
    ensures Step(s, Line).ids == Ids(s.curr + 1, s.prev)
    ensures Step(s, Line).outcome.Pass? <==> s.prev != []
    ensures s.prev != [] ==> Step(s, Line).link == Some(Link(s.curr + 1, s.prev[|s.prev| - 1]))
  {
  }

  /** No entry on the stack exceeds the counter, and the links recorded so
      far are numbered 1, 2, 3, … with each parent id below its own. */
  ghost predicate Consistent(t: Trace)
  {
    (forall j :: 0 <= j < |t.ids.prev| && t.ids.prev[j].Some? ==> t.ids.prev[j].value <= t.ids.curr) &&
    |t.links| == t.ids.curr &&
    forall i :: 0 <= i < |t.links| ==>
      t.links[i].id == i + 1 && (t.links[i].backId.Some? ==> t.links[i].backId.value < t.links[i].id)
  }

  lemma StepKeepsConsistent(t: Trace, e: Event)
    requires Consistent(t) && Step(t.ids, e).outcome.Pass?
    ensures var r := Step(t.ids, e);
      Consistent(Trace(r.ids, t.links + (if r.link.Some? then [r.link.value] else [])))
  {
    var r := Step(t.ids, e);
    var links := t.links + (if r.link.Some? then [r.link.value] else []);
    if e == Line {
      var top := t.ids.prev[|t.ids.prev| - 1];
      assert links == t.links + [Link(t.ids.curr + 1, top)];
    } else if e == Return {
      forall j | 0 <= j < |r.ids.prev|
        ensures r.ids.prev[j] == t.ids.prev[j]
      {
      }
    }
  }

  /* ---------- properties of a run ---------- */

  /** After any run that did not raise, the stack holds 1 + calls − returns
      entries, the counter equals the number of lines, and the recorded
      links are numbered 1, 2, 3, … with every parent id below its own. */
  lemma {:induction false} RunCounts(events: seq<Event>)
    requires Run(events).Ok?
    ensures var t := Run(events).value;
      |t.ids.prev| == Depth(events) && t.ids.curr == Count(events, Line) && Consistent(t)
  {
    if events != [] {
      var init := events[..|events| - 1];
      RunCounts(init);
      var t := Run(init).value;
      StepKeepsConsistent(t, events[|events| - 1]);
    }
  }

  /** A run raises exactly when some `line` or `return` comes while the
      stack is empty, that is, after more returns than calls. */
  lemma {:induction false} RunOk(events: seq<Event>)
    ensures Run(events).Ok? <==>
      forall k :: 0 <= k < |events| && (events[k] == Line || events[k] == Return) ==> Depth(events[..k]) > 0
  {
    if events != [] {
      var n := |events| - 1;
      var init := events[..n];
      RunOk(init);
      assert forall k :: 0 <= k < n ==> init[..k] == events[..k] && init[k] == events[k];
      assert events[..n] == init;
      if Run(init).Ok? {
        RunCounts(init);
      }
    }
  }

  /** Running one more event: the step after the run of the events before it. */
  lemma RunSnoc(events: seq<Event>, e: Event)
    ensures Run(events + [e]) ==
      match Run(events)
      case Err(err) => Err(err)
      case Ok(t) =>
        var r := Step(t.ids, e);
        if r.outcome.Fail? then Err(r.outcome.error)
        else Ok(Trace(r.ids, t.links + (if r.link.Some? then [r.link.value] else [])))
  {
    assert (events + [e])[..|events|] == events;
  }

  /** The events line, call, line, return, line record (1, None), (2, 1)
      and (3, None). */
  lemma RunExample(events: seq<Event>)
    requires events == [Line, Call, Line, Return, Line]
    ensures Run(events) == Ok(Trace(Ids(3, [None]), [Link(1, None), Link(2, Some(1)), Link(3, None)]))
  {
    var e0: seq<Event> := [];
    var l0: seq<Link> := [];
    var l1, l2 := l0 + [Link(1, None)], l0 + [Link(1, None)] + [Link(2, Some(1))];
    var e1 := e0 + [Line];
    RunSnoc(e0, Line);
    assert Run(e1) == Ok(Trace(Ids(1, [None]), l1));
    var e2 := e1 + [Call];
    RunSnoc(e1, Call);
    var p1: seq<Option<nat>> := [None];
    assert Step(Ids(1, p1), Call) == StepResult(Ids(1, [None, Some(1)]), None, Pass);
    assert l1 + l0 == l1;
    assert Run(e2) == Ok(Trace(Ids(1, [None, Some(1)]), l1));
    var e3 := e2 + [Line];
    RunSnoc(e2, Line);
    assert Run(e3) == Ok(Trace(Ids(2, [None, Some(1)]), l2));
    var e4 := e3 + [Return];
    RunSnoc(e3, Return);
    var p2: seq<Option<nat>> := [None, Some(1)];
    assert p2[..1] == [None];
    assert Step(Ids(2, p2), Return) == StepResult(Ids(2, [None]), None, Pass);
    assert l2 + l0 == l2;
    assert Run(e4) == Ok(Trace(Ids(2, [None]), l2));
    var e5 := e4 + [Line];
    RunSnoc(e4, Line);
    assert Run(e5) == Ok(Trace(Ids(3, [None]), l2 + [Link(3, None)]));
    assert e5 == events;
    assert l2 + [Link(3, None)] == [Link(1, None), Link(2, Some(1)), Link(3, None)];
  }

  /** A `return` that empties the initial stack makes the next `line` raise
      an IndexError. */
  lemma RunEmptiedStack(events: seq<Event>)
    requires events == [Return, Line]
    ensures Run(events) == Err(IndexError)
  {
    var e0: seq<Event> := [];
    var e1 := e0 + [Return];
    RunSnoc(e0, Return);
    var bottom: seq<Option<nat>> := [None];
    assert bottom[..0] == [];
    var l0: seq<Link> := [];
    assert l0 + l0 == l0;
    assert Step(Ids(0, bottom), Return) == StepResult(Ids(0, []), None, Pass);
    assert Run(e1) == Ok(Trace(Ids(0, []), []));
    RunSnoc(e1, Line);
    assert e1 + [Line] == events;
  }
}
