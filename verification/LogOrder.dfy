/** What the asynchronous log writes, and in which order, told from the steps taken. */
module LogOrder {
  import opened AsyncLog
  import opened Counting
  import opened Wrappers

  /** The state behind a list of steps, if all can be taken. */
  function After(producers: nat, steps: seq<Step>, isAsync: bool, max: nat): Option<State> {
    if steps == [] then Some(Start(producers))
    else
      var before := After(producers, steps[..|steps| - 1], isAsync, max);
      var last := steps[|steps| - 1];
      if before.Some? && Enabled(before.value, last) then Some(Move(before.value, last, isAsync, max)) else None
  }

  /** The lines given to write_log. */
  function Given(steps: seq<Step>): seq<Line> {
    if steps == [] then []
    else
      Given(steps[..|steps| - 1]) + if steps[|steps| - 1].Produce? then [steps[|steps| - 1].line] else []
  }

  datatype Kind = Direct | Queued | Popped

  /** The lines that steps of a kind handled: written directly, pushed while there was room, or popped and
      written. */
  function Handled(producers: nat, steps: seq<Step>, isAsync: bool, max: nat, kind: Kind): seq<Line>
    requires After(producers, steps, isAsync, max).Some?
  {
    if steps == [] then []
    else
      var front, last := steps[..|steps| - 1], steps[|steps| - 1];
      Handled(producers, front, isAsync, max, kind) + HandledBy(After(producers, front, isAsync, max).value, last, max, kind)
  }

  function HandledBy(s: State, step: Step, max: nat, kind: Kind): seq<Line>
    requires Enabled(s, step)
  {
    match step
    case WriteDirect(p) => if kind == Direct then [s.hands[p].value] else []
    case Enqueue(p) => if kind == Queued && |s.queue| < max then [s.hands[p].value] else []
    case WritePopped => if kind == Popped then [s.writer.value] else []
    case _ => []
  }

  function OnePopped(c: Option<Line>): seq<Line> { if c.Some? then [c.value] else [] }

  /** The lines of the file, in order: those written directly and those popped, as the steps came. */
  function Written(producers: nat, steps: seq<Step>, isAsync: bool, max: nat): seq<Line>
    requires After(producers, steps, isAsync, max).Some?
  {
    if steps == [] then []
    else
      var front, last := steps[..|steps| - 1], steps[|steps| - 1];
      var s := After(producers, front, isAsync, max).value;
      Written(producers, front, isAsync, max) + HandledBy(s, last, max, Direct) + HandledBy(s, last, max, Popped)
  }

  lemma StepInOrder(s: State, step: Step, isAsync: bool, max: nat, queued: seq<Line>, popped: seq<Line>, written: seq<Line>)
    requires Enabled(s, step)
    requires queued == popped + OnePopped(s.writer) + s.queue && s.file == written
    ensures var u := Move(s, step, isAsync, max);
            && queued + HandledBy(s, step, max, Queued) == popped + HandledBy(s, step, max, Popped) + OnePopped(u.writer) + u.queue
            && u.file == written + HandledBy(s, step, max, Direct) + HandledBy(s, step, max, Popped)
            && u.produced == s.produced + (if step.Produce? then [step.line] else [])
  {
    assert written + [] == written && written + [] + [] == written && queued + [] == queued && popped + [] == popped;
    match step
    case Pop => assert s.queue == [s.queue[0]] + s.queue[1..] && popped + [] + s.queue == popped + s.queue;
    case WritePopped => assert popped + [s.writer.value] + [] + s.queue == popped + [s.writer.value] + s.queue;
    case _ =>
  }

  /** In every run, told from its steps: the lines pushed into the queue leave it, and are written, in the
      order in which they were pushed; the file holds exactly the lines written, in the order of the steps;
      and the lines accounted for are those given to write_log. */
  lemma {:induction false} WrittenInOrder(producers: nat, steps: seq<Step>, isAsync: bool, max: nat)
    requires After(producers, steps, isAsync, max).Some?
    ensures var s := After(producers, steps, isAsync, max).value;
            && Handled(producers, steps, isAsync, max, Queued)
               == Handled(producers, steps, isAsync, max, Popped) + OnePopped(s.writer) + s.queue
            && s.file == Written(producers, steps, isAsync, max)
            && s.produced == Given(steps)
  {
    hide Move, Enabled, HandledBy, OnePopped;
    if steps == [] {
      assert OnePopped(Start(producers).writer) == [] by { NothingPopped(producers); }
    } else {
      var front, last := steps[..|steps| - 1], steps[|steps| - 1];
      WrittenInOrder(producers, front, isAsync, max);
      StepInOrder(After(producers, front, isAsync, max).value, last, isAsync, max,
                  Handled(producers, front, isAsync, max, Queued), Handled(producers, front, isAsync, max, Popped),
                  Written(producers, front, isAsync, max));
    }
  }

  lemma NothingPopped(producers: nat)
    ensures OnePopped(Start(producers).writer) == []
  {
  }

  lemma {:induction false} AfterKeepsInv(producers: nat, steps: seq<Step>, isAsync: bool, max: nat)
    requires After(producers, steps, isAsync, max).Some?
    ensures Inv(After(producers, steps, isAsync, max).value)
  {
    hide Inv, Move, Enabled;
    if steps == [] {
      StartInv(producers);
    } else {
      AfterKeepsInv(producers, steps[..|steps| - 1], isAsync, max);
      StepKeepsInv(After(producers, steps[..|steps| - 1], isAsync, max).value, steps[|steps| - 1], isAsync, max);
    }
  }

  /** Every line given to write_log is with its producer, queued, with the writer, in the file or lost. */
  lemma GivenConserved(producers: nat, steps: seq<Step>, isAsync: bool, max: nat, x: Line)
    requires After(producers, steps, isAsync, max).Some?
    ensures var s := After(producers, steps, isAsync, max).value;
            Times(Given(steps), x)
            == Held(s.hands)[x] + Times(s.queue, x) + (if s.writer == Some(x) then 1 else 0) + Times(s.file, x) + Times(s.lost, x)
  {
    AfterKeepsInv(producers, steps, isAsync, max);
    WrittenInOrder(producers, steps, isAsync, max);
    hide After, Held, Times;
    assert Balanced(After(producers, steps, isAsync, max).value, x);
  }

  // ----- what the sequences of steps come to

  /** A line is queued while there is room, and otherwise written at once. */
  lemma ProducerRound(s: State, p: nat, line: Line, isAsync: bool, max: nat) returns (t: State)
    requires Enabled(s, Produce(p, line)) && s.hands[p] == None
    ensures var s1 := Move(s, Produce(p, line), isAsync, max);
            && Enabled(s1, Route(p))
            && var s2 := Move(s1, Route(p), isAsync, max);
               if isAsync && |s.queue| < max then Enabled(s2, Enqueue(p)) && t == Move(s2, Enqueue(p), isAsync, max)
               else Enabled(s2, WriteDirect(p)) && t == Move(s2, WriteDirect(p), isAsync, max)
    ensures t == if isAsync && |s.queue| < max then s.(queue := s.queue + [line], produced := s.produced + [line])
                 else s.(file := s.file + [line], produced := s.produced + [line])
  {
    var s2 := Move(Move(s, Produce(p, line), isAsync, max), Route(p), isAsync, max);
    t := Move(s2, if isAsync && |s.queue| < max then Enqueue(p) else WriteDirect(p), isAsync, max);
    assert s.pcs[p := Calling] == s.pcs && s.hands[p := None] == s.hands;
  }

  /** The writer moves the first line of the queue to the file. */
  lemma WriterRound(s: State, isAsync: bool, max: nat) returns (t: State)
    requires s.writer == None && s.queue != []
    ensures Enabled(s, Pop) && Enabled(Move(s, Pop, isAsync, max), WritePopped)
    ensures t == Move(Move(s, Pop, isAsync, max), WritePopped, isAsync, max)
              == s.(queue := s.queue[1..], file := s.file + [s.queue[0]])
  {
    t := Move(Move(s, Pop, isAsync, max), WritePopped, isAsync, max);
  }
}
