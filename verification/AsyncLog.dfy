/** The asynchronous log: write_log in any number of threads, asyn_write_log in one, over the queue as a
    bounded FIFO. */
module AsyncLog {
  import opened Counting
  import opened Wrappers

  type Line = string

  /** write_log before a line is formatted, before the full() test, before push, before fputs. */
  datatype Pc = Calling | Routing | Queueing | Writing

  /** writer is the line popped but not written. produced and lost are recorded. */
  datatype State = State(
    pcs: seq<Pc>, hands: seq<Option<Line>>, queue: seq<Line>, writer: Option<Line>, file: seq<Line>,
    produced: seq<Line>, lost: seq<Line>)

  datatype Step = Produce(p: nat, line: Line) | Route(p: nat) | Enqueue(p: nat) | WriteDirect(p: nat) | Pop | WritePopped

  predicate AtPc(s: State, p: nat, pc: Pc) {
    p < |s.pcs| == |s.hands| && s.pcs[p] == pc && (pc == Calling || s.hands[p].Some?)
  }

  predicate Enabled(s: State, step: Step) {
    match step
    case Produce(p, _) => AtPc(s, p, Calling)
    case Route(p) => AtPc(s, p, Routing)
    case Enqueue(p) => AtPc(s, p, Queueing)
    case WriteDirect(p) => AtPc(s, p, Writing)
    case Pop => s.writer == None && s.queue != []
    case WritePopped => s.writer.Some?
  }

  function Move(s: State, step: Step, isAsync: bool, max: nat): State
    requires Enabled(s, step)
  {
    match step
    case Produce(p, line) =>
      s.(pcs := s.pcs[p := Routing], hands := s.hands[p := Some(line)], produced := s.produced + [line])
    case Route(p) => s.(pcs := s.pcs[p := if isAsync && |s.queue| < max then Queueing else Writing])
    case Enqueue(p) =>
      // push refuses when the queue has filled up since full() was asked; nobody looks at its answer
      var t := s.(pcs := s.pcs[p := Calling], hands := s.hands[p := None]);
      if |s.queue| < max then t.(queue := s.queue + [s.hands[p].value]) else t.(lost := s.lost + [s.hands[p].value])
    case WriteDirect(p) =>
      s.(pcs := s.pcs[p := Calling], hands := s.hands[p := None], file := s.file + [s.hands[p].value])
    case Pop => s.(writer := Some(s.queue[0]), queue := s.queue[1..])
    case WritePopped => s.(file := s.file + [s.writer.value], writer := None)
  }

  function Start(producers: nat): State {
    State(seq(producers, _ => Calling), Nothing(producers), [], None, [], [], [])
  }

  ghost predicate Next(s: State, u: State, isAsync: bool, max: nat) {
    exists step :: Enabled(s, step) && u == Move(s, step, isAsync, max)
  }

  ghost predicate IsRun(run: seq<State>, producers: nat, isAsync: bool, max: nat) {
    && run != [] && run[0] == Start(producers)
    && forall i :: 0 <= i < |run| - 1 ==> Next(run[i], run[i + 1], isAsync, max)
  }

  // ----- conservation

  predicate HandsFollowPcs(s: State) {
    |s.pcs| == |s.hands| && forall p :: 0 <= p < |s.pcs| ==> (s.pcs[p] == Calling <==> s.hands[p] == None)
  }

  /** For one line: as many as were produced. */
  predicate Balanced(s: State, x: Line) {
    Held(s.hands)[x] + Times(s.queue, x) + (if s.writer == Some(x) then 1 else 0) + Times(s.file, x) + Times(s.lost, x)
    == Times(s.produced, x)
  }

  ghost predicate Inv(s: State) { HandsFollowPcs(s) && forall x :: Balanced(s, x) }

  lemma ProducerBalances(s: State, step: Step, isAsync: bool, max: nat, x: Line)
    requires HandsFollowPcs(s) && Balanced(s, x) && Enabled(s, step) && !step.Pop? && !step.WritePopped?
    ensures Balanced(Move(s, step, isAsync, max), x)
  {
    hide Held, Times;
    if !step.Route? {
      HeldUpdate(s.hands, step.p, Move(s, step, isAsync, max).hands[step.p], x);
      var v := if step.Produce? then step.line else s.hands[step.p].value;
      TimesAppended(s.produced, v, x);
      TimesAppended(s.queue, v, x);
      TimesAppended(s.file, v, x);
      TimesAppended(s.lost, v, x);
    }
  }

  lemma WriterBalances(s: State, step: Step, isAsync: bool, max: nat, x: Line)
    requires Balanced(s, x) && Enabled(s, step) && (step.Pop? || step.WritePopped?)
    ensures Balanced(Move(s, step, isAsync, max), x)
  {
    hide Held, Times;
    if step == Pop { TimesFirst(s.queue, x); } else { TimesAppended(s.file, s.writer.value, x); }
  }

  lemma KeepsHands(s: State, step: Step, isAsync: bool, max: nat)
    requires HandsFollowPcs(s) && Enabled(s, step)
    ensures HandsFollowPcs(Move(s, step, isAsync, max)) && |Move(s, step, isAsync, max).pcs| == |s.pcs|
  {
  }

  lemma StepKeepsInv(s: State, step: Step, isAsync: bool, max: nat)
    requires Inv(s) && Enabled(s, step)
    ensures Inv(Move(s, step, isAsync, max))
  {
    hide Balanced, Move, Enabled;
    KeepsHands(s, step, isAsync, max);
    forall x ensures Balanced(Move(s, step, isAsync, max), x) {
      if step.Pop? || step.WritePopped? { WriterBalances(s, step, isAsync, max, x); }
      else { ProducerBalances(s, step, isAsync, max, x); }
    }
  }

  lemma StartInv(producers: nat)
    ensures Inv(Start(producers))
  {
    NoneHeld<Line>(producers);
  }

  lemma {:induction false} RunsKeepInv(run: seq<State>, producers: nat, isAsync: bool, max: nat, n: nat)
    requires IsRun(run, producers, isAsync, max) && n < |run|
    ensures Inv(run[n]) && |run[n].pcs| == producers
  {
    hide Inv, Move, Enabled;
    if n == 0 {
      StartInv(producers);
    } else {
      RunsKeepInv(run, producers, isAsync, max, n - 1);
      assert Next(run[n - 1], run[n], isAsync, max);
      var step :| Enabled(run[n - 1], step) && run[n] == Move(run[n - 1], step, isAsync, max);
      StepKeepsInv(run[n - 1], step, isAsync, max);
      InvHands(run[n - 1]);
      KeepsHands(run[n - 1], step, isAsync, max);
    }
  }

  lemma InvHands(s: State)
    requires Inv(s)
    ensures HandsFollowPcs(s)
  {
  }

  /** Conservation, in every run: the lines produced are those in a producer's hands, queued, in the
      writer's hand, written, and lost between full() and push. */
  lemma LinesConserved(run: seq<State>, producers: nat, isAsync: bool, max: nat, n: nat)
    requires IsRun(run, producers, isAsync, max) && n < |run|
    ensures multiset(run[n].produced)
         == Held(run[n].hands) + multiset(run[n].queue) + One(run[n].writer) + multiset(run[n].file) + multiset(run[n].lost)
  {
    hide IsRun, Held;
    RunsKeepInv(run, producers, isAsync, max, n);
    var s := run[n];
    forall x
      ensures (Held(s.hands) + multiset(s.queue) + One(s.writer) + multiset(s.file) + multiset(s.lost))[x]
           == multiset(s.produced)[x]
    {
      assert Balanced(s, x);
    }
  }

  /** What one producer's queue test is worth: nobody else pushes. */
  lemma AloneStaysBelow(s: State, step: Step, isAsync: bool, max: nat)
    requires HandsFollowPcs(s) && Enabled(s, step) && |s.pcs| <= 1
    requires s.lost == [] && (Queueing in s.pcs ==> |s.queue| < max)
    ensures Move(s, step, isAsync, max).lost == []
    ensures Queueing in Move(s, step, isAsync, max).pcs ==> |Move(s, step, isAsync, max).queue| < max
  {
    if step.Route? || step.Enqueue? { assert step.p == 0; }
  }

  /** With one producer nothing is lost: the queue only shrinks between its full() and its push. */
  lemma {:induction false} OneProducerLosesNone(run: seq<State>, producers: nat, isAsync: bool, max: nat, n: nat)
    requires IsRun(run, producers, isAsync, max) && n < |run| && producers <= 1
    ensures run[n].lost == []
    ensures Queueing in run[n].pcs ==> |run[n].queue| < max
  {
    if n == 0 {
    } else {
      OneProducerLosesNone(run, producers, isAsync, max, n - 1);
      RunsKeepInv(run, producers, isAsync, max, n - 1);
      assert Next(run[n - 1], run[n], isAsync, max);
      hide Inv, Move, Enabled, IsRun;
      var step :| Enabled(run[n - 1], step) && run[n] == Move(run[n - 1], step, isAsync, max);
      InvHands(run[n - 1]);
      AloneStaysBelow(run[n - 1], step, isAsync, max);
    }
  }

  /** Without the asynchronous mode, or without any room, nothing is queued or lost. */
  lemma {:induction false} SyncWritesAll(run: seq<State>, producers: nat, isAsync: bool, max: nat, n: nat)
    requires IsRun(run, producers, isAsync, max) && n < |run| && (!isAsync || max == 0)
    ensures run[n].lost == [] && run[n].queue == [] && run[n].writer == None && Queueing !in run[n].pcs
  {
    if n == 0 {
    } else {
      SyncWritesAll(run, producers, isAsync, max, n - 1);
      assert Next(run[n - 1], run[n], isAsync, max);
    }
  }

  // ----- two producers do lose lines

  ghost predicate Reached(s: State, producers: nat, isAsync: bool, max: nat) {
    exists run :: IsRun(run, producers, isAsync, max) && run != [] && run[|run| - 1] == s
  }

  lemma ReachesNext(s: State, step: Step, producers: nat, isAsync: bool, max: nat)
    requires Reached(s, producers, isAsync, max) && Enabled(s, step)
    ensures Reached(Move(s, step, isAsync, max), producers, isAsync, max)
  {
    var run :| IsRun(run, producers, isAsync, max) && run != [] && run[|run| - 1] == s;
    var u := Move(s, step, isAsync, max);
    assert Next(s, u, isAsync, max);
    hide Move, Enabled, IsRun, Next;
    RunGoesOn(run, u, producers, isAsync, max);
    assert (run + [u])[|run|] == u;
  }

  lemma RunGoesOn(run: seq<State>, u: State, producers: nat, isAsync: bool, max: nat)
    requires IsRun(run, producers, isAsync, max) && run != [] && Next(run[|run| - 1], u, isAsync, max)
    ensures IsRun(run + [u], producers, isAsync, max)
  {
    hide Next, Start;
    var longer := run + [u];
    assert longer[0] == run[0] && longer[|run|] == u;
    forall i | 0 <= i < |longer| - 1 ensures Next(longer[i], longer[i + 1], isAsync, max) {
      assert longer[i] == run[i] && (i < |run| - 1 ==> longer[i + 1] == run[i + 1]);
    }
  }

  function Lines(n: nat): seq<Line> { seq(n, _ => "line") }

  /** So many lines queued, and nobody busy. */
  function Filled(producers: nat, n: nat): State {
    Start(producers).(queue := Lines(n), produced := Lines(n))
  }

  lemma {:induction false} QueueFills(producers: nat, n: nat, max: nat)
    requires producers > 0 && n <= max
    ensures Reached(Filled(producers, n), producers, true, max)
  {
    if n == 0 {
      assert Filled(producers, 0) == Start(producers);
      assert IsRun([Start(producers)], producers, true, max);
    } else {
      QueueFills(producers, n - 1, max);
      OneMoreLine(producers, n - 1, max);
    }
  }

  lemma OneMoreLine(producers: nat, n: nat, max: nat)
    requires producers > 0 && n < max && Reached(Filled(producers, n), producers, true, max)
    ensures Reached(Filled(producers, n + 1), producers, true, max)
  {
    hide Reached;
    var s0 := Filled(producers, n);
    ReachesNext(s0, Produce(0, "line"), producers, true, max);
    var s1 := Move(s0, Produce(0, "line"), true, max);
    ReachesNext(s1, Route(0), producers, true, max);
    var s2 := Move(s1, Route(0), true, max);
    ReachesNext(s2, Enqueue(0), producers, true, max);
    assert Lines(n) + ["line"] == Lines(n + 1);
    assert s2.pcs[0 := Calling] == s0.pcs && s2.hands[0 := None] == s0.hands;
    assert Move(s2, Enqueue(0), true, max) == Filled(producers, n + 1);
  }

  /** Two producers find the last place free, and both push. */
  lemma TwoProducersLose(producers: nat, max: nat)
    requires producers >= 2 && max >= 1
    ensures exists s :: Reached(s, producers, true, max) && s.lost == ["line"]
  {
    QueueFills(producers, max - 1, max);
    hide Reached;
    var s0 := Filled(producers, max - 1);
    ReachesNext(s0, Produce(0, "line"), producers, true, max);
    var s1 := Move(s0, Produce(0, "line"), true, max);
    ReachesNext(s1, Produce(1, "line"), producers, true, max);
    var s2 := Move(s1, Produce(1, "line"), true, max);
    ReachesNext(s2, Route(0), producers, true, max);
    var s3 := Move(s2, Route(0), true, max);
    ReachesNext(s3, Route(1), producers, true, max);
    var s4 := Move(s3, Route(1), true, max);
    ReachesNext(s4, Enqueue(0), producers, true, max);
    var s5 := Move(s4, Enqueue(0), true, max);
    ReachesNext(s5, Enqueue(1), producers, true, max);
    assert Move(s5, Enqueue(1), true, max).lost == ["line"];
  }

  /** Some run loses a line exactly if the log is asynchronous, has room, and serves two producers or
      more. */
  lemma LossExactly(producers: nat, isAsync: bool, max: nat)
    ensures (exists run: seq<State>, n: nat :: IsRun(run, producers, isAsync, max) && n < |run| && run[n].lost != [])
       <==> isAsync && producers >= 2 && max >= 1
  {
    hide IsRun;
    if isAsync && producers >= 2 && max >= 1 {
      TwoProducersLose(producers, max);
      var s :| Reached(s, producers, true, max) && s.lost == ["line"];
      var run: seq<State> :| IsRun(run, producers, true, max) && run != [] && run[|run| - 1] == s;
      assert run[|run| - 1].lost != [];
    } else {
      forall run: seq<State>, n: nat | IsRun(run, producers, isAsync, max) && n < |run| ensures run[n].lost == [] {
        if isAsync && max >= 1 {
          OneProducerLosesNone(run, producers, isAsync, max, n);
        } else {
          SyncWritesAll(run, producers, isAsync, max, n);
        }
      }
    }
  }
}
