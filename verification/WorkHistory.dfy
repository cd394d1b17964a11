/** What becomes of every request offered to the thread pool, told from the steps taken. */
module WorkHistory {
  import opened WorkQueue
  import opened Counting
  import opened Wrappers

  /** A step of thread t; r is the request offered, if t is a producer that starts. */
  datatype Step = Step(t: nat, r: Request)

  /** The state behind a list of steps, if all can be taken. */
  function After(s0: State, steps: seq<Step>, max: nat): Option<State> {
    if steps == [] then Some(s0)
    else
      var before := After(s0, steps[..|steps| - 1], max);
      var last := steps[|steps| - 1];
      if before.Some? && Enabled(before.value, last.t) then Some(Move(before.value, last.t, last.r, max)) else None
  }

  /** The place and hand of the thread that takes the last step, before it does. */
  function Acting(s0: State, steps: seq<Step>, max: nat): (Pc, Request)
    requires steps != [] && After(s0, steps, max).Some?
  {
    var s := After(s0, steps[..|steps| - 1], max).value;
    var t := steps[|steps| - 1].t;
    (s.pcs[t], s.hands[t])
  }

  /** The requests that producers began to offer. */
  function Offered(s0: State, steps: seq<Step>, max: nat): seq<Request>
    requires After(s0, steps, max).Some?
  {
    if steps == [] then []
    else
      Offered(s0, steps[..|steps| - 1], max)
      + if Acting(s0, steps, max).0 == Producing then [steps[|steps| - 1].r] else []
  }

  /** The requests of which a thread took this kind of step. */
  function Done(s0: State, steps: seq<Step>, max: nat, pc: Pc): seq<Request>
    requires After(s0, steps, max).Some?
  {
    if steps == [] then []
    else
      Done(s0, steps[..|steps| - 1], max, pc)
      + if Acting(s0, steps, max).0 == pc then [Acting(s0, steps, max).1] else []
  }

  /** Threads by place and hand. */
  function Pairs(s: State): (p: seq<(Pc, Request)>)
    ensures |p| == |s.pcs|
  {
    seq(|s.pcs|, t requires 0 <= t < |s.pcs| => (s.pcs[t], if t < |s.hands| then s.hands[t] else 0))
  }

  function Offering(x: Request): ((Pc, Request)) -> bool {
    (p: (Pc, Request)) => (p.0.WantPush? || p.0.InAppend? || p.0.MayPush? || p.0.Refusing?) && p.1 == x
  }

  function Working(x: Request): ((Pc, Request)) -> bool {
    (p: (Pc, Request)) => (p.0.Popped? || p.0.Processing?) && p.1 == x
  }

  /** No request is lost between offer and queue. */
  predicate OffersAccounted(s0: State, steps: seq<Step>, max: nat, x: Request)
    requires After(s0, steps, max).Some?
  {
    var s := After(s0, steps, max).value;
    Times(Offered(s0, steps, max), x)
    == Times(s.accepted, x) + Times(Done(s0, steps, max, Refusing), x) + Count(Pairs(s), Offering(x))
  }

  /** Nor between queue and processing. */
  predicate WorkAccounted(s0: State, steps: seq<Step>, max: nat, x: Request)
    requires After(s0, steps, max).Some?
  {
    var s := After(s0, steps, max).value;
    Times(s.dequeued, x) == Times(Done(s0, steps, max, Processing), x) + Count(Pairs(s), Working(x))
  }

  predicate NoNullProcessed(s: State) {
    forall t :: 0 <= t < |s.pcs| && t < |s.hands| && s.pcs[t] == Processing ==> s.hands[t] != 0
  }

  lemma PairMoves(s: State, t: nat, r: Request, max: nat)
    requires Enabled(s, t)
    ensures var u := Move(s, t, r, max);
            && |u.pcs| == |s.pcs| == |u.hands| && Pairs(u) == Pairs(s)[t := (u.pcs[t], u.hands[t])]
            && Pairs(s)[t] == (s.pcs[t], s.hands[t])
  {
    var u := Move(s, t, r, max);
    assert forall o :: 0 <= o < |s.pcs| && o != t ==> u.pcs[o] == s.pcs[o] && u.hands[o] == s.hands[o];
  }

  lemma OfferStep(s: State, t: nat, r: Request, max: nat, x: Request)
    requires Enabled(s, t)
    ensures var u := Move(s, t, r, max);
            Times(u.accepted, x) + Count(Pairs(u), Offering(x)) + (if s.pcs[t] == Refusing && s.hands[t] == x then 1 else 0)
            == Times(s.accepted, x) + Count(Pairs(s), Offering(x)) + (if s.pcs[t] == Producing && r == x then 1 else 0)
  {
    hide Count, Times, Pairs;
    var u := Move(s, t, r, max);
    PairMoves(s, t, r, max);
    CountUpdate(Pairs(s), t, (u.pcs[t], u.hands[t]), Offering(x));
    TimesAppended(s.accepted, s.hands[t], x);
  }

  /** NULL is popped and dropped. */
  lemma WorkStep(s: State, t: nat, r: Request, max: nat, x: Request)
    requires Enabled(s, t) && x != 0
    ensures var u := Move(s, t, r, max);
            Times(u.dequeued, x) + Count(Pairs(s), Working(x))
            == Times(s.dequeued, x) + Count(Pairs(u), Working(x)) + (if s.pcs[t] == Processing && s.hands[t] == x then 1 else 0)
  {
    hide Count, Times, Pairs;
    var u := Move(s, t, r, max);
    PairMoves(s, t, r, max);
    CountUpdate(Pairs(s), t, (u.pcs[t], u.hands[t]), Working(x));
    if s.pcs[t] == MayPop { TimesAppended(s.dequeued, s.queue[0], x); }
  }

  lemma NoOneBusy(s: State, p: ((Pc, Request)) -> bool)
    requires forall t :: 0 <= t < |s.pcs| ==> !p(Pairs(s)[t])
    ensures Count(Pairs(s), p) == 0
  {
    CountNone(Pairs(s), p);
  }

  lemma {:induction false} OffersStayAccounted(s0: State, steps: seq<Step>, max: nat, x: Request)
    requires IsStart(s0) && After(s0, steps, max).Some?
    ensures OffersAccounted(s0, steps, max, x)
  {
    hide Count, Times, Pairs, Move, Enabled;
    if steps == [] {
      StartIsIdle(s0, x);
    } else {
      var front, last := steps[..|steps| - 1], steps[|steps| - 1];
      OffersStayAccounted(s0, front, max, x);
      OfferStep(After(s0, front, max).value, last.t, last.r, max, x);
      TimesOptional(Offered(s0, front, max), last.r, x);
      TimesOptional(Done(s0, front, max, Refusing), Acting(s0, steps, max).1, x);
    }
  }

  lemma {:induction false} WorkStaysAccounted(s0: State, steps: seq<Step>, max: nat, x: Request)
    requires IsStart(s0) && After(s0, steps, max).Some? && x != 0
    ensures WorkAccounted(s0, steps, max, x)
  {
    hide Count, Times, Pairs, Move, Enabled;
    if steps == [] {
      StartIsIdle(s0, x);
    } else {
      var front, last := steps[..|steps| - 1], steps[|steps| - 1];
      WorkStaysAccounted(s0, front, max, x);
      WorkStep(After(s0, front, max).value, last.t, last.r, max, x);
      TimesOptional(Done(s0, front, max, Processing), Acting(s0, steps, max).1, x);
    }
  }

  lemma TimesOptional(s: seq<Request>, v: Request, x: Request)
    ensures Times(s + [v], x) == Times(s, x) + (if v == x then 1 else 0) && s + [] == s
  {
  }

  lemma StartIsIdle(s0: State, x: Request)
    requires IsStart(s0)
    ensures Count(Pairs(s0), Offering(x)) == 0 && Count(Pairs(s0), Working(x)) == 0
    ensures Times(s0.accepted, x) == 0 && Times(s0.dequeued, x) == 0 && Times([], x) == 0
  {
    NoOneBusy(s0, Offering(x));
    NoOneBusy(s0, Working(x));
  }

  lemma {:induction false} NullNeverProcessed(s0: State, steps: seq<Step>, max: nat)
    requires IsStart(s0) && After(s0, steps, max).Some?
    ensures 0 !in Done(s0, steps, max, Processing) && NoNullProcessed(After(s0, steps, max).value)
  {
    if steps == [] {
    } else {
      var front, last := steps[..|steps| - 1], steps[|steps| - 1];
      NullNeverProcessed(s0, front, max);
      NullStep(After(s0, front, max).value, last.t, last.r, max);
      hide Move;
    }
  }

  lemma NullStep(s: State, t: nat, r: Request, max: nat)
    requires Enabled(s, t) && NoNullProcessed(s)
    ensures NoNullProcessed(Move(s, t, r, max))
  {
    var u := Move(s, t, r, max);
    assert forall o :: 0 <= o < |s.pcs| && o != t ==> u.pcs[o] == s.pcs[o] && u.hands[o] == s.hands[o];
  }

  lemma {:induction false} AfterKeepsInv(s0: State, steps: seq<Step>, max: nat)
    requires IsStart(s0) && After(s0, steps, max).Some?
    ensures Inv(After(s0, steps, max).value, max)
  {
    if steps == [] {
      assert IsRun([s0], max);
      RunsKeepInv([s0], max, 0);
    } else {
      var front, last := steps[..|steps| - 1], steps[|steps| - 1];
      AfterKeepsInv(s0, front, max);
      hide Inv, Move, Enabled;
      StepKeepsInv(After(s0, front, max).value, last.t, last.r, max);
    }
  }

  /** In every run, told from its steps: each request offered has been refused, or accepted, or is still
      with its producer; what was accepted is what was dequeued and what is queued; each request dequeued, if
      not NULL, has been processed or is with a worker on the way to it; and NULL is never processed. */
  lemma EveryRequestAccounted(s0: State, steps: seq<Step>, max: nat, x: Request)
    requires IsStart(s0) && After(s0, steps, max).Some?
    ensures var s := After(s0, steps, max).value;
            && Times(Offered(s0, steps, max), x)
               == Times(s.accepted, x) + Times(Done(s0, steps, max, Refusing), x) + Count(Pairs(s), Offering(x))
            && (x != 0 ==> Times(s.dequeued, x)
                           == Times(Done(s0, steps, max, Processing), x) + Count(Pairs(s), Working(x)))
            && 0 !in Done(s0, steps, max, Processing)
            && s.accepted == s.dequeued + s.queue
  {
    AfterKeepsInv(s0, steps, max);
    OffersStayAccounted(s0, steps, max, x);
    if x != 0 { WorkStaysAccounted(s0, steps, max, x); }
    NullNeverProcessed(s0, steps, max);
  }

  // ----- threads that run alone get through

  /** n steps of thread t alone. */
  function Alone(s: State, t: nat, r: Request, n: nat, max: nat): Option<State>
    decreases n
  {
    if n == 0 then Some(s)
    else if Enabled(s, t) then Alone(Move(s, t, r, max), t, r, n - 1, max)
    else None
  }

  lemma OneStep(s: State, t: nat, r: Request, n: nat, max: nat, u: State)
    requires Enabled(s, t) && u == Move(s, t, r, max)
    ensures Alone(s, t, r, n + 1, max) == Alone(u, t, r, n, max)
  {
    hide Move;
  }

  lemma NoStep(s: State, t: nat, r: Request, max: nat)
    ensures Alone(s, t, r, 0, max) == Some(s)
  {
  }

  /** A producer alone queues its request, or is refused, and is back. */
  lemma AppendRound(s: State, t: nat, r: Request, max: nat)
    requires t < |s.pcs| == |s.hands| && s.pcs[t] == Producing && s.lock == None
    ensures |s.queue| <= max ==>
              Alone(s, t, r, 6, max)
              == Some(s.(hands := s.hands[t := r], queue := s.queue + [r], accepted := s.accepted + [r],
                         queueStat := s.queueStat + 1))
    ensures |s.queue| > max ==> Alone(s, t, r, 4, max) == Some(s.(hands := s.hands[t := r]))
  {
    hide Alone;
    var s1 := s.(pcs := s.pcs[t := WantPush], hands := s.hands[t := r]);
    var s2 := s1.(pcs := s.pcs[t := InAppend], lock := Some(t));
    assert s.pcs[t := Producing] == s.pcs;
    var n := if |s.queue| <= max then 4 else 2;
    OneStep(s, t, r, n + 1, max, s1);
    OneStep(s1, t, r, n, max, s2);
    hide Move;
    if |s.queue| <= max { PutRound(s2, t, r, max); } else { RefuseRound(s2, t, r, max); }
    assert s2.pcs[t := Producing] == s.pcs;
  }

  lemma PutRound(s: State, t: nat, r: Request, max: nat)
    requires t < |s.pcs| == |s.hands| && s.pcs[t] == InAppend && s.hands[t] == r && |s.queue| <= max
    ensures Alone(s, t, r, 4, max)
         == Some(s.(pcs := s.pcs[t := Producing], queue := s.queue + [r], accepted := s.accepted + [r],
                    queueStat := s.queueStat + 1, lock := None))
  {
    hide Alone;
    var s3 := s.(pcs := s.pcs[t := MayPush]);
    var s4 := s3.(pcs := s.pcs[t := Pushed], queue := s.queue + [r], accepted := s.accepted + [r]);
    var s5 := s4.(pcs := s.pcs[t := Posting], lock := None);
    var s6 := s5.(pcs := s.pcs[t := Producing], queueStat := s.queueStat + 1);
    OneStep(s, t, r, 3, max, s3);
    OneStep(s3, t, r, 2, max, s4);
    OneStep(s4, t, r, 1, max, s5);
    OneStep(s5, t, r, 0, max, s6);
    NoStep(s6, t, r, max);
  }

  lemma RefuseRound(s: State, t: nat, r: Request, max: nat)
    requires t < |s.pcs| == |s.hands| && s.pcs[t] == InAppend && |s.queue| > max
    ensures Alone(s, t, r, 2, max) == Some(s.(pcs := s.pcs[t := Producing], lock := None))
  {
    hide Alone;
    var s3 := s.(pcs := s.pcs[t := Refusing]);
    var s4 := s3.(pcs := s.pcs[t := Producing], lock := None);
    OneStep(s, t, r, 1, max, s3);
    OneStep(s3, t, r, 0, max, s4);
    NoStep(s4, t, r, max);
  }

  /** A worker alone takes the first request, processes it if it is not NULL, and is back. */
  lemma WorkRound(s: State, t: nat, max: nat) returns (working: State)
    requires t < |s.pcs| == |s.hands| && s.pcs[t] == Looping && s.lock == None && s.queueStat > 0 && s.queue != []
    ensures var done := s.(hands := s.hands[t := s.queue[0]], queue := s.queue[1..], dequeued := s.dequeued + [s.queue[0]],
                           queueStat := s.queueStat - 1);
            if s.queue[0] == 0 then Alone(s, t, 0, 5, max) == Some(done)
            else Alone(s, t, 0, 5, max) == Some(working) && working == done.(pcs := s.pcs[t := Processing])
                 && Enabled(working, t) && Move(working, t, 0, max) == done
  {
    hide Alone;
    var x := s.queue[0];
    var s1 := s.(pcs := s.pcs[t := Woken], queueStat := s.queueStat - 1);
    var s2 := s1.(pcs := s.pcs[t := InRun], lock := Some(t));
    var s3 := s2.(pcs := s.pcs[t := MayPop]);
    var s4 := s3.(pcs := s.pcs[t := Popped], queue := s.queue[1..], hands := s.hands[t := x], dequeued := s.dequeued + [x]);
    working := s4.(pcs := s.pcs[t := if x == 0 then Looping else Processing], lock := None);
    assert s.pcs[t := Looping] == s.pcs;
    OneStep(s, t, 0, 4, max, s1);
    OneStep(s1, t, 0, 3, max, s2);
    OneStep(s2, t, 0, 2, max, s3);
    OneStep(s3, t, 0, 1, max, s4);
    OneStep(s4, t, 0, 0, max, working);
    NoStep(working, t, 0, max);
  }
}
