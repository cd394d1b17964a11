/** threadpool: append and run under every interleaving of any number of producers and workers. */
module WorkQueue {
  import opened Counting
  import opened Wrappers

  /** A request's address; 0 is NULL. */
  type Request = nat

  datatype Pc =
    // append
    | Producing | WantPush | InAppend | MayPush | Pushed | Posting | Refusing
    // run
    | Looping | Woken | InRun | MayPop | SawEmpty | Popped | Processing

  /** accepted and dequeued record what was pushed and popped, in that order. */
  datatype State = State(
    pcs: seq<Pc>, hands: seq<Request>, queue: seq<Request>, queueStat: nat, lock: Option<nat>,
    accepted: seq<Request>, dequeued: seq<Request>)

  predicate Enabled(s: State, t: nat) {
    && t < |s.pcs| == |s.hands|
    && (s.pcs[t] == Looping ==> s.queueStat > 0)
    && (s.pcs[t] == WantPush || s.pcs[t] == Woken ==> s.lock == None)
    && (s.pcs[t] == MayPop ==> s.queue != [])
  }

  function At(s: State, t: nat, pc: Pc): State
    requires t < |s.pcs|
  {
    s.(pcs := s.pcs[t := pc])
  }

  /** One step of thread t; a producer that starts takes request r. The capacity test is > and not >=. */
  function Move(s: State, t: nat, r: Request, maxRequests: nat): State
    requires Enabled(s, t)
  {
    match s.pcs[t]
    case Producing => At(s, t, WantPush).(hands := s.hands[t := r])
    case WantPush => At(s, t, InAppend).(lock := Some(t))
    case InAppend => At(s, t, if |s.queue| > maxRequests then Refusing else MayPush)
    case MayPush =>
      At(s, t, Pushed).(queue := s.queue + [s.hands[t]], accepted := s.accepted + [s.hands[t]])
    case Pushed => At(s, t, Posting).(lock := None)
    case Posting => At(s, t, Producing).(queueStat := s.queueStat + 1)
    case Refusing => At(s, t, Producing).(lock := None)
    case Looping => At(s, t, Woken).(queueStat := s.queueStat - 1)
    case Woken => At(s, t, InRun).(lock := Some(t))
    case InRun => At(s, t, if s.queue == [] then SawEmpty else MayPop)
    case MayPop =>
      At(s, t, Popped).(queue := s.queue[1..], hands := s.hands[t := s.queue[0]],
                        dequeued := s.dequeued + [s.queue[0]])
    case SawEmpty => At(s, t, Looping).(lock := None)
    case Popped => At(s, t, if s.hands[t] == 0 then Looping else Processing).(lock := None)
    case Processing => At(s, t, Looping)
  }

  ghost predicate Next(s: State, u: State, maxRequests: nat) {
    exists t: nat, r: Request :: Enabled(s, t) && u == Move(s, t, r, maxRequests)
  }

  /** Any mix of idle producers and workers, an empty queue. */
  predicate IsStart(s: State) {
    && |s.pcs| == |s.hands| && (forall t :: 0 <= t < |s.pcs| ==> s.pcs[t] == Producing || s.pcs[t] == Looping)
    && s.queue == s.accepted == s.dequeued == [] && s.queueStat == 0 && s.lock == None
  }

  ghost predicate IsRun(run: seq<State>, maxRequests: nat) {
    run != [] && IsStart(run[0]) && forall i :: 0 <= i < |run| - 1 ==> Next(run[i], run[i + 1], maxRequests)
  }

  // ----- the invariant

  predicate InCritical(pc: Pc) {
    pc.InAppend? || pc.MayPush? || pc.Pushed? || pc.Refusing? || pc.InRun? || pc.MayPop? || pc.SawEmpty? || pc.Popped?
  }

  predicate BetweenWaitAndPop(pc: Pc) { pc.Woken? || pc.InRun? || pc.MayPop? || pc.SawEmpty? }

  predicate BetweenPushAndPost(pc: Pc) { pc.Pushed? || pc.Posting? }

  predicate Local(pc: Pc, mine: bool, queued: nat, maxRequests: nat) {
    && (InCritical(pc) <==> mine)
    && (pc.MayPush? ==> queued <= maxRequests)
    && (pc.MayPop? ==> queued > 0)
    && !pc.SawEmpty?
  }

  predicate Exclusive(s: State, maxRequests: nat) {
    && |s.pcs| == |s.hands|
    && (forall t :: 0 <= t < |s.pcs| ==> Local(s.pcs[t], s.lock == Some(t), |s.queue|, maxRequests))
  }

  predicate Accounted(s: State) {
    |s.queue| == s.queueStat + Count(s.pcs, BetweenWaitAndPop) + Count(s.pcs, BetweenPushAndPost)
  }

  predicate Inv(s: State, maxRequests: nat) {
    && Exclusive(s, maxRequests) && Accounted(s)
    && s.accepted == s.dequeued + s.queue
    && |s.queue| <= maxRequests + 1
  }

  lemma MoveIsLocal(s: State, t: nat, r: Request, max: nat)
    requires Inv(s, max) && Enabled(s, t)
    ensures var u := Move(s, t, r, max);
            && |u.pcs| == |u.hands| == |s.pcs| && u.pcs == s.pcs[t := u.pcs[t]]
            && (u.lock == s.lock || (s.lock == None && u.lock == Some(t)) || (s.lock == Some(t) && u.lock == None))
            && (s.lock != Some(t) ==> u.queue == s.queue)
            && Local(u.pcs[t], u.lock == Some(t), |u.queue|, max)
  {
    hide Count;
    assert Local(s.pcs[t], s.lock == Some(t), |s.queue|, max);
    if s.pcs[t] == InRun { CountPositive(s.pcs, t, BetweenWaitAndPop); }
  }

  lemma KeepsExclusive(s: State, t: nat, r: Request, max: nat)
    requires Inv(s, max) && Enabled(s, t)
    ensures Exclusive(Move(s, t, r, max), max)
  {
    hide Move, Accounted;
    MoveIsLocal(s, t, r, max);
    var u := Move(s, t, r, max);
    forall o | 0 <= o < |u.pcs| ensures Local(u.pcs[o], u.lock == Some(o), |u.queue|, max) {
      assert Local(s.pcs[o], s.lock == Some(o), |s.queue|, max);
      assert Local(s.pcs[t], s.lock == Some(t), |s.queue|, max);
    }
  }

  lemma KeepsAccount(s: State, t: nat, r: Request, max: nat)
    requires Inv(s, max) && Enabled(s, t)
    ensures Accounted(Move(s, t, r, max))
  {
    hide Count;
    var u := Move(s, t, r, max);
    assert Local(s.pcs[t], s.lock == Some(t), |s.queue|, max);
    CountUpdate(s.pcs, t, u.pcs[t], BetweenWaitAndPop);
    CountUpdate(s.pcs, t, u.pcs[t], BetweenPushAndPost);
    if s.pcs[t] == InRun { CountPositive(s.pcs, t, BetweenWaitAndPop); }
  }

  lemma StepKeepsInv(s: State, t: nat, r: Request, max: nat)
    requires Inv(s, max) && Enabled(s, t)
    ensures Inv(Move(s, t, r, max), max)
  {
    KeepsAccount(s, t, r, max);
    KeepsExclusive(s, t, r, max);
    hide Exclusive, Accounted;
    assert s.pcs[t] == MayPush ==> |s.queue| <= max by {
      assert Local(s.pcs[t], s.lock == Some(t), |s.queue|, max);
    }
    if s.pcs[t] == MayPop {
      assert s.queue == [s.queue[0]] + s.queue[1..];
    }
  }

  lemma {:induction false} RunsKeepInv(run: seq<State>, max: nat, n: nat)
    requires IsRun(run, max) && n < |run|
    ensures Inv(run[n], max)
  {
    if n == 0 {
      CountNone(run[0].pcs, BetweenWaitAndPop);
      CountNone(run[0].pcs, BetweenPushAndPost);
    } else {
      RunsKeepInv(run, max, n - 1);
      hide Inv;
      assert Next(run[n - 1], run[n], max);
      var t: nat, r: Request :| Enabled(run[n - 1], t) && run[n] == Move(run[n - 1], t, r, max);
      StepKeepsInv(run[n - 1], t, r, max);
    }
  }

  /** Work queue conservation, in every interleaving: what was accepted is what was dequeued, in append
      order, followed by what is queued; no woken worker finds the queue empty; the queue never holds
      more than m_max_requests + 1. */
  lemma QueueConserves(run: seq<State>, max: nat, n: nat)
    requires IsRun(run, max) && n < |run|
    ensures var s := run[n];
            && s.accepted == s.dequeued + s.queue
            && |s.queue| <= max + 1
            && |s.queue| == s.queueStat + Count(s.pcs, BetweenWaitAndPop) + Count(s.pcs, BetweenPushAndPost)
            && SawEmpty !in s.pcs
  {
    hide IsRun;
    RunsKeepInv(run, max, n);
    var s := run[n];
    assert forall t :: 0 <= t < |s.pcs| ==> Local(s.pcs[t], s.lock == Some(t), |s.queue|, max);
  }

  /** At most one thread is between lock and unlock. */
  lemma OneInCritical(run: seq<State>, max: nat, n: nat, a: nat, b: nat)
    requires IsRun(run, max) && n < |run| && a < |run[n].pcs| && b < |run[n].pcs|
    requires InCritical(run[n].pcs[a]) && InCritical(run[n].pcs[b])
    ensures a == b
  {
    hide IsRun;
    RunsKeepInv(run, max, n);
    var s := run[n];
    assert Local(s.pcs[a], s.lock == Some(a), |s.queue|, max) && Local(s.pcs[b], s.lock == Some(b), |s.queue|, max);
  }

  // ----- the bound is met

  ghost predicate Reached(s: State, max: nat) {
    exists run :: IsRun(run, max) && run != [] && run[|run| - 1] == s
  }

  lemma ReachesNext(s: State, t: nat, r: Request, max: nat)
    requires Reached(s, max) && Enabled(s, t)
    ensures Reached(Move(s, t, r, max), max)
  {
    var run :| IsRun(run, max) && run != [] && run[|run| - 1] == s;
    var u := Move(s, t, r, max);
    assert Next(s, u, max);
    hide Move, Enabled, IsRun, Next;
    RunGoesOn(run, u, max);
    assert (run + [u])[|run|] == u;
  }

  lemma RunGoesOn(run: seq<State>, u: State, max: nat)
    requires IsRun(run, max) && run != [] && Next(run[|run| - 1], u, max)
    ensures IsRun(run + [u], max)
  {
    hide Next, IsStart;
    var longer := run + [u];
    assert longer[0] == run[0] && longer[|run|] == u;
    forall i | 0 <= i < |longer| - 1 ensures Next(longer[i], longer[i + 1], max) {
      assert longer[i] == run[i] && (i < |run| - 1 ==> longer[i + 1] == run[i + 1]);
    }
  }

  /** One producer that has appended request 1 so many times. */
  function Filled(n: nat): State {
    State([Producing], [if n == 0 then 0 else 1], Ones(n), n, None, Ones(n), [])
  }

  function Ones(n: nat): seq<Request> { seq(n, _ => 1) }

  /** append admits one request more than m_max_requests: a lone producer gets that far. */
  lemma {:induction false} QueueFills(n: nat, max: nat)
    requires n <= max + 1
    ensures Reached(Filled(n), max) && |Filled(n).queue| == n
  {
    if n == 0 {
      assert IsRun([Filled(0)], max);
    } else {
      QueueFills(n - 1, max);
      AppendOne(n - 1, max);
    }
  }

  lemma AppendOne(n: nat, max: nat)
    requires Reached(Filled(n), max) && n <= max
    ensures Reached(Filled(n + 1), max)
  {
    hide Reached;
    var s0 := Filled(n);
    ReachesNext(s0, 0, 1, max);
    var s1 := s0.(pcs := [WantPush], hands := [1]);
    assert s1 == Move(s0, 0, 1, max);
    ReachesNext(s1, 0, 1, max);
    var s2 := s1.(pcs := [InAppend], lock := Some(0));
    assert s2 == Move(s1, 0, 1, max);
    ReachesNext(s2, 0, 1, max);
    var s3 := s2.(pcs := [MayPush]);
    assert s3 == Move(s2, 0, 1, max);
    ReachesNext(s3, 0, 1, max);
    var s4 := s3.(pcs := [Pushed], queue := Ones(n + 1), accepted := Ones(n + 1));
    assert Ones(n) + [1] == Ones(n + 1);
    assert s4 == Move(s3, 0, 1, max);
    ReachesNext(s4, 0, 1, max);
    var s5 := s4.(pcs := [Posting], lock := None);
    assert s5 == Move(s4, 0, 1, max);
    ReachesNext(s5, 0, 1, max);
    assert Filled(n + 1) == Move(s5, 0, 1, max);
  }
}
