/** What the version 2 log writes, told from the calls of push_log. */
module LogHistory {
  import opened LogList
  import opened Wrappers

  /** The state behind a list of steps, if all can be taken. */
  function After(producers: nat, steps: seq<Step>): Option<State> {
    if steps == [] then Some(Start(producers))
    else
      var before := After(producers, steps[..|steps| - 1]);
      var last := steps[|steps| - 1];
      if before.Some? && Enabled(before.value, last) then Some(Move(before.value, last)) else None
  }

  /** The place of producer p before the last step, if that is its step. */
  predicate LastAt(producers: nat, steps: seq<Step>, p: nat, counts: bool)
    requires steps != [] && After(producers, steps).Some?
  {
    var last := steps[|steps| - 1];
    var s := After(producers, steps[..|steps| - 1]).value;
    last.ByProducer? && last.p == p && if counts then s.pcs[p].CountUp? else s.pcs[p].Calling?
  }

  /** The message of producer p's latest call. */
  function Argument(producers: nat, steps: seq<Step>, p: nat): string
    requires After(producers, steps).Some?
  {
    if steps == [] then ""
    else if LastAt(producers, steps, p, false) then steps[|steps| - 1].msg
    else Argument(producers, steps[..|steps| - 1], p)
  }

  /** The messages of the calls, in the order in which they put their node into the list. */
  function Pushes(producers: nat, steps: seq<Step>): seq<string>
    requires After(producers, steps).Some?
  {
    if steps == [] then []
    else
      var front, last := steps[..|steps| - 1], steps[|steps| - 1];
      Pushes(producers, front)
      + if last.ByProducer? && LastAt(producers, steps, last.p, true) then [Argument(producers, front, last.p)] else []
  }

  predicate HoldsMessages(s: State, pushes: seq<string>) {
    |pushes| == |s.pushed|
    && forall i :: 0 <= i < |pushes| ==> s.pushed[i] < |s.heap| && s.heap[s.pushed[i]].msg == pushes[i]
  }

  predicate HoldsArgument(s: State, p: nat, msg: string)
    requires p < |s.pcs|
  {
    Pending(s.pcs[p]) ==> s.pcs[p].node < |s.heap| && s.heap[s.pcs[p].node].msg == msg
  }

  /** A step leaves every message where it is. */
  lemma MessagesStay(s: State, step: Step)
    requires Enabled(s, step)
    ensures var u := Move(s, step);
            && |u.pcs| == |s.pcs| && |s.heap| <= |u.heap| && (forall i :: 0 <= i < |s.heap| ==> u.heap[i].msg == s.heap[i].msg)
            && (forall p :: 0 <= p < |s.pcs| && !(step.ByProducer? && step.p == p) ==> u.pcs[p] == s.pcs[p])
            && u.pushed == s.pushed + (if step.ByProducer? && s.pcs[step.p].CountUp? then [s.pcs[step.p].node] else [])
  {
    if step.ByConsumer? {
      ConsumerLeaves(s);
      hide MoveConsumer;
    } else {
      ProducerMessagesStay(s, step.p, step.msg);
      hide MoveProducer;
    }
  }

  lemma ProducerMessagesStay(s: State, p: nat, msg: string)
    requires Enabled(s, ByProducer(p, msg))
    ensures var u := MoveProducer(s, p, msg);
            && u.pcs == s.pcs[p := u.pcs[p]] && |u.pcs| == |s.pcs|
            && |s.heap| <= |u.heap| && (forall i :: 0 <= i < |s.heap| ==> u.heap[i].msg == s.heap[i].msg)
            && u.pushed == s.pushed + (if s.pcs[p].CountUp? then [s.pcs[p].node] else [])
  {
    assert s.pcs[p := s.pcs[p]] == s.pcs;
  }

  lemma ArgumentStep(s: State, step: Step, p: nat, msg: string)
    requires Enabled(s, step) && p < |s.pcs| && HoldsArgument(s, p, msg)
    ensures var u := Move(s, step);
            && |u.pcs| == |s.pcs|
            && HoldsArgument(u, p, if step.ByProducer? && step.p == p && s.pcs[p].Calling? then step.msg else msg)
  {
    MessagesStay(s, step);
    if !(step.ByProducer? && step.p == p) { hide Move; }
  }

  lemma PushStep(s: State, step: Step, pushes: seq<string>, msg: string)
    requires Enabled(s, step) && HoldsMessages(s, pushes)
    requires step.ByProducer? ==> step.p < |s.pcs| && HoldsArgument(s, step.p, msg)
    ensures HoldsMessages(Move(s, step), pushes + if step.ByProducer? && s.pcs[step.p].CountUp? then [msg] else [])
  {
    MessagesStay(s, step);
    hide Move;
  }

  lemma {:induction false} ArgumentsHeld(producers: nat, steps: seq<Step>, p: nat)
    requires After(producers, steps).Some? && p < producers
    ensures var s := After(producers, steps).value;
            |s.pcs| == producers && HoldsArgument(s, p, Argument(producers, steps, p))
  {
    hide Move, Enabled, HoldsArgument;
    if steps == [] {
      StartHolds(producers, p);
    } else {
      var front, last := steps[..|steps| - 1], steps[|steps| - 1];
      ArgumentsHeld(producers, front, p);
      ArgumentStep(After(producers, front).value, last, p, Argument(producers, front, p));
    }
  }

  lemma StartHolds(producers: nat, p: nat)
    requires p < producers
    ensures HoldsArgument(Start(producers), p, "")
  {
  }

  lemma {:induction false} PushesHeld(producers: nat, steps: seq<Step>)
    requires After(producers, steps).Some?
    ensures HoldsMessages(After(producers, steps).value, Pushes(producers, steps))
  {
    hide Move, HoldsArgument, HoldsMessages;
    if steps == [] {
      NothingPushed(producers);
    } else {
      var front, last := steps[..|steps| - 1], steps[|steps| - 1];
      var s := After(producers, front).value;
      PushesHeld(producers, front);
      var msg := "";
      if last.ByProducer? {
        SameProducers(producers, front);
        ArgumentsHeld(producers, front, last.p);
        msg := Argument(producers, front, last.p);
      }
      PushStep(s, last, Pushes(producers, front), msg);
    }
  }

  lemma NothingPushed(producers: nat)
    ensures HoldsMessages(Start(producers), [])
  {
  }

  lemma {:induction false} SameProducers(producers: nat, steps: seq<Step>)
    requires After(producers, steps).Some?
    ensures |After(producers, steps).value.pcs| == producers
  {
    if steps == [] {
    } else {
      var front, last := steps[..|steps| - 1], steps[|steps| - 1];
      SameProducers(producers, front);
      MessagesStay(After(producers, front).value, last);
      hide Move;
    }
  }

  lemma {:induction false} AfterKeepsInv(producers: nat, steps: seq<Step>)
    requires After(producers, steps).Some?
    ensures Inv(After(producers, steps).value)
  {
    hide Inv, Move, Enabled;
    if steps == [] {
      StartInv(producers);
    } else {
      AfterKeepsInv(producers, steps[..|steps| - 1]);
      StepKeepsInv(After(producers, steps[..|steps| - 1]).value, steps[|steps| - 1]);
    }
  }

  lemma StartInv(producers: nat)
    ensures Inv(Start(producers))
  {
    assert IsRun([Start(producers)], producers);
    RunsKeepInv([Start(producers)], producers, 0);
  }

  /** In every run, told from its steps: the messages copied are those given to push_log, in the order in
      which the calls linked their nodes in, up to the last one copied; and all but those copied are still
      queued. */
  lemma CopiesWhatWasPushed(producers: nat, steps: seq<Step>)
    requires After(producers, steps).Some?
    ensures var s := After(producers, steps).value;
            && s.copied <= Pushes(producers, steps)
            && |Pushes(producers, steps)| == |s.removed| + |Queue(s)|
            && |s.copied| == |s.removed| + (if Copied(s.work) then 1 else 0)
  {
    AfterKeepsInv(producers, steps);
    PushesHeld(producers, steps);
    var s := After(producers, steps).value;
    hide After, Pushes, Exclusive, NodesApart, Shape;
    var pushes := Pushes(producers, steps);
    assert forall i :: 0 <= i < |s.copied| ==> s.copied[i] == pushes[i];
  }

  // ----- threads that run alone get through

  /** n steps by the consumer alone, or by one producer alone. */
  function Alone(s: State, step: Step, n: nat): Option<State>
    decreases n
  {
    if n == 0 then Some(s)
    else if Enabled(s, step) then Alone(Move(s, step), step, n - 1)
    else None
  }

  lemma OneStep(s: State, step: Step, n: nat, u: State)
    requires Enabled(s, step) && u == Move(s, step)
    ensures Alone(s, step, n + 1) == Alone(u, step, n)
  {
    hide Move;
  }

  lemma NoStep(s: State, step: Step)
    ensures Alone(s, step, 0) == Some(s)
  {
  }

  /** The consumer alone, with anything queued, copies the first message and removes its node, and is back. */
  lemma ConsumerRound(s: State)
    requires Inv(s) && s.lock == Nobody && s.work == WantLook && Queue(s) != []
    ensures Queue(s)[0] < |s.heap|
    ensures var first := Queue(s)[0];
            var last := |Queue(s)| == 1;
            Alone(s, ByConsumer, if last then 12 else 11)
            == Some(s.(head := s.heap[first].next, tail := if last then None else s.tail, size := s.size - 1,
                       removed := s.removed + [first], copied := s.copied + [s.heap[first].msg]))
  {
    HeadIsIt(s);
    hide Inv, Alone, Queue, Move;
    var n := if s.size == 1 then 6 else 5;
    LookRound(s, Queue(s)[0], n);
    RemoveRound(s.(work := WantRemove, copied := s.copied + [s.heap[Queue(s)[0]].msg]));
  }

  /** Up to the copy. */
  lemma LookRound(s: State, first: nat, n: nat)
    requires s.lock == Nobody && s.work == WantLook && s.head == Some(first) && first < |s.heap| && s.size > 0
    ensures Alone(s, ByConsumer, n + 6)
         == Alone(s.(work := WantRemove, copied := s.copied + [s.heap[first].msg]), ByConsumer, n)
  {
    hide Alone, MoveProducer;
    var s1 := s.(work := Look, lock := Consumer);
    var s2 := s1.(work := EndLook);
    var s3 := s.(work := TestAgain);
    var s4 := s.(work := ReadHead);
    var s5 := s.(work := Copy(s.head));
    var s6 := s.(work := WantRemove, copied := s.copied + [s.heap[first].msg]);
    OneStep(s, ByConsumer, n + 5, s1);
    OneStep(s1, ByConsumer, n + 4, s2);
    OneStep(s2, ByConsumer, n + 3, s3);
    OneStep(s3, ByConsumer, n + 2, s4);
    OneStep(s4, ByConsumer, n + 1, s5);
    OneStep(s5, ByConsumer, n, s6);
  }

  lemma HeadIsIt(s: State)
    requires Inv(s) && s.lock == Nobody && Queue(s) != []
    ensures s.head == Some(Queue(s)[0]) && Queue(s)[0] < |s.heap| && s.size == |Queue(s)|
    ensures |Queue(s)| == 1 ==> s.heap[Queue(s)[0]].next == None
  {
    hide NodesApart, Exclusive, ConsumerSound, RemovedInOrder;
    assert s.heap[Queue(s)[0]].next == Follower(Queue(s), 0);
  }

  lemma RemoveRound(s: State)
    requires s.lock == Nobody && s.work == WantRemove && s.head.Some? && s.head.value < |s.heap| && s.size >= 1
    requires s.size == 1 ==> s.heap[s.head.value].next == None
    ensures Alone(s, ByConsumer, if s.size == 1 then 6 else 5)
         == Some(s.(work := WantLook, head := s.heap[s.head.value].next, tail := if s.size == 1 then None else s.tail,
                    size := s.size - 1, removed := s.removed + [s.head.value]))
  {
    hide Alone, MoveProducer;
    var s1 := s.(work := CountDown, lock := Consumer);
    var s2 := s1.(work := TestEmpty, size := s.size - 1);
    var n := if s.size == 1 then 4 else 3;
    OneStep(s, ByConsumer, n + 1, s1);
    OneStep(s1, ByConsumer, n, s2);
    hide Move;
    if s.size == 1 { ClearRound(s2); } else { AdvanceRound(s2); }
  }

  lemma ClearRound(s: State)
    requires s.work == TestEmpty && s.size == 0 && s.head.Some?
    ensures Alone(s, ByConsumer, 4)
         == Some(s.(work := WantLook, lock := Nobody, head := None, tail := None, removed := s.removed + [s.head.value]))
  {
    hide Alone, MoveProducer;
    var s3 := s.(work := ClearHead);
    var s4 := s3.(work := ClearTail, head := None, removed := s.removed + [s.head.value]);
    var s5 := s4.(work := EndRemove, tail := None);
    var s6 := s5.(work := WantLook, lock := Nobody);
    OneStep(s, ByConsumer, 3, s3);
    OneStep(s3, ByConsumer, 2, s4);
    OneStep(s4, ByConsumer, 1, s5);
    OneStep(s5, ByConsumer, 0, s6);
    NoStep(s6, ByConsumer);
  }

  lemma AdvanceRound(s: State)
    requires s.work == TestEmpty && s.size != 0 && s.head.Some? && s.head.value < |s.heap|
    ensures Alone(s, ByConsumer, 3)
         == Some(s.(work := WantLook, lock := Nobody, head := s.heap[s.head.value].next, removed := s.removed + [s.head.value]))
  {
    hide Alone, MoveProducer;
    var s3 := s.(work := Advance);
    var s4 := s3.(work := EndRemove, head := s.heap[s.head.value].next, removed := s.removed + [s.head.value]);
    var s5 := s4.(work := WantLook, lock := Nobody);
    OneStep(s, ByConsumer, 2, s3);
    OneStep(s3, ByConsumer, 1, s4);
    OneStep(s4, ByConsumer, 0, s5);
    NoStep(s5, ByConsumer);
  }

  /** A producer alone links its node in, behind the tail or as the only one, and is back. */
  lemma ProducerRound(s: State, p: nat, msg: string)
    requires p < |s.pcs| && s.pcs[p] == Calling && s.lock == Nobody
    requires s.size != 0 ==> s.tail.Some? && s.tail.value < |s.heap|
    ensures var n := |s.heap|;
            var heap := s.heap + [Node(msg, None)];
            Alone(s, ByProducer(p, msg), 7)
            == Some(s.(heap := if s.size == 0 then heap else Link(heap, s.tail.value, n),
                       head := if s.size == 0 then Some(n) else s.head, tail := Some(n), size := s.size + 1,
                       pushed := s.pushed + [n]))
  {
    hide Alone, Move;
    var n := |s.heap|;
    EnterRound(s, p, msg);
    var s2 := s.(heap := s.heap + [Node(msg, None)], lock := Producer(p), pcs := s.pcs[p := TestSize(n)]);
    if s.size == 0 { LinkFirst(s2, p, msg, n); } else { LinkBehind(s2, p, msg, n); }
    assert s2.pcs[p := Calling] == s.pcs;
  }

  /** A new node, and the lock. */
  lemma EnterRound(s: State, p: nat, msg: string)
    requires p < |s.pcs| && s.pcs[p] == Calling && s.lock == Nobody
    ensures Alone(s, ByProducer(p, msg), 7)
         == Alone(s.(heap := s.heap + [Node(msg, None)], lock := Producer(p), pcs := s.pcs[p := TestSize(|s.heap|)]),
                  ByProducer(p, msg), 5)
  {
    hide Alone, MoveConsumer;
    var n := |s.heap|;
    var s1 := s.(heap := s.heap + [Node(msg, None)], pcs := s.pcs[p := WantPush(n)]);
    OneStep(s, ByProducer(p, msg), 6, s1);
    OneStep(s1, ByProducer(p, msg), 5, s1.(lock := Producer(p), pcs := s.pcs[p := TestSize(n)]));
  }

  lemma LinkFirst(s: State, p: nat, msg: string, n: nat)
    requires p < |s.pcs| && s.pcs[p] == TestSize(n) && s.size == 0
    ensures Alone(s, ByProducer(p, msg), 5)
            == Some(s.(head := Some(n), tail := Some(n), size := 1, pushed := s.pushed + [n], lock := Nobody,
                       pcs := s.pcs[p := Calling]))
  {
    hide Alone, MoveConsumer;
    var step := ByProducer(p, msg);
    var s3 := s.(pcs := s.pcs[p := SetHead(n)]);
    var s4 := s3.(pcs := s.pcs[p := SetTail(n)], head := Some(n));
    var s5 := s4.(pcs := s.pcs[p := CountUp(n)], tail := Some(n));
    OneStep(s, step, 4, s3);
    OneStep(s3, step, 3, s4);
    OneStep(s4, step, 2, s5);
    hide Move;
    CountRound(s5, p, msg, n);
    assert s5.pcs[p := Calling] == s.pcs[p := Calling];
  }

  lemma LinkBehind(s: State, p: nat, msg: string, n: nat)
    requires p < |s.pcs| && s.pcs[p] == TestSize(n) && s.size != 0 && s.tail.Some? && s.tail.value < |s.heap|
    ensures Alone(s, ByProducer(p, msg), 5)
            == Some(s.(heap := Link(s.heap, s.tail.value, n), tail := Some(n), size := s.size + 1,
                       pushed := s.pushed + [n], lock := Nobody, pcs := s.pcs[p := Calling]))
  {
    hide Alone, MoveConsumer;
    var step := ByProducer(p, msg);
    var s3 := s.(pcs := s.pcs[p := LinkTail(n)]);
    var s4 := s3.(pcs := s.pcs[p := MoveTail(n)], heap := Link(s.heap, s.tail.value, n));
    var s5 := s4.(pcs := s.pcs[p := CountUp(n)], tail := Some(n));
    OneStep(s, step, 4, s3);
    OneStep(s3, step, 3, s4);
    OneStep(s4, step, 2, s5);
    hide Move;
    CountRound(s5, p, msg, n);
    assert s5.pcs[p := Calling] == s.pcs[p := Calling];
  }

  lemma CountRound(s: State, p: nat, msg: string, n: nat)
    requires p < |s.pcs| && s.pcs[p] == CountUp(n)
    ensures Alone(s, ByProducer(p, msg), 2)
            == Some(s.(size := s.size + 1, pushed := s.pushed + [n], lock := Nobody, pcs := s.pcs[p := Calling]))
  {
    hide Alone, MoveConsumer;
    var step := ByProducer(p, msg);
    var s6 := s.(pcs := s.pcs[p := Unlock(n)], size := s.size + 1, pushed := s.pushed + [n]);
    var s7 := s6.(pcs := s.pcs[p := Calling], lock := Nobody);
    OneStep(s, step, 1, s6);
    OneStep(s6, step, 0, s7);
    NoStep(s7, step);
  }
}
