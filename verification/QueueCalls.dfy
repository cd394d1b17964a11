/** Every call of push, pop and clear has exactly its one effect on the FIFO, told from the steps taken. */
module QueueCalls {
  import opened QueueProtocol
  import opened BlockQueue
  import opened Wrappers

  /** A step of thread t; call is what it calls, if it is idle. */
  datatype Step = Step(t: nat, call: Call)

  /** The state behind a list of steps, if all can be taken. */
  function After(s0: State, steps: seq<Step>): Option<State> {
    if steps == [] then Some(s0)
    else
      var before := After(s0, steps[..|steps| - 1]);
      var last := steps[|steps| - 1];
      if before.Some? && Enabled(before.value, last.t) then Some(Move(before.value, last.t, last.call)) else None
  }

  /** The calls a thread has begun. */
  function Calls(s0: State, steps: seq<Step>, t: nat): seq<Call>
    requires After(s0, steps).Some?
  {
    if steps == [] then []
    else
      var front, last := steps[..|steps| - 1], steps[|steps| - 1];
      Calls(s0, front, t) + if last.t == t && After(s0, front).value.pcs[t] == Idle then [last.call] else []
  }

  /** The effects of a thread's steps on the FIFO. */
  function Effects(s0: State, steps: seq<Step>, t: nat): seq<Event>
    requires After(s0, steps).Some?
  {
    if steps == [] then []
    else
      var front, last := steps[..|steps| - 1], steps[|steps| - 1];
      var before, now := After(s0, front).value.events, After(s0, steps).value.events;
      Effects(s0, front, t) + if last.t == t && |before| < |now| then now[|before|..] else []
  }

  /** The effect is that of the call. */
  predicate Serves(call: Call, e: Event) {
    match call
    case ToPush(v) => e.Pushed? && e.v == v
    case ToPop => e.Took?
    case ToClear => e.Cleared?
  }

  predicate PushUnderWay(pc: Pc) { pc.PushLock? || pc.PushTest? || pc.PushBack? || pc.PushSlot? || pc.PushSize? }

  predicate PopUnderWay(pc: Pc) {
    pc.PopLock? || pc.PopTest? || pc.Asleep? || pc.PopFront? || pc.PopValue? || pc.PopSize?
  }

  predicate ClearUnderWay(pc: Pc) { pc.ClearLock? || pc.ClearSize? || pc.ClearFront? || pc.ClearBack? }

  /** The call has begun and has had no effect yet. */
  predicate UnderWay(pc: Pc) { PushUnderWay(pc) || PopUnderWay(pc) || ClearUnderWay(pc) }

  /** A thread's calls and effects, its place and its hand. What a call answers is what its effect was. */
  predicate InStep(pc: Pc, hand: Item, calls: seq<Call>, effects: seq<Event>) {
    && |calls| == |effects| + (if UnderWay(pc) then 1 else 0)
    && (forall k :: 0 <= k < |effects| ==> Serves(calls[k], effects[k]))
    && (PushUnderWay(pc) ==> calls[|effects|] == ToPush(hand))
    && (PopUnderWay(pc) ==> calls[|effects|] == ToPop)
    && (ClearUnderWay(pc) ==> calls[|effects|] == ToClear)
    && (pc.PushUnlock? || pc.PushSignal? ==>
          effects != [] && effects[|effects| - 1].Pushed? && effects[|effects| - 1].ok == pc.ok)
    && (pc.PopUnlock? ==> effects != [] && effects[|effects| - 1] == Took(hand))
  }

  /** What the acting thread's step adds. */
  function NewCalls(s: State, t: nat, call: Call): seq<Call>
    requires t < |s.pcs|
  {
    if s.pcs[t] == Idle then [call] else []
  }

  function NewEffects(s: State, t: nat, call: Call): seq<Event>
    requires Enabled(s, t)
  {
    var u := Move(s, t, call);
    if |s.events| < |u.events| then u.events[|s.events|..] else []
  }

  /** How a step moves its thread: it begins the call, stays on the way, has the effect, or ends. */
  predicate Goes(pc: Pc, hand: Item, pc': Pc, hand': Item, call: Call, effects: seq<Event>) {
    if pc == Idle then
      effects == [] && (if call.ToPush? then PushUnderWay(pc') && hand' == call.v
                        else if call.ToPop? then PopUnderWay(pc') else ClearUnderWay(pc'))
    else if effects == [] then
      if PushUnderWay(pc) then PushUnderWay(pc') && hand' == hand
      else if PopUnderWay(pc) then PopUnderWay(pc')
      else if ClearUnderWay(pc) then ClearUnderWay(pc')
      else hand' == hand && (pc' == pc || pc' == Idle || (pc.PushUnlock? && pc' == PushSignal(pc.ok)))
    else
      |effects| == 1 && hand' == hand &&
      if PushUnderWay(pc) then effects[0].Pushed? && effects[0].v == hand && pc' == PushUnlock(effects[0].ok)
      else if PopUnderWay(pc) then effects[0] == Took(hand) && pc' == PopUnlock
      else ClearUnderWay(pc) && effects[0] == Cleared && pc' == ClearUnlock
  }

  lemma StepGoes(s: State, t: nat, call: Call)
    requires Enabled(s, t)
    ensures var u := Move(s, t, call);
            && |u.pcs| == |s.pcs| == |u.hands|
            && Goes(s.pcs[t], s.hands[t], u.pcs[t], u.hands[t], call, NewEffects(s, t, call))
  {
    EffectOf(s, t, call);
    hide Place, Notified, NewEffects;
  }

  lemma GoingKeepsStep(
      pc: Pc, hand: Item, pc': Pc, hand': Item, call: Call, calls: seq<Call>, effects: seq<Event>, more: seq<Event>)
    requires InStep(pc, hand, calls, effects) && Goes(pc, hand, pc', hand', call, more)
    ensures InStep(pc', hand', calls + (if pc == Idle then [call] else []), effects + more)
  {
  }

  lemma OwnStep(s: State, t: nat, call: Call, calls: seq<Call>, effects: seq<Event>)
    requires Enabled(s, t) && InStep(s.pcs[t], s.hands[t], calls, effects)
    ensures var u := Move(s, t, call);
            && |u.pcs| == |s.pcs| == |u.hands|
            && InStep(u.pcs[t], u.hands[t], calls + NewCalls(s, t, call), effects + NewEffects(s, t, call))
  {
    hide Move, NewEffects, InStep, Goes;
    var u := Move(s, t, call);
    StepGoes(s, t, call);
    GoingKeepsStep(s.pcs[t], s.hands[t], u.pcs[t], u.hands[t], call, calls, effects, NewEffects(s, t, call));
  }

  lemma EffectOf(s: State, t: nat, call: Call)
    requires Enabled(s, t)
    ensures NewEffects(s, t, call) ==
            match s.pcs[t]
            case PushTest => if s.ring.size >= |s.ring.arr| then [Pushed(s.hands[t], false)] else []
            case PushSize => [Pushed(s.hands[t], true)]
            case PopSize => [Took(s.hands[t])]
            case ClearBack => [Cleared]
            case _ => []
  {
    hide Place, Notified;
  }

  lemma OthersStep(s: State, t: nat, call: Call, o: nat, calls: seq<Call>, effects: seq<Event>)
    requires Enabled(s, t) && o < |s.pcs| && o != t && InStep(s.pcs[o], s.hands[o], calls, effects)
    ensures var u := Move(s, t, call); |u.pcs| == |s.pcs| == |u.hands| && InStep(u.pcs[o], u.hands[o], calls, effects)
  {
    OtherPlaces(s, t, call, o);
    hide Move;
  }

  lemma OtherPlaces(s: State, t: nat, call: Call, o: nat)
    requires Enabled(s, t) && o < |s.pcs| && o != t
    ensures var u := Move(s, t, call);
            && |u.pcs| == |s.pcs| == |u.hands| && u.hands[o] == s.hands[o]
            && (u.pcs[o] == s.pcs[o] || (u.pcs[o].Asleep? && s.pcs[o].Asleep?))
  {
    if s.pcs[t].PushSignal? {
      assert Notified(s.pcs)[o] == if s.pcs[o].Asleep? then Asleep(true) else s.pcs[o];
    }
    hide Place, Notified;
  }

  /** Calls and effects go in step, for every thread in every run: each call that has come so far has had
      exactly one effect, its own, in the thread's order; and it answers what its effect was. */
  lemma {:induction false} CallsHaveTheirEffects(s0: State, steps: seq<Step>, t: nat)
    requires IsStart(s0) && After(s0, steps).Some? && t < |s0.pcs|
    ensures var s := After(s0, steps).value;
            && |s.pcs| == |s.hands| == |s0.pcs|
            && InStep(s.pcs[t], s.hands[t], Calls(s0, steps, t), Effects(s0, steps, t))
  {
    hide Move, Enabled, InStep;
    if steps == [] {
      StartInStep(s0, t);
    } else {
      var front, last := steps[..|steps| - 1], steps[|steps| - 1];
      var s := After(s0, front).value;
      CallsHaveTheirEffects(s0, front, t);
      SameThreads(s, last.t);
      if last.t == t {
        OwnStep(s, t, last.call, Calls(s0, front, t), Effects(s0, front, t));
      } else {
        OthersStep(s, last.t, last.call, t, Calls(s0, front, t), Effects(s0, front, t));
        assert Calls(s0, front, t) + [] == Calls(s0, front, t) && Effects(s0, front, t) + [] == Effects(s0, front, t);
      }
    }
  }

  lemma SameThreads(s: State, t: nat)
    requires Enabled(s, t)
    ensures t < |s.pcs| == |s.hands|
  {
  }

  lemma StartInStep(s0: State, t: nat)
    requires IsStart(s0) && t < |s0.pcs|
    ensures InStep(s0.pcs[t], s0.hands[t], [], [])
  {
  }

  // ----- a thread that runs alone gets through

  /** n steps of thread t alone. */
  function Alone(s: State, t: nat, call: Call, n: nat): Option<State>
    decreases n
  {
    if n == 0 then Some(s)
    else if Enabled(s, t) then Alone(Move(s, t, call), t, call, n - 1)
    else None
  }

  lemma OneStep(s: State, t: nat, call: Call, n: nat, u: State)
    requires Enabled(s, t) && u == Move(s, t, call)
    ensures Alone(s, t, call, n + 1) == Alone(u, t, call, n)
  {
    hide Move;
  }

  lemma NoStep(s: State, t: nat, call: Call)
    ensures Alone(s, t, call, 0) == Some(s)
  {
  }

  predicate CanCall(s: State, t: nat) {
    t < |s.pcs| == |s.hands| && s.pcs[t] == Idle && s.lock == None && |s.ring.arr| > 0 && RingOk(s.ring)
  }

  /** push with room: the ring has the value, and all sleepers are notified. */
  lemma PushRound(s: State, t: nat, v: Item)
    requires CanCall(s, t) && s.ring.size < |s.ring.arr|
    ensures Alone(s, t, ToPush(v), 8)
         == Some(s.(pcs := Notified(s.pcs), hands := s.hands[t := v], ring := Push(s.ring, v),
                    events := s.events + [Pushed(v, true)]))
  {
    hide Alone, Place, RingOk;
    var call := ToPush(v);
    var r := s.ring;
    var back := Place(r.back, 0, |r.arr|);
    var s1 := s.(pcs := s.pcs[t := PushLock], hands := s.hands[t := v]);
    var s2 := s1.(pcs := s.pcs[t := PushTest], lock := Some(t));
    var s3 := s2.(pcs := s.pcs[t := PushBack]);
    var s4 := s3.(pcs := s.pcs[t := PushSlot], ring := r.(back := back));
    var s5 := s4.(pcs := s.pcs[t := PushSize], ring := r.(back := back, arr := r.arr[back := v]));
    var s6 := s5.(pcs := s.pcs[t := PushUnlock(true)], ring := Push(r, v), events := s.events + [Pushed(v, true)]);
    OneStep(s, t, call, 7, s1);
    OneStep(s1, t, call, 6, s2);
    OneStep(s2, t, call, 5, s3);
    OneStep(s3, t, call, 4, s4);
    OneStep(s4, t, call, 3, s5);
    OneStep(s5, t, call, 2, s6);
    hide Move;
    PushEnds(s6, t, call, s.pcs);
  }

  lemma PushEnds(s: State, t: nat, call: Call, pcs: seq<Pc>)
    requires t < |s.pcs| == |s.hands| && s.pcs[t].PushUnlock? && |s.ring.arr| > 0
    requires |pcs| == |s.pcs| && pcs[t] == Idle && s.pcs == pcs[t := s.pcs[t]]
    ensures Alone(s, t, call, 2) == Some(s.(pcs := Notified(pcs), lock := None))
  {
    hide Alone, Place;
    var s7 := s.(pcs := s.pcs[t := PushSignal(s.pcs[t].ok)], lock := None);
    var s8 := s7.(pcs := Notified(s7.pcs)[t := Idle]);
    OneStep(s, t, call, 1, s7);
    OneStep(s7, t, call, 0, s8);
    NoStep(s8, t, call);
    assert Notified(s7.pcs)[t := Idle] == Notified(pcs);
  }

  /** push without room: nothing but the notification. */
  lemma RefusedRound(s: State, t: nat, v: Item)
    requires CanCall(s, t) && s.ring.size >= |s.ring.arr|
    ensures Alone(s, t, ToPush(v), 5)
         == Some(s.(pcs := Notified(s.pcs), hands := s.hands[t := v], events := s.events + [Pushed(v, false)]))
  {
    hide Alone, Place;
    var call := ToPush(v);
    var s1 := s.(pcs := s.pcs[t := PushLock], hands := s.hands[t := v]);
    var s2 := s1.(pcs := s.pcs[t := PushTest], lock := Some(t));
    var s3 := s2.(pcs := s.pcs[t := PushUnlock(false)], events := s.events + [Pushed(v, false)]);
    OneStep(s, t, call, 4, s1);
    OneStep(s1, t, call, 3, s2);
    OneStep(s2, t, call, 2, s3);
    hide Move, RingOk;
    PushEnds(s3, t, call, s.pcs);
  }

  /** pop with an item: the thread has the first one. */
  lemma PopRound(s: State, t: nat)
    requires CanCall(s, t) && s.ring.size > 0
    ensures Alone(s, t, ToPop, 7)
         == Some(s.(hands := s.hands[t := Front(s.ring)], ring := Pop(s.ring), events := s.events + [Took(Front(s.ring))]))
  {
    hide Alone, Place, RingOk;
    var r := s.ring;
    var s1 := s.(pcs := s.pcs[t := PopLock]);
    var s2 := s1.(pcs := s.pcs[t := PopTest], lock := Some(t));
    var s3 := s2.(pcs := s.pcs[t := PopFront]);
    var s4 := s3.(pcs := s.pcs[t := PopValue], ring := r.(front := Place(r.front, 0, |r.arr|)));
    OneStep(s, t, ToPop, 6, s1);
    OneStep(s1, t, ToPop, 5, s2);
    OneStep(s2, t, ToPop, 4, s3);
    OneStep(s3, t, ToPop, 3, s4);
    hide Move;
    PopEnds(s4, t, Front(r));
    assert s4.pcs[t := Idle] == s.pcs;
  }

  lemma PopEnds(s: State, t: nat, v: Item)
    requires t < |s.pcs| == |s.hands| && s.pcs[t] == PopValue && 0 <= s.ring.front < |s.ring.arr| && s.ring.arr[s.ring.front] == v
    ensures Alone(s, t, ToPop, 3)
         == Some(s.(pcs := s.pcs[t := Idle], hands := s.hands[t := v], ring := s.ring.(size := s.ring.size - 1),
                    events := s.events + [Took(v)], lock := None))
  {
    hide Alone, Place;
    var s5 := s.(pcs := s.pcs[t := PopSize], hands := s.hands[t := v]);
    var s6 := s5.(pcs := s.pcs[t := PopUnlock], ring := s.ring.(size := s.ring.size - 1), events := s.events + [Took(v)]);
    var s7 := s6.(pcs := s.pcs[t := Idle], lock := None);
    OneStep(s, t, ToPop, 2, s5);
    OneStep(s5, t, ToPop, 1, s6);
    OneStep(s6, t, ToPop, 0, s7);
    NoStep(s7, t, ToPop);
  }

  /** pop without an item: the thread sleeps and has given the lock back. */
  lemma SleepRound(s: State, t: nat)
    requires CanCall(s, t) && s.ring.size <= 0
    ensures Alone(s, t, ToPop, 3) == Some(s.(pcs := s.pcs[t := Asleep(false)]))
  {
    hide Alone, Place, RingOk;
    var s1 := s.(pcs := s.pcs[t := PopLock]);
    var s2 := s1.(pcs := s.pcs[t := PopTest], lock := Some(t));
    var s3 := s.(pcs := s.pcs[t := Asleep(false)]);
    OneStep(s, t, ToPop, 2, s1);
    OneStep(s1, t, ToPop, 1, s2);
    OneStep(s2, t, ToPop, 0, s3);
    NoStep(s3, t, ToPop);
  }

  /** clear: the ring is as at the start. */
  lemma ClearRound(s: State, t: nat)
    requires CanCall(s, t)
    ensures Alone(s, t, ToClear, 6) == Some(s.(ring := Clear(s.ring), events := s.events + [Cleared]))
  {
    hide Alone, Place, RingOk;
    var s1 := s.(pcs := s.pcs[t := ClearLock]);
    var s2 := s1.(pcs := s.pcs[t := ClearSize], lock := Some(t));
    OneStep(s, t, ToClear, 5, s1);
    OneStep(s1, t, ToClear, 4, s2);
    hide Move;
    ClearEnds(s2, t);
    assert s2.pcs[t := Idle] == s.pcs;
  }

  lemma ClearEnds(s: State, t: nat)
    requires t < |s.pcs| == |s.hands| && s.pcs[t] == ClearSize && |s.ring.arr| > 0
    ensures Alone(s, t, ToClear, 4)
         == Some(s.(pcs := s.pcs[t := Idle], ring := Clear(s.ring), events := s.events + [Cleared], lock := None))
  {
    hide Alone, Place;
    var s3 := s.(pcs := s.pcs[t := ClearFront], ring := s.ring.(size := 0));
    var s4 := s3.(pcs := s.pcs[t := ClearBack], ring := s.ring.(size := 0, front := -1));
    var s5 := s4.(pcs := s.pcs[t := ClearUnlock], ring := Clear(s.ring), events := s.events + [Cleared]);
    var s6 := s5.(pcs := s.pcs[t := Idle], lock := None);
    OneStep(s, t, ToClear, 3, s3);
    OneStep(s3, t, ToClear, 2, s4);
    OneStep(s4, t, ToClear, 1, s5);
    OneStep(s5, t, ToClear, 0, s6);
    NoStep(s6, t, ToClear);
  }
}
