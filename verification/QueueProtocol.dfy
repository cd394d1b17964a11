/** block_queue under every interleaving of push, pop and clear: single accesses to the fields between
    lock and unlock, condition waits and broadcasts. */
module QueueProtocol {
  import opened BlockQueue
  import opened Wrappers

  type Item = string

  datatype Pc =
    | Idle
    | PushLock | PushTest | PushBack | PushSlot | PushSize | PushUnlock(ok: bool) | PushSignal(ok: bool)
    | PopLock | PopTest | Asleep(notified: bool) | PopFront | PopValue | PopSize | PopUnlock
    | ClearLock | ClearSize | ClearFront | ClearBack | ClearUnlock

  /** What the calls answered, in the order of their effect. */
  datatype Event = Pushed(v: Item, ok: bool) | Took(v: Item) | Cleared

  /** hands: a pusher's argument, a popper's result. fault: an access outside the array. */
  datatype State = State(
    pcs: seq<Pc>, hands: seq<Item>, ring: Ring<Item>, lock: Option<nat>, events: seq<Event>, fault: bool)

  datatype Call = ToPush(v: Item) | ToPop | ToClear

  predicate Enabled(s: State, t: nat) {
    && t < |s.pcs| == |s.hands| && |s.ring.arr| > 0
    && (s.pcs[t].PushLock? || s.pcs[t].PopLock? || s.pcs[t].ClearLock? || s.pcs[t].Asleep? ==> s.lock == None)
  }

  function At(s: State, t: nat, pc: Pc): State
    requires t < |s.pcs|
  {
    s.(pcs := s.pcs[t := pc])
  }

  function Did(s: State, e: Event): State { s.(events := s.events + [e]) }

  /** broadcast: nobody asleep stays unnotified. */
  function Notified(pcs: seq<Pc>): (r: seq<Pc>)
    ensures |r| == |pcs|
    ensures forall t :: 0 <= t < |r| ==> r[t] == if pcs[t].Asleep? then Asleep(true) else pcs[t]
  {
    seq(|pcs|, t requires 0 <= t < |pcs| => if pcs[t].Asleep? then Asleep(true) else pcs[t])
  }

  /** One step of thread t; an idle thread starts the given call. A sleeper may wake unnotified. */
  function Move(s: State, t: nat, call: Call): State
    requires Enabled(s, t)
  {
    var r := s.ring;
    match s.pcs[t]
    case Idle =>
      if call.ToPush? then At(s, t, PushLock).(hands := s.hands[t := call.v])
      else At(s, t, if call.ToPop? then PopLock else ClearLock)
    case PushLock => At(s, t, PushTest).(lock := Some(t))
    case PushTest =>
      if r.size >= |r.arr| then Did(At(s, t, PushUnlock(false)), Pushed(s.hands[t], false)) else At(s, t, PushBack)
    case PushBack => At(s, t, PushSlot).(ring := r.(back := Place(r.back, 0, |r.arr|)))
    case PushSlot =>
      if 0 <= r.back < |r.arr| then At(s, t, PushSize).(ring := r.(arr := r.arr[r.back := s.hands[t]]))
      else s.(fault := true)
    case PushSize => Did(At(s, t, PushUnlock(true)).(ring := r.(size := r.size + 1)), Pushed(s.hands[t], true))
    case PushUnlock(ok) => At(s, t, PushSignal(ok)).(lock := None)
    case PushSignal(ok) => At(s, t, Idle).(pcs := Notified(s.pcs)[t := Idle])
    case PopLock => At(s, t, PopTest).(lock := Some(t))
    case PopTest => if r.size <= 0 then At(s, t, Asleep(false)).(lock := None) else At(s, t, PopFront)
    case Asleep(_) => At(s, t, PopTest).(lock := Some(t))
    case PopFront => At(s, t, PopValue).(ring := r.(front := Place(r.front, 0, |r.arr|)))
    case PopValue =>
      if 0 <= r.front < |r.arr| then At(s, t, PopSize).(hands := s.hands[t := r.arr[r.front]])
      else s.(fault := true)
    case PopSize => Did(At(s, t, PopUnlock).(ring := r.(size := r.size - 1)), Took(s.hands[t]))
    case PopUnlock => At(s, t, Idle).(lock := None)
    case ClearLock => At(s, t, ClearSize).(lock := Some(t))
    case ClearSize => At(s, t, ClearFront).(ring := r.(size := 0))
    case ClearFront => At(s, t, ClearBack).(ring := r.(front := -1))
    case ClearBack => Did(At(s, t, ClearUnlock).(ring := r.(back := -1)), Cleared)
    case ClearUnlock => At(s, t, Idle).(lock := None)
  }

  ghost predicate Next(s: State, u: State) {
    exists t: nat, call: Call :: Enabled(s, t) && u == Move(s, t, call)
  }

  predicate IsStart(s: State) {
    && |s.pcs| == |s.hands| && (forall t :: 0 <= t < |s.pcs| ==> s.pcs[t] == Idle)
    && |s.ring.arr| > 0 && s.ring == Ring(s.ring.arr, -1, -1, 0)
    && s.lock == None && s.events == [] && !s.fault
  }

  ghost predicate IsRun(run: seq<State>) {
    run != [] && IsStart(run[0]) && forall i :: 0 <= i < |run| - 1 ==> Next(run[i], run[i + 1])
  }

  // ----- the bounded FIFO

  /** One answer of a FIFO with room for max; None if the FIFO would not answer so. */
  function Answer(q: seq<Item>, e: Event, max: nat): Option<seq<Item>> {
    match e
    case Pushed(v, ok) => if ok != (|q| < max) then None else Some(if ok then q + [v] else q)
    case Took(v) => if q != [] && q[0] == v then Some(q[1..]) else None
    case Cleared => Some([])
  }

  /** The FIFO after these answers. */
  function Replay(events: seq<Event>, max: nat): Option<seq<Item>> {
    if events == [] then Some([])
    else
      var q := Replay(events[..|events| - 1], max);
      if q == None then None else Answer(q.value, events[|events| - 1], max)
  }

  function Added(e: Event): seq<Item> { if e.Pushed? && e.ok then [e.v] else [] }

  /** What an answer takes out of the FIFO q: the item taken, or all that clear discards. */
  function Left(q: seq<Item>, e: Event): seq<Item> { if e.Took? then [e.v] else if e.Cleared? then q else [] }

  function Accepted(events: seq<Event>): seq<Item> {
    if events == [] then [] else Accepted(events[..|events| - 1]) + Added(events[|events| - 1])
  }

  function Gone(events: seq<Event>, max: nat): seq<Item>
    requires Replay(events, max).Some?
  {
    if events == [] then []
    else
      var before := events[..|events| - 1];
      Gone(before, max) + Left(Replay(before, max).value, events[|events| - 1])
  }

  lemma AnswerBalances(q: seq<Item>, e: Event, max: nat)
    requires Answer(q, e, max).Some? && |q| <= max
    ensures q + Added(e) == Left(q, e) + Answer(q, e, max).value && |Answer(q, e, max).value| <= max
  {
    assert e.Took? ==> q == [q[0]] + q[1..];
  }

  lemma Shifted(gone: seq<Item>, q: seq<Item>, added: seq<Item>, left: seq<Item>, q': seq<Item>)
    requires q + added == left + q'
    ensures (gone + left) + q' == (gone + q) + added
  {
    assert (gone + left) + q' == gone + (left + q');
    assert (gone + q) + added == gone + (q + added);
  }

  /** First in, first out: what left, then what is there, is what was accepted, in order. */
  lemma {:induction false} FirstInFirstOut(events: seq<Event>, max: nat)
    requires Replay(events, max).Some?
    ensures Gone(events, max) + Replay(events, max).value == Accepted(events)
    ensures |Replay(events, max).value| <= max
  {
    hide Answer, Added, Left;
    if events == [] {
    } else {
      var before, e := events[..|events| - 1], events[|events| - 1];
      FirstInFirstOut(before, max);
      var q := Replay(before, max).value;
      AnswerBalances(q, e, max);
      Shifted(Gone(before, max), q, Added(e), Left(q, e), Answer(q, e, max).value);
    }
  }

  // ----- the invariant

  predicate Locked(pc: Pc) {
    pc.PushTest? || pc.PushBack? || pc.PushSlot? || pc.PushSize? || pc.PushUnlock?
    || pc.PopTest? || pc.PopFront? || pc.PopValue? || pc.PopSize? || pc.PopUnlock?
    || pc.ClearSize? || pc.ClearFront? || pc.ClearBack? || pc.ClearUnlock?
  }

  /** The ring holds q. */
  predicate Holds(r: Ring<Item>, q: seq<Item>) { RingOk(r) && Contents(r) == q }

  /** How the ring stands for the FIFO q while the thread at pc has the lock. */
  predicate Stands(r: Ring<Item>, q: seq<Item>, pc: Pc, hand: Item) {
    var n := |r.arr|;
    if pc.PushBack? then Holds(r, q) && |q| < n
    else if pc.PushSlot? then
      0 <= r.back < n && |q| < n && Holds(r.(arr := r.arr[r.back := hand], size := r.size + 1), q + [hand])
    else if pc.PushSize? then |q| < n && Holds(r.(size := r.size + 1), q + [hand])
    else if pc.PopFront? then Holds(r, q) && q != []
    else if pc.PopValue? then 0 <= r.front < n && q != [] && q[0] == r.arr[r.front] && Holds(r.(size := r.size - 1), q[1..])
    else if pc.PopSize? then q != [] && q[0] == hand && Holds(r.(size := r.size - 1), q[1..])
    else if pc.ClearFront? then r.size == 0
    else if pc.ClearBack? then r.size == 0 && r.front == -1
    else Holds(r, q)
  }

  predicate Exclusive(s: State) {
    && |s.pcs| == |s.hands| && (s.lock.Some? ==> s.lock.value < |s.pcs|)
    && forall t :: 0 <= t < |s.pcs| ==> (Locked(s.pcs[t]) <==> s.lock == Some(t))
  }

  function HolderPc(s: State): Pc { if s.lock.Some? && s.lock.value < |s.pcs| then s.pcs[s.lock.value] else Idle }

  function HolderHand(s: State): Item { if s.lock.Some? && s.lock.value < |s.hands| then s.hands[s.lock.value] else [] }

  predicate Refines(s: State) {
    && |s.ring.arr| > 0 && !s.fault
    && Replay(s.events, |s.ring.arr|).Some?
    && Stands(s.ring, Replay(s.events, |s.ring.arr|).value, HolderPc(s), HolderHand(s))
  }

  /** A step moves one thread, and the lock only to or from it; only broadcast changes other threads. */
  lemma MoveIsLocal(s: State, t: nat, call: Call)
    requires Exclusive(s) && Enabled(s, t)
    ensures var u := Move(s, t, call);
            && |u.pcs| == |s.pcs| == |u.hands|
            && (u.lock == s.lock || (s.lock == None && u.lock == Some(t)) || (s.lock == Some(t) && u.lock == None))
            && (Locked(u.pcs[t]) <==> u.lock == Some(t))
            && (if s.pcs[t].PushSignal? then u.pcs == Notified(s.pcs)[t := u.pcs[t]] else u.pcs == s.pcs[t := u.pcs[t]])
  {
    hide Place, Notified;
    assert Locked(s.pcs[t]) <==> s.lock == Some(t);
    assert s.pcs[t := s.pcs[t]] == s.pcs;
  }

  lemma KeepsExclusive(s: State, t: nat, call: Call)
    requires Exclusive(s) && Enabled(s, t)
    ensures Exclusive(Move(s, t, call))
  {
    hide Move;
    MoveIsLocal(s, t, call);
    var u := Move(s, t, call);
    forall o | 0 <= o < |u.pcs| ensures Locked(u.pcs[o]) <==> u.lock == Some(o) {
      assert Locked(s.pcs[o]) <==> s.lock == Some(o);
      assert Locked(s.pcs[t]) <==> s.lock == Some(t);
    }
  }

  lemma ReplayOne(events: seq<Event>, e: Event, max: nat)
    requires Replay(events, max).Some?
    ensures Replay(events + [e], max) == Answer(Replay(events, max).value, e, max)
  {
    assert (events + [e])[..|events + [e]| - 1] == events;
  }

  /** The steps of push, with the lock. */
  lemma PushRefines(s: State, t: nat, call: Call)
    requires Exclusive(s) && Refines(s) && Enabled(s, t)
    requires s.pcs[t].PushTest? || s.pcs[t].PushBack? || s.pcs[t].PushSlot? || s.pcs[t].PushSize?
    ensures Refines(Move(s, t, call))
  {
    hide Place, Contents, RingOk, Replay;
    var u := Move(s, t, call);
    var r := s.ring;
    var n := |r.arr|;
    var q := Replay(s.events, n).value;
    if s.pcs[t].PushTest? {
      SizeIs(r, q);
      ReplayOne(s.events, Pushed(s.hands[t], false), n);
    } else if s.pcs[t].PushBack? {
      SizeIs(r, q);
      PushAppends(r, s.hands[t]);
      assert u.ring.(arr := u.ring.arr[u.ring.back := s.hands[t]], size := u.ring.size + 1)
          == Push(r, s.hands[t]);
    } else if s.pcs[t].PushSize? {
      ReplayOne(s.events, Pushed(s.hands[t], true), n);
    }
  }

  lemma SizeIs(r: Ring<Item>, q: seq<Item>)
    requires Holds(r, q)
    ensures r.size == |q| <= |r.arr|
  {
  }

  /** The steps of pop, with the lock. */
  lemma PopRefines(s: State, t: nat, call: Call)
    requires Exclusive(s) && Refines(s) && Enabled(s, t)
    requires s.pcs[t].PopTest? || s.pcs[t].PopFront? || s.pcs[t].PopValue? || s.pcs[t].PopSize?
    ensures Refines(Move(s, t, call))
  {
    hide Place, Contents, RingOk, Replay;
    var u := Move(s, t, call);
    var r := s.ring;
    var n := |r.arr|;
    var q := Replay(s.events, n).value;
    if s.pcs[t].PopTest? {
      SizeIs(r, q);
    } else if s.pcs[t].PopFront? {
      SizeIs(r, q);
      PopRemovesFirst(r);
      assert u.ring.(size := u.ring.size - 1) == Pop(r);
    } else if s.pcs[t].PopSize? {
      ReplayOne(s.events, Took(s.hands[t]), n);
    }
  }

  lemma ClearRefines(s: State, t: nat, call: Call)
    requires Exclusive(s) && Refines(s) && Enabled(s, t)
    requires s.pcs[t].ClearSize? || s.pcs[t].ClearFront? || s.pcs[t].ClearBack?
    ensures Refines(Move(s, t, call))
  {
    hide Replay;
    if s.pcs[t].ClearBack? {
      ClearEmpties(s.ring);
      ReplayOne(s.events, Cleared, |s.ring.arr|);
    }
  }

  /** All other steps leave ring and events alone. */
  lemma OthersRefine(s: State, t: nat, call: Call)
    requires Exclusive(s) && Refines(s) && Enabled(s, t)
    requires !Locked(s.pcs[t]) || s.pcs[t].PushUnlock? || s.pcs[t].PopUnlock? || s.pcs[t].ClearUnlock?
    ensures Refines(Move(s, t, call))
  {
    hide Holds, Replay;
  }

  // ----- wake-ups

  /** A thread that has put something in and will broadcast. */
  predicate WillSignal(pc: Pc) { (pc.PushUnlock? || pc.PushSignal?) && pc.ok }

  /** Somebody sleeps unnotified on a queue that is not empty only while a broadcast is under way. */
  ghost predicate NoLostWakeup(s: State) {
    s.ring.size > 0 && Asleep(false) in s.pcs ==> exists t :: 0 <= t < |s.pcs| && WillSignal(s.pcs[t])
  }

  /** An item comes only with a signal to follow, and nobody falls asleep on items. */
  lemma SizeAndSignals(s: State, t: nat, call: Call)
    requires Exclusive(s) && Enabled(s, t) && Move(s, t, call).ring.size > 0
    ensures var u := Move(s, t, call);
            && |u.pcs| == |s.pcs| && u.pcs[t] != Asleep(false)
            && (WillSignal(u.pcs[t]) || (s.ring.size > 0 && (WillSignal(s.pcs[t]) ==> s.pcs[t].PushSignal?)))
  {
    hide Place;
  }

  lemma KeepsWakeups(s: State, t: nat, call: Call)
    requires Exclusive(s) && Enabled(s, t) && NoLostWakeup(s)
    ensures NoLostWakeup(Move(s, t, call))
  {
    hide Move;
    var u := Move(s, t, call);
    if u.ring.size > 0 && Asleep(false) in u.pcs {
      MoveIsLocal(s, t, call);
      SizeAndSignals(s, t, call);
      var i :| 0 <= i < |u.pcs| && u.pcs[i] == Asleep(false);
      if !WillSignal(u.pcs[t]) {
        assert s.pcs[i] == Asleep(false);
        var w :| 0 <= w < |s.pcs| && WillSignal(s.pcs[w]);
        assert WillSignal(u.pcs[w]);
      }
    }
  }

  // ----- runs

  predicate Inv(s: State) { Exclusive(s) && Refines(s) }

  lemma StepKeepsInv(s: State, t: nat, call: Call)
    requires Inv(s) && Enabled(s, t)
    ensures Inv(Move(s, t, call)) && |Move(s, t, call).ring.arr| == |s.ring.arr|
  {
    KeepsExclusive(s, t, call);
    hide Refines;
    var pc := s.pcs[t];
    if pc.PushTest? || pc.PushBack? || pc.PushSlot? || pc.PushSize? {
      PushRefines(s, t, call);
    } else if pc.PopTest? || pc.PopFront? || pc.PopValue? || pc.PopSize? {
      PopRefines(s, t, call);
    } else if pc.ClearSize? || pc.ClearFront? || pc.ClearBack? {
      ClearRefines(s, t, call);
    } else {
      OthersRefine(s, t, call);
    }
  }

  lemma {:induction false} RunsKeepInv(run: seq<State>, n: nat)
    requires IsRun(run) && n < |run|
    ensures Inv(run[n]) && NoLostWakeup(run[n]) && |run[n].ring.arr| == |run[0].ring.arr|
  {
    if n == 0 {
      ClearEmpties(run[0].ring);
    } else {
      RunsKeepInv(run, n - 1);
      var s := run[n - 1];
      assert Next(s, run[n]);
      hide Move, IsRun, Refines, NoLostWakeup, Exclusive;
      var t: nat, call: Call :| Enabled(s, t) && run[n] == Move(s, t, call);
      StepKeepsInv(s, t, call);
      KeepsWakeups(s, t, call);
    }
  }

  /** The circular queue refines a bounded FIFO, in every run: no access is out of the array; the answers
      of push and pop are those of a FIFO; with the lock free, the ring holds the FIFO's items; and those,
      behind what was taken or cleared, are what was accepted, in order. */
  lemma RingRefinesFifo(run: seq<State>, n: nat)
    requires IsRun(run) && n < |run|
    ensures var s := run[n];
            var max := |run[0].ring.arr|;
            && !s.fault && Replay(s.events, max).Some?
            && (s.lock == None ==> Holds(s.ring, Replay(s.events, max).value))
            && Gone(s.events, max) + Replay(s.events, max).value == Accepted(s.events)
            && |Replay(s.events, max).value| <= max
  {
    RunsKeepInv(run, n);
    hide Holds, IsRun;
    FirstInFirstOut(run[n].events, |run[0].ring.arr|);
  }

  /** With no broadcast under way and the lock free, nobody sleeps unnotified while there are items. */
  lemma NobodySleepsOnItems(run: seq<State>, n: nat)
    requires IsRun(run) && n < |run| && run[n].lock == None
    requires forall t :: 0 <= t < |run[n].pcs| ==> !run[n].pcs[t].PushSignal?
    ensures Asleep(false) in run[n].pcs ==> Replay(run[n].events, |run[0].ring.arr|) == Some([])
  {
    RunsKeepInv(run, n);
    hide IsRun, Replay, RingOk;
    var s := run[n];
    assert forall t :: 0 <= t < |s.pcs| ==> !Locked(s.pcs[t]) && !WillSignal(s.pcs[t]);
    assert |Contents(s.ring)| == s.ring.size;
  }
}
