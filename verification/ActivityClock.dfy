/** When connections are reaped, by the clock: the time of a timer's last activity is told from the steps of
    a run alone. */
module ActivityClock {
  import opened Wrappers
  import opened SortedTimers
  import opened EventLoop

  /** The state behind a list of steps, if all can be taken. */
  function After(steps: seq<Step>): Option<State> {
    if steps == [] then Some(INIT)
    else
      var before := After(steps[..|steps| - 1]);
      var last := steps[|steps| - 1];
      if before.Some? && Enabled(before.value, last) then Some(Apply(before.value, last)) else None
  }

  /** The time. */
  function Clock(steps: seq<Step>): int {
    if steps == [] then 0
    else
      var last := steps[|steps| - 1];
      if last.Time? then last.later else Clock(steps[..|steps| - 1])
  }

  /** How many timers were added. */
  function Adds(steps: seq<Step>): nat {
    if steps == [] then 0 else Adds(steps[..|steps| - 1]) + if steps[|steps| - 1].AddTimer? then 1 else 0
  }

  /** The descriptor accepted last. */
  function Arrived(steps: seq<Step>): Fd {
    if steps == [] then 0
    else
      var last := steps[|steps| - 1];
      if last.Accept? then last.fd else Arrived(steps[..|steps| - 1])
  }

  /** The number of the timer last added for a descriptor. */
  function TimerOf(steps: seq<Step>, fd: Fd): Option<nat> {
    if steps == [] then None
    else
      var front, last := steps[..|steps| - 1], steps[|steps| - 1];
      if last.AddTimer? && Arrived(front) == fd then Some(Adds(front)) else TimerOf(front, fd)
  }

  /** The time of a timer's last activity: when it was added, or traffic came on its descriptor. */
  function LastActive(steps: seq<Step>, id: nat): Option<int> {
    if steps == [] then None
    else
      var front, last := steps[..|steps| - 1], steps[|steps| - 1];
      if (last.AddTimer? && Adds(front) == id) || (last.Active? && TimerOf(front, last.fd) == Some(id))
      then Some(Clock(front)) else LastActive(front, id)
  }

  // ----- what a step leaves in the list

  predicate EntryFrom(s: State, step: Step, e: Entry<Item>)
    requires Enabled(s, step)
  {
    || (e in s.list && (step.Active? ==> step.fd in s.usersTimer && e.item != s.usersTimer[step.fd]))
    || (step.AddTimer? && e == Entry(Item(s.nextId, s.pc.fd), s.now + 15))
    || (step.Active? && step.fd in s.usersTimer && e == Entry(s.usersTimer[step.fd], s.now + 15))
  }

  lemma EntriesAfter(s: State, step: Step)
    requires Inv(s) && Enabled(s, step)
    ensures forall e :: e in Apply(s, step).list ==> EntryFrom(s, step, e)
  {
    hide Insert, Remove, IndexOfItem, LiveWhereUsed, Balanced, TickSoFar, ListInOrder;
    match step
    case AddTimer => NewTimerGoesLast(s, Item(s.nextId, s.pc.fd));
    case Active(fd) =>
      ActiveIsLive(s, fd);
      EntriesRefreshed(s, fd);
    case Delete => EntriesDeleted(s);
    case _ =>
  }

  lemma ActiveIsLive(s: State, fd: Fd)
    requires Inv(s) && fd in s.pending
    ensures Live(s, fd)
  {
  }

  lemma EntriesRefreshed(s: State, fd: Fd)
    requires ListInOrder(s) && Enabled(s, Active(fd)) && Live(s, fd)
    ensures forall e :: e in Apply(s, Active(fd)).list ==> EntryFrom(s, Active(fd), e)
  {
    hide Insert, Remove, IndexOfItem, ListInOrder;
    var item := s.usersTimer[fd];
    ListOperations(s, item);
    var k := IndexOfItem(s.list, item);
    CutKeepsOrder(s, k);
    var t := Apply(s, Active(fd));
    forall e | e in t.list ensures EntryFrom(s, Active(fd), e) {
      var i :| 0 <= i < |t.list| && t.list[i] == e;
      if i < |s.list| - 1 {
        var j := if i < k then i else i + 1;
        assert s.list[j] == e;
      }
    }
  }

  lemma EntriesDeleted(s: State)
    requires Inv(s) && Enabled(s, Delete)
    ensures forall e :: e in Apply(s, Delete).list ==> e in s.list
  {
    hide Insert, Remove, IndexOfItem, Balanced, TickSoFar;
    if InList(s, s.pc.item) {
      ListOperations(s, s.pc.item);
      hide ListInOrder, LiveWhereUsed;
    }
  }

  // ----- the fields tell the steps

  predicate Tells(s: State, steps: seq<Step>) {
    && s.now == Clock(steps) && s.nextId == Adds(steps)
    && (s.pc.Registered? || s.pc.Counted? ==> s.pc.fd == Arrived(steps))
  }

  ghost predicate TellsTimers(s: State, steps: seq<Step>) {
    forall fd :: if fd in s.usersTimer then TimerOf(steps, fd) == Some(s.usersTimer[fd].id) else TimerOf(steps, fd) == None
  }

  /** Timers of the list with the same number are the same. */
  predicate IdsName(s: State) {
    forall e, f :: e in s.list && f in s.list && e.item.id == f.item.id ==> e.item == f.item
  }

  predicate Expires(s: State, steps: seq<Step>) {
    forall e :: e in s.list ==> LastActive(steps, e.item.id) == Some(e.expire - 15)
  }

  lemma FieldsTell(s: State, steps: seq<Step>, step: Step)
    requires Enabled(s, step) && Tells(s, steps) && TellsTimers(s, steps)
    ensures Tells(Apply(s, step), steps + [step]) && TellsTimers(Apply(s, step), steps + [step])
  {
    hide Refreshed, InList, Insert, Remove;
    assert (steps + [step])[..|steps|] == steps;
  }

  lemma IdsAreNew(s: State)
    requires ListInOrder(s)
    ensures forall e :: e in s.list ==> e.item.id < s.nextId
  {
  }

  lemma IdsStay(s: State, step: Step)
    requires Inv(s) && Enabled(s, step) && IdsName(s)
    ensures IdsName(Apply(s, step))
  {
    EntriesAfter(s, step);
    IdsAreNew(s);
    if step.Active? { ActiveIsLive(s, step.fd); }
    hide Inv, Apply;
  }

  lemma ExpiriesStay(s: State, steps: seq<Step>, step: Step)
    requires Inv(s) && Enabled(s, step) && IdsName(s)
    requires Tells(s, steps) && TellsTimers(s, steps) && Expires(s, steps)
    ensures Expires(Apply(s, step), steps + [step])
  {
    EntriesAfter(s, step);
    IdsAreNew(s);
    if step.Active? { ActiveIsLive(s, step.fd); }
    assert (steps + [step])[..|steps|] == steps;
    hide Inv, Apply;
  }

  lemma {:induction false} AfterTells(steps: seq<Step>)
    requires After(steps).Some?
    ensures var s := After(steps).value;
            Inv(s) && Tells(s, steps) && TellsTimers(s, steps) && IdsName(s) && Expires(s, steps)
  {
    hide Inv, Apply, Enabled, Tells, TellsTimers, IdsName, Expires;
    if steps == [] {
      StartTells();
    } else {
      var front, last := steps[..|steps| - 1], steps[|steps| - 1];
      var s := After(front).value;
      AfterTells(front);
      assert front + [last] == steps;
      StepKeepsInv(s, last);
      FieldsTell(s, front, last);
      IdsStay(s, last);
      ExpiriesStay(s, front, last);
    }
  }

  lemma StartTells()
    ensures Inv(INIT) && Tells(INIT, []) && TellsTimers(INIT, []) && IdsName(INIT) && Expires(INIT, [])
  {
    InitInv();
    hide Inv;
  }

  /** In every run, told from its steps, each timer of the list expires 15 seconds after its last activity. */
  lemma ExpiresAfterLastActivity(steps: seq<Step>, i: nat)
    requires After(steps).Some? && i < |After(steps).value.list|
    ensures var e := After(steps).value.list[i]; LastActive(steps, e.item.id) == Some(e.expire - 15)
  {
    hide After, Inv, Tells, TellsTimers, IdsName, LastActive;
    AfterTells(steps);
  }

  // ----- ticks

  /** The steps before the last tick began. */
  function BeforeTick(steps: seq<Step>): seq<Step> {
    if steps == [] then []
    else
      var front := steps[..|steps| - 1];
      if steps[|steps| - 1].StartTick? then front else BeforeTick(front)
  }

  /** The timers called back since. */
  function Fired(steps: seq<Step>): seq<Entry<Item>>
    requires After(steps).Some?
  {
    if steps == [] then []
    else
      var front, last := steps[..|steps| - 1], steps[|steps| - 1];
      if last.StartTick? then [] else if last.Fire? then Fired(front) + [After(front).value.list[0]] else Fired(front)
  }

  predicate TickTold(s: State, steps: seq<Step>)
    requires After(steps).Some?
  {
    InTick(s.pc) ==>
      && After(BeforeTick(steps)).Some?
      && s.pc.cur == Clock(BeforeTick(steps)) && s.pc.atStart == After(BeforeTick(steps)).value.list
      && s.pc.fired == Fired(steps)
  }

  lemma {:induction false} TicksTold(steps: seq<Step>)
    requires After(steps).Some?
    ensures TickTold(After(steps).value, steps)
  {
    if steps == [] {
    } else {
      var front, last := steps[..|steps| - 1], steps[|steps| - 1];
      hide Inv, TellsTimers, IdsName, Expires, Refreshed, InList, Live;
      TicksTold(front);
      AfterTells(front);
    }
  }

  /** Reaping by the clock: a tick that began at time t has called back, when it ends, exactly the timers
      whose last activity was at t - 15 or before, in the order of the list. */
  lemma TickFiresByLastActivity(steps: seq<Step>)
    requires After(steps).Some? && Enabled(After(steps).value, EndTick)
    ensures After(BeforeTick(steps)).Some?
    ensures var b := BeforeTick(steps);
            var list := After(b).value.list;
            && Fired(steps) <= list && After(steps).value.list == list[|Fired(steps)|..]
            && forall i :: 0 <= i < |list| ==>
                 && LastActive(b, list[i].item.id).Some?
                 && (i < |Fired(steps)| <==> LastActive(b, list[i].item.id).value <= Clock(b) - 15)
  {
    hide Inv, Tells, TellsTimers, IdsName, Apply, Sorted, Expires, After, Fired, BeforeTick, Clock, LastActive;
    var s := After(steps).value;
    AfterTells(steps);
    TicksTold(steps);
    EndedTick(s);
    var b := BeforeTick(steps);
    var list := After(b).value.list;
    assert s.pc.atStart == list;
    ExpiredSplits(list, s.pc.cur);
    forall i | 0 <= i < |list| ensures LastActive(b, list[i].item.id) == Some(list[i].expire - 15) {
      ExpiresAfterLastActivity(b, i);
    }
  }
}
