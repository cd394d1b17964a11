/** main.cpp's event loop as a transition system: main's own steps, interleaved with workers that
    close connections and with time. The timer list is the value that TimerList refines. */
module EventLoop {
  import opened SortedTimers

  const TIMEOUT: int := 15
  const MAX_FD: int := 65536

  type Fd = nat

  /** A util_timer: its address, never used twice here, and the descriptor it closes. */
  datatype Item = Item(id: nat, fd: Fd)

  /** Where main stands. CloseFd, CountDown and DropTimer are the rest of cb_func and del_timer for the
      event's descriptor; Firing and its two successors the same inside tick, which began at time cur
      with the list atStart and has called back fired. */
  datatype Pc =
    | Waiting
    | InBatch
    | Registered(fd: Fd)
    | Counted(fd: Fd)
    | CloseFd(item: Item)
    | CountDown(item: Item)
    | DropTimer(item: Item)
    | Ticking(cur: int, atStart: seq<Entry<Item>>, fired: seq<Entry<Item>>)
    | TickCloseFd(cur: int, atStart: seq<Entry<Item>>, fired: seq<Entry<Item>>)
    | TickCountDown(cur: int, atStart: seq<Entry<Item>>, fired: seq<Entry<Item>>)
    | TickDrop(cur: int, atStart: seq<Entry<Item>>, fired: seq<Entry<Item>>)

  /** stale turns true when main uses a timer that is not in the list. lastUse numbers the activities:
      it tells the order in which items were last added or adjusted. */
  datatype State = State(
    pc: Pc, now: int, open: set<Fd>, registered: set<Fd>, pending: set<Fd>, usersTimer: map<Fd, Item>,
    list: seq<Entry<Item>>, userCount: int, workerCloses: nat, nextId: nat, stale: bool,
    lastUse: map<Item, nat>, uses: nat)

  const INIT := State(Waiting, 0, {}, {}, {}, map[], [], 0, 0, 0, false, map[], 0)

  datatype Step =
    | Wait(batch: set<Fd>)
    | Accept(fd: Fd)
    | CountUp
    | AddTimer
    | Active(fd: Fd)
    | Hangup(fd: Fd)
    | Close
    | Decrement
    | Delete
    | StartTick
    | Fire
    | TickClose
    | TickDecrement
    | TickDelete
    | EndTick
    | EndBatch
    | Time(later: int)
    | WorkerRemoves(fd: Fd)
    | WorkerDecrements

  predicate InList(s: State, item: Item) { exists i :: 0 <= i < |s.list| && s.list[i].item == item }

  /** users_timer[fd].timer is a timer of the list. */
  predicate Live(s: State, fd: Fd) { fd in s.usersTimer && InList(s, s.usersTimer[fd]) }

  predicate Enabled(s: State, step: Step) {
    match step
    case Wait(batch) => s.pc == Waiting && batch <= s.registered
    case Accept(fd) => s.pc == InBatch && fd !in s.open && s.userCount < MAX_FD
    case CountUp => s.pc.Registered?
    case AddTimer => s.pc.Counted?
    case Active(fd) => s.pc == InBatch && fd in s.pending
    case Hangup(fd) => s.pc == InBatch && fd in s.pending
    case Close => s.pc.CloseFd?
    case Decrement => s.pc.CountDown?
    case Delete => s.pc.DropTimer?
    case StartTick => s.pc == InBatch && s.pending == {}
    case Fire => s.pc.Ticking? && s.list != [] && s.list[0].expire <= s.pc.cur
    case TickClose => s.pc.TickCloseFd?
    case TickDecrement => s.pc.TickCountDown?
    case TickDelete => s.pc.TickDrop?
    case EndTick => s.pc.Ticking? && (s.list == [] || s.pc.cur < s.list[0].expire)
    case EndBatch => s.pc == InBatch && s.pending == {}
    case Time(later) => s.now <= later
    case WorkerRemoves(fd) => true
    case WorkerDecrements => true
  }

  /** The list with an item out and in again at time now: adjust_timer after expire was set. */
  function Refreshed(s: State, item: Item): seq<Entry<Item>> {
    Insert(Remove(s.list, item), Entry(item, s.now + TIMEOUT))
  }

  function Apply(s: State, step: Step): State
    requires Enabled(s, step)
  {
    match step
    case Wait(batch) => s.(pc := InBatch, pending := batch)
    case Accept(fd) => s.(pc := Registered(fd), open := s.open + {fd}, registered := s.registered + {fd})
    case CountUp => s.(pc := Counted(s.pc.fd), userCount := s.userCount + 1)
    case AddTimer =>
      var item := Item(s.nextId, s.pc.fd);
      s.(pc := InBatch, nextId := s.nextId + 1, usersTimer := s.usersTimer[s.pc.fd := item],
         list := Insert(s.list, Entry(item, s.now + TIMEOUT)),
         lastUse := s.lastUse[item := s.uses], uses := s.uses + 1)
    case Active(fd) =>
      if !Live(s, fd) then s.(stale := true, pending := s.pending - {fd})
      else
        var item := s.usersTimer[fd];
        s.(pending := s.pending - {fd}, list := Refreshed(s, item),
           lastUse := s.lastUse[item := s.uses], uses := s.uses + 1)
    case Hangup(fd) =>
      if !Live(s, fd) then s.(stale := true, pending := s.pending - {fd})
      else s.(pc := CloseFd(s.usersTimer[fd]), pending := s.pending - {fd}, registered := s.registered - {fd})
    case Close => s.(pc := CountDown(s.pc.item), open := s.open - {s.pc.item.fd})
    case Decrement => s.(pc := DropTimer(s.pc.item), userCount := s.userCount - 1)
    case Delete =>
      if !InList(s, s.pc.item) then s.(pc := InBatch, stale := true)
      else s.(pc := InBatch, list := Remove(s.list, s.pc.item))
    case StartTick => s.(pc := Ticking(s.now, s.list, []))
    case Fire =>
      s.(pc := TickCloseFd(s.pc.cur, s.pc.atStart, s.pc.fired + [s.list[0]]),
         registered := s.registered - {s.list[0].item.fd})
    case TickClose =>
      s.(pc := TickCountDown(s.pc.cur, s.pc.atStart, s.pc.fired),
         open := if s.list == [] then s.open else s.open - {s.list[0].item.fd})
    case TickDecrement => s.(pc := TickDrop(s.pc.cur, s.pc.atStart, s.pc.fired), userCount := s.userCount - 1)
    case TickDelete =>
      s.(pc := Ticking(s.pc.cur, s.pc.atStart, s.pc.fired), list := if s.list == [] then [] else s.list[1..])
    case EndTick => s.(pc := Waiting)
    case EndBatch => s.(pc := Waiting)
    case Time(later) => s.(now := later)
    case WorkerRemoves(fd) => s.(registered := s.registered - {fd}, open := s.open - {fd})
    case WorkerDecrements => s.(userCount := s.userCount - 1, workerCloses := s.workerCloses + 1)
  }

  ghost predicate Next(s: State, t: State) { exists step :: Enabled(s, step) && t == Apply(s, step) }

  ghost predicate IsRun(run: seq<State>) {
    run != [] && run[0] == INIT && forall i :: 0 <= i < |run| - 1 ==> Next(run[i], run[i + 1])
  }

  // ----- the invariant

  predicate InTick(pc: Pc) { pc.Ticking? || pc.TickCloseFd? || pc.TickCountDown? || pc.TickDrop? }

  /** main has registered the descriptor and not yet made its timer. */
  predicate Arriving(pc: Pc, fd: Fd) { (pc.Registered? || pc.Counted?) && pc.fd == fd }

  ghost predicate LiveWhereUsed(s: State) { TimersLive(s) && ClosingLive(s) }

  ghost predicate TimersLive(s: State) {
    && (forall fd :: fd in s.pending || (fd in s.registered && !Arriving(s.pc, fd)) ==> Live(s, fd))
    && (forall fd :: fd in s.usersTimer ==> s.usersTimer[fd].fd == fd)
  }

  /** The timer being closed is in the list, and nothing more is heard of its descriptor. */
  ghost predicate ClosingLive(s: State) {
    && (s.pc.CloseFd? || s.pc.CountDown? || s.pc.DropTimer? ==>
          InList(s, s.pc.item) && s.pc.item.fd !in s.pending && s.pc.item.fd !in s.registered)
    && (s.pc == Waiting || InTick(s.pc) ==> s.pending == {})
    && (s.pc.TickCloseFd? || s.pc.TickCountDown? || s.pc.TickDrop? ==>
          s.list != [] && s.list[0].item.fd !in s.registered)
  }

  predicate ListInOrder(s: State) {
    && Sorted(s.list) && Distinct(s.list)
    && (forall i :: 0 <= i < |s.list| ==>
          s.list[i].expire <= s.now + TIMEOUT && s.list[i].item.id < s.nextId
          && s.list[i].item in s.lastUse && s.lastUse[s.list[i].item] < s.uses)
    && (forall i, j :: 0 <= i < j < |s.list| ==> s.lastUse[s.list[i].item] < s.lastUse[s.list[j].item])
  }

  /** Timers in the list against the counter, between main's counting and its list operation. */
  function Ahead(pc: Pc): int {
    if pc.Counted? then -1 else if pc.DropTimer? || pc.TickDrop? then 1 else 0
  }

  predicate Balanced(s: State) { |s.list| == s.userCount + s.workerCloses + Ahead(s.pc) }

  predicate TickSoFar(s: State) {
    InTick(s.pc) ==>
      s.pc.cur <= s.now && Reaped(s.pc.cur, s.pc.atStart, s.pc.fired,
                                  if s.pc.Ticking? || s.list == [] then s.list else s.list[1..])
  }

  /** The list was in order, its front has been called back, the rest is still there. */
  predicate Reaped(cur: int, atStart: seq<Entry<Item>>, fired: seq<Entry<Item>>, rest: seq<Entry<Item>>) {
    && Sorted(atStart) && atStart == fired + rest
    && forall i :: 0 <= i < |fired| ==> fired[i].expire <= cur
  }

  ghost predicate Inv(s: State) {
    !s.stale && LiveWhereUsed(s) && ListInOrder(s) && Balanced(s) && TickSoFar(s)
  }

  // ----- what main does to the list

  function IndexOfItem(list: seq<Entry<Item>>, item: Item): (k: nat)
    requires exists i :: 0 <= i < |list| && list[i].item == item
    ensures k < |list| && list[k].item == item
  {
    if list[0].item == item then 0 else 1 + IndexOfItem(list[1..], item)
  }

  /** In an ordered list, removal takes out one place, and the refreshed item goes to the end. */
  lemma ListOperations(s: State, item: Item)
    requires ListInOrder(s) && InList(s, item)
    ensures var k := IndexOfItem(s.list, item);
            && Remove(s.list, item) == s.list[..k] + s.list[k + 1..]
            && Refreshed(s, item) == s.list[..k] + s.list[k + 1..] + [Entry(item, s.now + TIMEOUT)]
  {
    hide Insert, Remove, IndexOfItem;
    var k := IndexOfItem(s.list, item);
    RemoveLate(s.list, k);
    InsertLatest(s.list[..k] + s.list[k + 1..], Entry(item, s.now + TIMEOUT));
  }

  lemma NewTimerGoesLast(s: State, item: Item)
    requires ListInOrder(s)
    ensures Insert(s.list, Entry(item, s.now + TIMEOUT)) == s.list + [Entry(item, s.now + TIMEOUT)]
  {
    InsertLatest(s.list, Entry(item, s.now + TIMEOUT));
  }

  // ----- every step keeps the invariant

  lemma AppendKeepsOrder(s: State, t: State, rest: seq<Entry<Item>>, item: Item)
    requires ListInOrder(s.(list := rest)) && item.id < t.nextId && s.nextId <= t.nextId
    requires forall i :: 0 <= i < |rest| ==> rest[i].item != item
    requires t.list == rest + [Entry(item, s.now + TIMEOUT)] && t.now == s.now
    requires t.lastUse == s.lastUse[item := s.uses] && t.uses == s.uses + 1
    ensures ListInOrder(t)
  {
  }

  lemma NewIdIsNew(s: State)
    requires ListInOrder(s)
    ensures forall i :: 0 <= i < |s.list| ==> s.list[i].item.id != s.nextId
  {
  }

  lemma CutKeepsOrder(s: State, k: nat)
    requires ListInOrder(s) && k < |s.list|
    ensures ListInOrder(s.(list := s.list[..k] + s.list[k + 1..]))
    ensures forall i :: 0 <= i < |s.list| && i != k ==> s.list[i].item != s.list[k].item
    ensures s.list[k].item.id < s.nextId
  {
  }

  lemma RefreshKeepsOrder(s: State, fd: Fd)
    requires ListInOrder(s) && Enabled(s, Active(fd)) && Live(s, fd)
    ensures ListInOrder(Apply(s, Active(fd)))
  {
    hide Insert, Remove, IndexOfItem, ListInOrder;
    var item := s.usersTimer[fd];
    ListOperations(s, item);
    var k := IndexOfItem(s.list, item);
    CutKeepsOrder(s, k);
    AppendKeepsOrder(s, Apply(s, Active(fd)), s.list[..k] + s.list[k + 1..], item);
  }

  lemma AddKeepsOrder(s: State)
    requires ListInOrder(s) && Enabled(s, AddTimer)
    ensures ListInOrder(Apply(s, AddTimer))
  {
    hide Insert, ListInOrder;
    var item := Item(s.nextId, s.pc.fd);
    NewTimerGoesLast(s, item);
    NewIdIsNew(s);
    assert s.(list := s.list) == s;
    AppendKeepsOrder(s, Apply(s, AddTimer), s.list, item);
  }

  lemma DeleteKeepsOrder(s: State)
    requires ListInOrder(s) && Enabled(s, Delete) && InList(s, s.pc.item)
    ensures ListInOrder(Apply(s, Delete))
  {
    hide Remove, IndexOfItem, ListInOrder;
    var t := Apply(s, Delete);
    ListOperations(s, s.pc.item);
    CutKeepsOrder(s, IndexOfItem(s.list, s.pc.item));
    SameOrder(s.(list := t.list), t);
  }

  lemma TickDeleteKeepsOrder(s: State)
    requires ListInOrder(s) && Enabled(s, TickDelete) && s.list != []
    ensures ListInOrder(Apply(s, TickDelete))
  {
    hide ListInOrder;
    var t := Apply(s, TickDelete);
    CutKeepsOrder(s, 0);
    assert s.list[..0] + s.list[1..] == t.list;
    SameOrder(s.(list := t.list), t);
  }

  lemma KeepsOrder(s: State, step: Step)
    requires ListInOrder(s) && Enabled(s, step)
    ensures ListInOrder(Apply(s, step))
  {
    hide ListInOrder, Refreshed, Live, InList, Remove, Insert;
    match step
    case AddTimer => AddKeepsOrder(s);
    case Active(fd) => if Live(s, fd) { RefreshKeepsOrder(s, fd); } else { SameOrder(s, Apply(s, step)); }
    case Delete => if InList(s, s.pc.item) { DeleteKeepsOrder(s); } else { SameOrder(s, Apply(s, step)); }
    case TickDelete => if s.list != [] { TickDeleteKeepsOrder(s); } else { SameOrder(s, Apply(s, step)); }
    case _ => SameOrder(s, Apply(s, step));
  }

  /** Order is a matter of the list and the activity numbers only. */
  lemma SameOrder(s: State, t: State)
    requires ListInOrder(s) && t.list == s.list && t.now >= s.now && t.nextId == s.nextId
    requires t.lastUse == s.lastUse && t.uses == s.uses
    ensures ListInOrder(t)
  {
  }

  lemma KeepsBalance(s: State, step: Step)
    requires ListInOrder(s) && Balanced(s) && Enabled(s, step) && !Apply(s, step).stale
    requires s.pc.TickDrop? ==> s.list != []
    ensures Balanced(Apply(s, step))
  {
    hide Insert, Remove, IndexOfItem, Sorted, Distinct, ListInOrder;
    match step
    case AddTimer => NewTimerGoesLast(s, Item(s.nextId, s.pc.fd));
    case Active(fd) => if Live(s, fd) { ListOperations(s, s.usersTimer[fd]); }
    case Delete => if InList(s, s.pc.item) { ListOperations(s, s.pc.item); }
    case _ => hide InList, Live;
  }

  lemma KeepsTick(s: State, step: Step)
    requires ListInOrder(s) && TickSoFar(s) && Enabled(s, step)
    requires s.pc.TickCloseFd? || s.pc.TickCountDown? || s.pc.TickDrop? ==> s.list != []
    ensures TickSoFar(Apply(s, step))
  {
    assert Sorted(s.list);
    hide Sorted, ListInOrder, Live, InList, Refreshed, Reaped;
    if step.Fire? {
      FireReaps(s.pc.cur, s.pc.atStart, s.pc.fired, s.list);
    } else if step.StartTick? {
      NoneReaped(s.now, s.list);
    }
  }

  lemma NoneReaped(cur: int, list: seq<Entry<Item>>)
    requires Sorted(list)
    ensures Reaped(cur, list, [], list)
  {
  }

  lemma FireReaps(cur: int, atStart: seq<Entry<Item>>, fired: seq<Entry<Item>>, list: seq<Entry<Item>>)
    requires Reaped(cur, atStart, fired, list) && list != [] && list[0].expire <= cur
    ensures Reaped(cur, atStart, fired + [list[0]], list[1..])
  {
  }

  predicate ChangesList(step: Step) { step.AddTimer? || step.Active? || step.Delete? || step.TickDelete? }

  lemma ListStepKeepsLive(s: State, step: Step)
    requires ListInOrder(s) && LiveWhereUsed(s) && !s.stale && Enabled(s, step) && ChangesList(step)
    ensures LiveWhereUsed(Apply(s, step)) && !Apply(s, step).stale
  {
    hide Insert, Remove, IndexOfItem, Sorted, ListInOrder;
    var t := Apply(s, step);
    match step
    case AddTimer =>
      var item := Item(s.nextId, s.pc.fd);
      NewTimerGoesLast(s, item);
      assert t.list[|s.list|].item == item;
      assert forall i :: 0 <= i < |s.list| ==> t.list[i] == s.list[i];
    case Active(fd) =>
      ListOperations(s, s.usersTimer[fd]);
      SameItems(s, t, s.usersTimer[fd]);
    case Delete =>
      ListOperations(s, s.pc.item);
      OtherItems(s, t, s.pc.item);
    case TickDelete =>
      assert forall i :: 0 < i < |s.list| ==> t.list[i - 1] == s.list[i];
  }

  lemma KeepsLive(s: State, step: Step)
    requires ListInOrder(s) && LiveWhereUsed(s) && !s.stale && Enabled(s, step)
    ensures LiveWhereUsed(Apply(s, step)) && !Apply(s, step).stale
  {
    hide TimersLive, ClosingLive;
    if ChangesList(step) {
      ListStepKeepsLive(s, step);
    } else {
      OtherStepKeepsTimers(s, step);
      OtherStepKeepsClosing(s, step);
    }
  }

  lemma OtherStepKeepsTimers(s: State, step: Step)
    requires LiveWhereUsed(s) && !s.stale && Enabled(s, step) && !ChangesList(step)
    ensures TimersLive(Apply(s, step)) && !Apply(s, step).stale
  {
    hide Refreshed;
  }

  lemma OtherStepKeepsClosing(s: State, step: Step)
    requires LiveWhereUsed(s) && Enabled(s, step) && !ChangesList(step)
    ensures ClosingLive(Apply(s, step))
  {
    hide Refreshed;
  }

  lemma SameItems(s: State, t: State, item: Item)
    requires InList(s, item)
    requires var k := IndexOfItem(s.list, item);
             exists e: Entry<Item> :: e.item == item && t.list == s.list[..k] + s.list[k + 1..] + [e]
    ensures forall other :: InList(s, other) ==> InList(t, other)
  {
    var k := IndexOfItem(s.list, item);
    forall other | InList(s, other) ensures InList(t, other) {
      var i :| 0 <= i < |s.list| && s.list[i].item == other;
      var j := if i < k then i else if i == k then |t.list| - 1 else i - 1;
      assert t.list[j].item == other;
    }
  }

  lemma OtherItems(s: State, t: State, item: Item)
    requires InList(s, item)
    requires var k := IndexOfItem(s.list, item); t.list == s.list[..k] + s.list[k + 1..]
    ensures forall other :: InList(s, other) && other != item ==> InList(t, other)
  {
    hide IndexOfItem;
    var k := IndexOfItem(s.list, item);
    forall other | InList(s, other) && other != item ensures InList(t, other) {
      var i :| 0 <= i < |s.list| && s.list[i].item == other;
      assert t.list[if i < k then i else i - 1].item == other;
    }
  }

  lemma {:induction false} RunsKeepInv(run: seq<State>, n: nat)
    requires IsRun(run) && n < |run|
    ensures Inv(run[n])
  {
    if n == 0 {
      InitInv();
    } else {
      RunsKeepInv(run, n - 1);
      assert Next(run[n - 1], run[n]);
      hide IsRun, Inv, Next;
      NextKeepsInv(run[n - 1], run[n]);
    }
  }

  lemma InitInv()
    ensures Inv(INIT)
  {
  }

  lemma NextKeepsInv(s: State, t: State)
    requires Inv(s) && Next(s, t)
    ensures Inv(t)
  {
    hide Inv, Enabled, Apply;
    var step :| Enabled(s, step) && t == Apply(s, step);
    StepKeepsInv(s, step);
  }

  lemma StepKeepsInv(s: State, step: Step)
    requires Inv(s) && Enabled(s, step)
    ensures Inv(Apply(s, step))
  {
    hide Enabled, Apply, ListInOrder, Balanced, TickSoFar;
    KeepsLive(s, step);
    KeepsOrder(s, step);
    KeepsBalance(s, step);
    KeepsTick(s, step);
  }

  // ----- what the runs promise

  /** No stale timer. In every run, worker closes included, a descriptor that is registered or has an
      event pending has its timer in the list, and main has never used one that is not. */
  lemma NoStaleTimer(run: seq<State>, n: nat, fd: Fd)
    requires IsRun(run) && n < |run|
    requires fd in run[n].pending || (fd in run[n].registered && !Arriving(run[n].pc, fd))
    ensures !run[n].stale && Live(run[n], fd) && run[n].usersTimer[fd].fd == fd
  {
    hide IsRun, InList;
    RunsKeepInv(run, n);
  }

  /** Between main's operations, the list is longer than m_user_count by the workers' closes. */
  lemma TimersCounted(run: seq<State>, n: nat)
    requires IsRun(run) && n < |run| && (run[n].pc == Waiting || run[n].pc == InBatch)
    ensures |run[n].list| == run[n].userCount + run[n].workerCloses
  {
    hide IsRun;
    RunsKeepInv(run, n);
  }

  /** The list is always in order of last activity. */
  lemma ListIsByLastActivity(run: seq<State>, n: nat, i: nat, j: nat)
    requires IsRun(run) && n < |run| && i < j < |run[n].list|
    ensures var s := run[n];
            && s.list[i].item in s.lastUse && s.list[j].item in s.lastUse
            && s.lastUse[s.list[i].item] < s.lastUse[s.list[j].item]
            && s.list[i].expire <= s.list[j].expire
  {
    hide IsRun;
    RunsKeepInv(run, n);
  }

  /** Reaping is exact: when a tick ends, it has called back, once each and in list order, exactly the
      timers that had expired at its time, and only unexpired ones are left. */
  lemma TickReapsExactly(run: seq<State>, n: nat)
    requires IsRun(run) && n < |run| && Enabled(run[n], EndTick)
    ensures var s := run[n];
            var k := Expired(s.pc.atStart, s.pc.cur);
            && s.pc.fired == s.pc.atStart[..k] && s.list == s.pc.atStart[k..]
            && (forall i :: 0 <= i < |s.list| ==> s.pc.cur < s.list[i].expire)
  {
    hide IsRun, Inv;
    RunsKeepInv(run, n);
    EndedTick(run[n]);
  }

  lemma EndedTick(s: State)
    requires Inv(s) && Enabled(s, EndTick)
    ensures var k := Expired(s.pc.atStart, s.pc.cur);
            && s.pc.fired == s.pc.atStart[..k] && s.list == s.pc.atStart[k..] && Sorted(s.pc.atStart)
            && (forall i :: 0 <= i < |s.list| ==> s.pc.cur < s.list[i].expire)
  {
    hide LiveWhereUsed, Balanced;
    ExpiredIs(s.pc.atStart, s.pc.cur, |s.pc.fired|);
    assert s.list != [] ==> s.pc.atStart[|s.pc.fired|] == s.list[0];
  }
}
