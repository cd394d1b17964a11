/** Whose connection a timer closes. A worker's close_conn frees the descriptor and leaves the timer in
    the list; the descriptor may come back as another connection. */
module DescriptorReuse {
  import opened SortedTimers
  import opened EventLoop

  /** Every timer of the list is the current one of its descriptor. */
  predicate AllCurrent(s: State) {
    forall i :: 0 <= i < |s.list| ==>
      var item := s.list[i].item; item.fd in s.usersTimer && s.usersTimer[item.fd] == item
  }

  /** The timer whose descriptor main has closed, and which is about to leave the list. */
  predicate Leaving(s: State, item: Item) {
    ((s.pc.CountDown? || s.pc.DropTimer?) && s.pc.item == item)
    || ((s.pc.TickCountDown? || s.pc.TickDrop?) && s.list != [] && s.list[0].item == item)
  }

  predicate AllOpen(s: State) {
    && (forall i :: 0 <= i < |s.list| ==> s.list[i].item.fd in s.open || Leaving(s, s.list[i].item))
    && (s.pc.Registered? || s.pc.Counted? ==>
          s.pc.fd in s.open && forall i :: 0 <= i < |s.list| ==> s.list[i].item.fd != s.pc.fd)
  }

  ghost predicate QuietNext(s: State, t: State) {
    exists step: Step :: Enabled(s, step) && !step.WorkerRemoves? && t == Apply(s, step)
  }

  /** A run in which no worker closes a connection. */
  ghost predicate IsQuietRun(run: seq<State>) {
    run != [] && run[0] == INIT && forall i :: 0 <= i < |run| - 1 ==> QuietNext(run[i], run[i + 1])
  }

  lemma QuietIsRun(run: seq<State>)
    requires IsQuietRun(run)
    ensures IsRun(run)
  {
    forall i | 0 <= i < |run| - 1 ensures Next(run[i], run[i + 1]) {
      assert QuietNext(run[i], run[i + 1]);
    }
  }

  predicate Current(s: State) { AllCurrent(s) && AllOpen(s) }

  /** What a step leaves in the list: timers that were there, and a new one. */
  predicate ComesFrom(s: State, step: Step, item: Item)
    requires Enabled(s, step)
  {
    || (InList(s, item) && (step.Delete? ==> item != s.pc.item)
        && (step.TickDelete? ==> s.list != [] && item != s.list[0].item))
    || (step.AddTimer? && item == Item(s.nextId, s.pc.fd))
  }

  lemma ItemsAfter(s: State, step: Step)
    requires Inv(s) && Enabled(s, step)
    ensures forall i :: 0 <= i < |Apply(s, step).list| ==> ComesFrom(s, step, Apply(s, step).list[i].item)
  {
    hide Insert, Remove, IndexOfItem, LiveWhereUsed, Balanced, TickSoFar, ListInOrder;
    match step
    case AddTimer =>
      NewTimerGoesLast(s, Item(s.nextId, s.pc.fd));
      OldItems(s, s.list);
    case Active(fd) => if Live(s, fd) { ItemsRefreshed(s, fd); }
    case Delete =>
      DeletedIsInList(s);
      ItemsDeleted(s);
    case TickDelete =>
      ExpiredIsFirst(s);
      CutKeepsOrder(s, 0);
      OldItems(s, s.list);
    case _ => OldItems(s, s.list);
  }

  lemma OldItems(s: State, list: seq<Entry<Item>>)
    requires list == s.list
    ensures forall i :: 0 <= i < |list| ==> InList(s, list[i].item)
  {
  }

  lemma ExpiredIsFirst(s: State)
    requires Inv(s) && s.pc.TickDrop?
    ensures s.list != []
  {
  }

  lemma DeletedIsInList(s: State)
    requires Inv(s) && s.pc.DropTimer?
    ensures InList(s, s.pc.item)
  {
  }

  lemma ItemsRefreshed(s: State, fd: Fd)
    requires ListInOrder(s) && Enabled(s, Active(fd)) && Live(s, fd)
    ensures var t := Apply(s, Active(fd)); forall i :: 0 <= i < |t.list| ==> InList(s, t.list[i].item)
  {
    hide Insert, Remove, IndexOfItem, ListInOrder;
    var item := s.usersTimer[fd];
    ListOperations(s, item);
    var k := IndexOfItem(s.list, item);
    var t := Apply(s, Active(fd));
    forall i | 0 <= i < |t.list| ensures InList(s, t.list[i].item) {
      var j := if i < k then i else if i < |s.list| - 1 then i + 1 else k;
      assert s.list[j].item == t.list[i].item;
    }
  }

  lemma ItemsDeleted(s: State)
    requires ListInOrder(s) && Enabled(s, Delete) && InList(s, s.pc.item)
    ensures var t := Apply(s, Delete);
            forall i :: 0 <= i < |t.list| ==> InList(s, t.list[i].item) && t.list[i].item != s.pc.item
  {
    hide Insert, Remove, IndexOfItem, ListInOrder;
    ListOperations(s, s.pc.item);
    var k := IndexOfItem(s.list, s.pc.item);
    CutKeepsOrder(s, k);
    var t := Apply(s, Delete);
    forall i | 0 <= i < |t.list| ensures InList(s, t.list[i].item) && t.list[i].item != s.pc.item {
      var j := if i < k then i else i + 1;
      assert s.list[j].item == t.list[i].item;
    }
  }

  /** The timer main is closing is one of the list, or none. */
  lemma CloseKeepsOthersOpen(s: State, step: Step)
    requires Inv(s) && Current(s) && Enabled(s, step) && (step.Close? || step.TickClose?)
    ensures Current(Apply(s, step))
  {
    hide ListInOrder, Balanced, TickSoFar;
    var t := Apply(s, step);
    assert t.list == s.list && t.usersTimer == s.usersTimer;
    if step.Close? {
      var k :| 0 <= k < |s.list| && s.list[k].item == s.pc.item;
      assert s.usersTimer[s.pc.item.fd] == s.pc.item;
    }
  }

  lemma StepKeepsCurrent(s: State, step: Step)
    requires Inv(s) && Current(s) && Enabled(s, step) && !step.WorkerRemoves?
    ensures Current(Apply(s, step))
  {
    if step.Close? || step.TickClose? {
      CloseKeepsOthersOpen(s, step);
    } else if ChangesList(step) {
      ItemsAfter(s, step);
      ListStepKeepsCurrent(s, step);
    } else {
      hide Inv, Insert, Remove, Refreshed;
    }
  }

  lemma ListStepKeepsCurrent(s: State, step: Step)
    requires Current(s) && Enabled(s, step) && ChangesList(step)
    requires forall i :: 0 <= i < |Apply(s, step).list| ==> ComesFrom(s, step, Apply(s, step).list[i].item)
    ensures Current(Apply(s, step))
  {
    hide Insert, Remove, Refreshed, Live;
  }

  lemma {:induction false} QuietRunsStayCurrent(run: seq<State>, n: nat)
    requires IsQuietRun(run) && n < |run|
    ensures Current(run[n])
  {
    if n == 0 {
      assert run[0].list == [];
    } else {
      QuietRunsStayCurrent(run, n - 1);
      QuietIsRun(run);
      EventLoop.RunsKeepInv(run, n - 1);
      assert QuietNext(run[n - 1], run[n]);
      hide IsRun, Inv, Current, IsQuietRun, QuietNext;
      QuietNextKeepsCurrent(run[n - 1], run[n]);
    }
  }

  lemma QuietNextKeepsCurrent(s: State, t: State)
    requires Inv(s) && Current(s) && QuietNext(s, t)
    ensures Current(t)
  {
    hide Inv, Current, Enabled, Apply;
    var step: Step :| Enabled(s, step) && !step.WorkerRemoves? && t == Apply(s, step);
    StepKeepsCurrent(s, step);
  }

  /** As long as no worker closes a connection, every timer of the list, and so every timer that fires, is
      the current one of its descriptor. */
  lemma QuietRunsFireCurrent(run: seq<State>, n: nat)
    requires IsQuietRun(run) && n < |run|
    ensures AllCurrent(run[n])
    ensures Enabled(run[n], Fire) ==>
              var item := run[n].list[0].item; item.fd in run[n].usersTimer && run[n].usersTimer[item.fd] == item
  {
    hide IsQuietRun;
    QuietRunsStayCurrent(run, n);
  }

  // ----- with one such close, a timer can hit another connection

  ghost predicate Reached(s: State) { exists run :: IsRun(run) && run != [] && run[|run| - 1] == s }

  lemma ReachesNext(s: State, step: Step)
    requires Reached(s) && Enabled(s, step)
    ensures Reached(Apply(s, step))
  {
    var run :| IsRun(run) && run != [] && run[|run| - 1] == s;
    var u := Apply(s, step);
    assert Next(s, u);
    hide Apply, Enabled, IsRun, Next;
    RunGoesOn(run, u);
    assert (run + [u])[|run|] == u;
  }

  lemma RunGoesOn(run: seq<State>, u: State)
    requires IsRun(run) && run != [] && Next(run[|run| - 1], u)
    ensures IsRun(run + [u])
  {
    hide Next;
    var longer := run + [u];
    assert longer[0] == run[0] && longer[|run|] == u;
    forall i | 0 <= i < |longer| - 1 ensures Next(longer[i], longer[i + 1]) {
      assert longer[i] == run[i] && (i < |run| - 1 ==> longer[i + 1] == run[i + 1]);
    }
  }

  lemma StartReached()
    ensures Reached(INIT)
  {
    assert IsRun([INIT]);
  }

  /** A connection accepted in this batch. */
  lemma AcceptReached(s: State, fd: Fd) returns (t: State)
    requires Reached(s) && s.pc == InBatch && fd !in s.open && s.userCount < MAX_FD
    ensures var item := Item(s.nextId, fd);
            && Reached(t) && t.pc == InBatch && fd in t.open && t.pending == s.pending && t.now == s.now
            && t.list == Insert(s.list, Entry(item, s.now + TIMEOUT)) && t.usersTimer == s.usersTimer[fd := item]
            && t.nextId == s.nextId + 1 && t.userCount == s.userCount + 1
  {
    hide Reached, Insert;
    ReachesNext(s, Accept(fd));
    var t1 := Apply(s, Accept(fd));
    ReachesNext(t1, CountUp);
    var t2 := Apply(t1, CountUp);
    ReachesNext(t2, AddTimer);
    t := Apply(t2, AddTimer);
  }

  /** For every descriptor: its first connection is closed by a worker, another one accepted a second
      later, and a tick then closes that one, whose own timer has not expired. */
  lemma TimerHitsAnother(fd: Fd)
    ensures exists s :: Reached(s) && s.pc.TickCloseFd? && s.pc.cur == 15
              && s.pc.fired == [Entry(Item(0, fd), 15)] && fd in s.usersTimer && s.usersTimer[fd] == Item(1, fd)
              && s.list == [Entry(Item(0, fd), 15), Entry(Item(1, fd), 16)] && fd in s.open && fd !in s.registered
  {
    hide Reached;
    StartReached();
    ReachesNext(INIT, Wait({}));
    var s1 := AcceptReached(Apply(INIT, Wait({})), fd);
    assert s1.list == [Entry(Item(0, fd), 15)];
    ReachesNext(s1, WorkerRemoves(fd));
    var s2 := Apply(s1, WorkerRemoves(fd));
    ReachesNext(s2, Time(1));
    var s3 := Apply(s2, Time(1));
    var s4 := AcceptReached(s3, fd);
    InsertLatest(s3.list, Entry(Item(1, fd), 16));
    assert s4.list == [Entry(Item(0, fd), 15), Entry(Item(1, fd), 16)];
    ReachesNext(s4, Time(15));
    var s5 := Apply(s4, Time(15));
    ReachesNext(s5, StartTick);
    var s6 := Apply(s5, StartTick);
    ReachesNext(s6, Fire);
    var s7 := Apply(s6, Fire);
    assert s7.pc.fired == [Entry(Item(0, fd), 15)];
  }
}
