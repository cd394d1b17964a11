/** connection_pool and connectionRAII under every interleaving of any number of threads: the steps of
    GetConnection and ReleaseConnection between the emptiness test, semaphore and mutex. */
module ConnectionPool {
  import opened Wrappers
  import opened Counting

  type Conn = nat

  /** A thread's place in GetConnection, with the connection, or in ReleaseConnection. */
  datatype Pc =
    | Idle | Tested | Waited | InGet | Popped | FreeDown | CurUp | Holding | GotNull
    | Releasing | InRelease | Pushed | FreeUp | CurDown | Unlocked

  /** poppedEmpty turns true when front() or pop_front() meets an empty list. */
  datatype State = State(
    pcs: seq<Pc>, held: seq<Option<Conn>>, connList: seq<Conn>, reserve: nat, lock: Option<nat>,
    freeConn: int, curConn: int, poppedEmpty: bool)

  /** init() with these connections, and threads that have not asked yet. */
  function Init(threads: nat, conns: seq<Conn>): State {
    State(seq(threads, _ => Idle), Nothing(threads), conns, |conns|, None, |conns|, 0, false)
  }

  predicate WellFormed(s: State) { |s.pcs| == |s.held| }

  /** Thread t can move: only the semaphore and the mutex make it wait. */
  predicate Enabled(s: State, t: nat) {
    && t < |s.pcs|
    && (s.pcs[t] == Tested ==> s.reserve > 0)
    && (s.pcs[t] == Waited || s.pcs[t] == Releasing ==> s.lock == None)
  }

  function At(s: State, t: nat, pc: Pc): State
    requires t < |s.pcs|
  {
    s.(pcs := s.pcs[t := pc])
  }

  function Move(s: State, t: nat): State
    requires WellFormed(s) && Enabled(s, t)
  {
    match s.pcs[t]
    case Idle => if s.connList == [] then At(s, t, GotNull) else At(s, t, Tested)
    case Tested => At(s, t, Waited).(reserve := s.reserve - 1)
    case Waited => At(s, t, InGet).(lock := Some(t))
    case InGet =>
      if s.connList == [] then At(s, t, Popped).(poppedEmpty := true)
      else At(s, t, Popped).(held := s.held[t := Some(s.connList[0])], connList := s.connList[1..])
    case Popped => At(s, t, FreeDown).(freeConn := s.freeConn - 1)
    case FreeDown => At(s, t, CurUp).(curConn := s.curConn + 1)
    case CurUp => At(s, t, Holding).(lock := None)
    case Holding => At(s, t, Releasing)
    case GotNull => At(s, t, Idle)
    case Releasing => At(s, t, InRelease).(lock := Some(t))
    case InRelease =>
      if s.held[t] == None then At(s, t, Pushed)
      else At(s, t, Pushed).(connList := s.connList + [s.held[t].value], held := s.held[t := None])
    case Pushed => At(s, t, FreeUp).(freeConn := s.freeConn + 1)
    case FreeUp => At(s, t, CurDown).(curConn := s.curConn - 1)
    case CurDown => At(s, t, Unlocked).(lock := None)
    case Unlocked => At(s, t, Idle).(reserve := s.reserve + 1)
  }

  ghost predicate Next(s: State, u: State) {
    WellFormed(s) && exists t: nat :: Enabled(s, t) && u == Move(s, t)
  }

  ghost predicate IsRun(run: seq<State>, threads: nat, conns: seq<Conn>) {
    run != [] && run[0] == Init(threads, conns) && forall i :: 0 <= i < |run| - 1 ==> Next(run[i], run[i + 1])
  }

  // ----- the invariant

  predicate HasConn(pc: Pc) {
    pc.Popped? || pc.FreeDown? || pc.CurUp? || pc.Holding? || pc.Releasing? || pc.InRelease?
  }

  predicate InCritical(pc: Pc) {
    pc.InGet? || pc.Popped? || pc.FreeDown? || pc.CurUp? || pc.InRelease? || pc.Pushed? || pc.FreeUp? || pc.CurDown?
  }

  predicate BetweenWaitAndPop(pc: Pc) { pc.Waited? || pc.InGet? }

  predicate BetweenPushAndPost(pc: Pc) { pc.Pushed? || pc.FreeUp? || pc.CurDown? || pc.Unlocked? }

  /** What freeConn and curConn still lack, by the place of the thread that has the lock. */
  function FreeLag(pc: Pc): int { if pc == Popped then 1 else if pc == Pushed then -1 else 0 }

  function CurLag(pc: Pc): int {
    if pc == Popped || pc == FreeDown then -1 else if pc == Pushed || pc == FreeUp then 1 else 0
  }

  function Holder(s: State): Pc { if s.lock.Some? && s.lock.value < |s.pcs| then s.pcs[s.lock.value] else Idle }

  predicate Accounted(s: State) {
    |s.connList| == s.reserve + Count(s.pcs, BetweenWaitAndPop) + Count(s.pcs, BetweenPushAndPost)
  }

  predicate Conserved(s: State, conns: seq<Conn>) {
    multiset(s.connList) + Held(s.held) == multiset(conns)
  }

  predicate Local(pc: Pc, held: Option<Conn>, mine: bool) {
    (InCritical(pc) <==> mine) && (HasConn(pc) <==> held.Some?)
  }

  predicate Exclusive(s: State) {
    && WellFormed(s)
    && (forall t :: 0 <= t < |s.pcs| ==> Local(s.pcs[t], s.held[t], s.lock == Some(t)))
    && (s.lock.Some? ==> s.lock.value < |s.pcs|)
  }

  predicate Counted(s: State, max: int) {
    && s.freeConn == |s.connList| + FreeLag(Holder(s))
    && s.curConn == max - |s.connList| + CurLag(Holder(s))
  }

  predicate Inv(s: State, conns: seq<Conn>) {
    Exclusive(s) && Accounted(s) && Conserved(s, conns) && Counted(s, |conns|) && !s.poppedEmpty
  }

  // ----- every step keeps the invariant

  /** A step touches one thread, and moves the lock only to or from it. */
  lemma MoveIsLocal(s: State, t: nat)
    requires Exclusive(s) && Enabled(s, t) && !Move(s, t).poppedEmpty
    ensures var u := Move(s, t);
            && |u.pcs| == |u.held| == |s.pcs| && u.pcs == s.pcs[t := u.pcs[t]] && u.held == s.held[t := u.held[t]]
            && (u.lock == s.lock || (s.lock == None && u.lock == Some(t)) || (s.lock == Some(t) && u.lock == None))
            && Local(u.pcs[t], u.held[t], u.lock == Some(t))
  {
    assert Local(s.pcs[t], s.held[t], s.lock == Some(t));
    assert s.pcs[t := s.pcs[t]] == s.pcs && s.held[t := s.held[t]] == s.held;
  }

  lemma KeepsExclusive(s: State, t: nat)
    requires Exclusive(s) && Enabled(s, t) && !Move(s, t).poppedEmpty
    ensures Exclusive(Move(s, t))
  {
    hide Move, Local;
    MoveIsLocal(s, t);
    var u := Move(s, t);
    assert forall o :: 0 <= o < |s.pcs| && o != t ==> u.pcs[o] == s.pcs[o] && u.held[o] == s.held[o];
  }

  lemma KeepsAccount(s: State, t: nat)
    requires Exclusive(s) && Accounted(s) && Enabled(s, t)
    ensures Accounted(Move(s, t)) && (s.pcs[t] == InGet ==> s.connList != [])
  {
    hide Count;
    var u := Move(s, t);
    CountUpdate(s.pcs, t, u.pcs[t], BetweenWaitAndPop);
    CountUpdate(s.pcs, t, u.pcs[t], BetweenPushAndPost);
    assert Local(s.pcs[t], s.held[t], s.lock == Some(t));
    if s.pcs[t] == InGet { CountPositive(s.pcs, t, BetweenWaitAndPop); }
  }

  lemma KeepsConns(s: State, t: nat, conns: seq<Conn>)
    requires Exclusive(s) && Conserved(s, conns) && Enabled(s, t)
    ensures Conserved(Move(s, t), conns)
  {
    hide Held;
    var u := Move(s, t);
    assert Local(s.pcs[t], s.held[t], s.lock == Some(t));
    if s.pcs[t] == InGet && s.connList != [] {
      TakenFromList(s, t, conns);
    } else if s.pcs[t] == InRelease {
      ReturnedToList(s, t, conns);
    }
  }

  lemma TakenFromList(s: State, t: nat, conns: seq<Conn>)
    requires Conserved(s, conns) && t < |s.held| && s.held[t] == None && s.connList != []
    ensures multiset(s.connList[1..]) + Held(s.held[t := Some(s.connList[0])]) == multiset(conns)
  {
    hide Held;
    var c := s.connList[0];
    assert s.connList == [c] + s.connList[1..];
    var after := multiset(s.connList[1..]) + Held(s.held[t := Some(c)]);
    forall x ensures after[x] == multiset(conns)[x] {
      HeldUpdate(s.held, t, Some(c), x);
      assert (multiset(s.connList) + Held(s.held))[x] == multiset(conns)[x];
    }
  }

  lemma ReturnedToList(s: State, t: nat, conns: seq<Conn>)
    requires Conserved(s, conns) && t < |s.held| && s.held[t].Some?
    ensures multiset(s.connList + [s.held[t].value]) + Held(s.held[t := None]) == multiset(conns)
  {
    hide Held;
    var after := multiset(s.connList + [s.held[t].value]) + Held(s.held[t := None]);
    forall x ensures after[x] == multiset(conns)[x] {
      HeldUpdate(s.held, t, None, x);
      assert (multiset(s.connList) + Held(s.held))[x] == multiset(conns)[x];
    }
  }

  lemma KeepsCounters(s: State, t: nat, max: int)
    requires Exclusive(s) && Counted(s, max) && Enabled(s, t) && (s.pcs[t] == InGet ==> s.connList != [])
    ensures Counted(Move(s, t), max)
  {
    assert Local(s.pcs[t], s.held[t], s.lock == Some(t));
  }

  lemma StepKeepsInv(s: State, t: nat, conns: seq<Conn>)
    requires Inv(s, conns) && Enabled(s, t)
    ensures Inv(Move(s, t), conns)
  {
    hide Conserved, Accounted;
    KeepsAccount(s, t);
    KeepsExclusive(s, t);
    KeepsConns(s, t, conns);
    KeepsCounters(s, t, |conns|);
  }

  lemma InitInv(threads: nat, conns: seq<Conn>)
    ensures Inv(Init(threads, conns), conns)
  {
    NoneHeld<Conn>(threads);
    var s := Init(threads, conns);
    CountNone(s.pcs, BetweenWaitAndPop);
    CountNone(s.pcs, BetweenPushAndPost);
  }

  lemma {:induction false} RunsKeepInv(run: seq<State>, threads: nat, conns: seq<Conn>, n: nat)
    requires IsRun(run, threads, conns) && n < |run|
    ensures Inv(run[n], conns) && |run[n].pcs| == threads
  {
    if n == 0 {
      InitInv(threads, conns);
    } else {
      hide Exclusive, Accounted, Conserved, Counted;
      RunsKeepInv(run, threads, conns, n - 1);
      assert Next(run[n - 1], run[n]);
      var t: nat :| Enabled(run[n - 1], t) && run[n] == Move(run[n - 1], t);
      StepKeepsInv(run[n - 1], t, conns);
    }
  }

  // ----- what the runs promise

  /** Pool safety: the list never runs empty under a thread that has passed the semaphore; the list and
      the threads hold exactly the initial connections; with the lock free, the counters are right. */
  lemma PoolIsSafe(run: seq<State>, threads: nat, conns: seq<Conn>, n: nat)
    requires IsRun(run, threads, conns) && n < |run|
    ensures var s := run[n];
            && !s.poppedEmpty
            && |s.connList| == s.reserve + Count(s.pcs, BetweenWaitAndPop) + Count(s.pcs, BetweenPushAndPost)
            && multiset(s.connList) + Held(s.held) == multiset(conns)
            && (s.lock == None ==> s.freeConn == |s.connList| && s.freeConn + s.curConn == |conns|)
  {
    hide IsRun;
    RunsKeepInv(run, threads, conns, n);
  }

  /** No connection is ever held by two threads, nor held and free at once. */
  lemma HeldByOne(run: seq<State>, threads: nat, conns: seq<Conn>, n: nat, i: nat, j: nat)
    requires IsRun(run, threads, conns) && n < |run|
    requires forall a, b :: 0 <= a < b < |conns| ==> conns[a] != conns[b]
    requires i < |run[n].held| && run[n].held[i].Some?
    ensures j < |run[n].held| && i != j ==> run[n].held[i] != run[n].held[j]
    ensures run[n].held[i].value !in run[n].connList
  {
    hide IsRun;
    RunsKeepInv(run, threads, conns, n);
    var s := run[n];
    var c := s.held[i].value;
    DistinctOnce(conns, c);
    HeldOnce(s.held, i);
    assert multiset(s.connList)[c] + Held(s.held)[c] == multiset(conns)[c];
    if j < |s.held| && i != j && s.held[i] == s.held[j] {
      HeldTwice(s.held, if i < j then i else j, if i < j then j else i);
    }
    assert c in s.connList ==> multiset(s.connList)[c] >= 1;
  }

  lemma {:induction false} DistinctOnce(conns: seq<Conn>, c: Conn)
    requires forall a, b :: 0 <= a < b < |conns| ==> conns[a] != conns[b]
    ensures multiset(conns)[c] <= 1
  {
    if conns == [] {
    } else {
      assert conns == [conns[0]] + conns[1..];
      DistinctOnce(conns[1..], c);
      if c == conns[0] { assert c !in conns[1..]; }
    }
  }

  /** With at least as many connections as threads, each holding at most one, the unlocked test never
      sees an empty list: no step of any run answers NULL. */
  lemma NeverNull(run: seq<State>, threads: nat, conns: seq<Conn>, n: nat, t: nat)
    requires IsRun(run, threads, conns) && n < |run| && threads <= |conns|
    requires WellFormed(run[n]) && t < |run[n].pcs| && run[n].pcs[t] == Idle
    ensures run[n].connList != [] && Move(run[n], t).pcs[t] == Tested
  {
    hide IsRun;
    RunsKeepInv(run, threads, conns, n);
    var s := run[n];
    assert Local(s.pcs[t], s.held[t], s.lock == Some(t));
    HeldFewer(s.held, t);
    assert |multiset(s.connList)| + |Held(s.held)| == |multiset(conns)|;
  }

  // ----- with more threads than connections a thread does get NULL

  predicate NobodyGotNull(s: State) { GotNull !in s.pcs }

  lemma {:induction false} NeverGotNull(run: seq<State>, threads: nat, conns: seq<Conn>, n: nat)
    requires IsRun(run, threads, conns) && n < |run| && threads <= |conns|
    ensures NobodyGotNull(run[n])
  {
    if n == 0 {
    } else {
      NeverGotNull(run, threads, conns, n - 1);
      assert Next(run[n - 1], run[n]);
      hide IsRun, Next, NobodyGotNull, TestsFindConns;
      TestsFind(run, threads, conns, n - 1);
      NextFindsNoNull(run[n - 1], run[n]);
    }
  }

  predicate TestsFindConns(s: State) { WellFormed(s) && (Idle in s.pcs ==> s.connList != []) }

  lemma TestsFind(run: seq<State>, threads: nat, conns: seq<Conn>, n: nat)
    requires IsRun(run, threads, conns) && n < |run| && threads <= |conns| && WellFormed(run[n])
    ensures TestsFindConns(run[n])
  {
    hide IsRun, Move;
    if Idle in run[n].pcs {
      var t: nat :| t < |run[n].pcs| && run[n].pcs[t] == Idle;
      NeverNull(run, threads, conns, n, t);
    }
  }

  lemma NextFindsNoNull(s: State, u: State)
    requires Next(s, u) && NobodyGotNull(s) && TestsFindConns(s)
    ensures NobodyGotNull(u)
  {
    hide NobodyGotNull, Move, Enabled;
    var t: nat :| Enabled(s, t) && u == Move(s, t);
    IdleIsThere(s, t);
    OnlyTestFindsNull(s, t);
  }

  lemma IdleIsThere(s: State, t: nat)
    requires Enabled(s, t)
    ensures s.pcs[t] == Idle ==> Idle in s.pcs
  {
  }

  lemma OnlyTestFindsNull(s: State, t: nat)
    requires WellFormed(s) && Enabled(s, t) && NobodyGotNull(s)
    requires s.pcs[t] == Idle ==> s.connList != []
    ensures NobodyGotNull(Move(s, t))
  {
    assert Move(s, t).pcs[t] != GotNull;
    assert forall o :: 0 <= o < |s.pcs| && o != t ==> Move(s, t).pcs[o] == s.pcs[o];
  }

  ghost predicate Reached(s: State, threads: nat, conns: seq<Conn>) {
    exists run :: IsRun(run, threads, conns) && run != [] && run[|run| - 1] == s
  }

  lemma ReachesNext(s: State, t: nat, threads: nat, conns: seq<Conn>)
    requires Reached(s, threads, conns) && WellFormed(s) && Enabled(s, t)
    ensures Reached(Move(s, t), threads, conns)
  {
    var run :| IsRun(run, threads, conns) && run != [] && run[|run| - 1] == s;
    var u := Move(s, t);
    assert Next(s, u);
    hide Move, Enabled, WellFormed, IsRun, Next;
    RunGoesOn(run, u, threads, conns);
    assert (run + [u])[|run|] == u;
  }

  lemma RunGoesOn(run: seq<State>, u: State, threads: nat, conns: seq<Conn>)
    requires IsRun(run, threads, conns) && run != [] && Next(run[|run| - 1], u)
    ensures IsRun(run + [u], threads, conns)
  {
    hide Next, Init;
    var longer := run + [u];
    assert longer[0] == run[0] && longer[|run|] == u;
    forall i | 0 <= i < |longer| - 1 ensures Next(longer[i], longer[i + 1]) {
      assert longer[i] == run[i] && (i < |run| - 1 ==> longer[i + 1] == run[i + 1]);
    }
  }

  /** The first n threads hold the first n connections, the others have not asked. */
  function Drained(threads: nat, conns: seq<Conn>, n: nat): State
    requires n <= |conns|
  {
    State(seq(threads, i => if i < n then Holding else Idle),
          seq(threads, i requires 0 <= i < threads => if i < n && i < |conns| then Some(conns[i]) else None),
          conns[n..], |conns| - n, None, |conns| - n, n, false)
  }

  lemma {:induction false} Drains(threads: nat, conns: seq<Conn>, n: nat)
    requires n <= |conns| && n <= threads
    ensures Reached(Drained(threads, conns, n), threads, conns)
  {
    if n == 0 {
      assert Drained(threads, conns, 0) == Init(threads, conns);
      assert IsRun([Init(threads, conns)], threads, conns);
    } else {
      Drains(threads, conns, n - 1);
      OneMoreHeld(threads, conns, n - 1);
    }
  }

  lemma OneMoreHeld(threads: nat, conns: seq<Conn>, n: nat)
    requires n < |conns| && n < threads && Reached(Drained(threads, conns, n), threads, conns)
    ensures Reached(Drained(threads, conns, n + 1), threads, conns)
  {
    hide Reached;
    var s0 := Drained(threads, conns, n);
    ReachesNext(s0, n, threads, conns);
    var s1 := s0.(pcs := s0.pcs[n := Tested]);
    assert s1 == Move(s0, n);
    ReachesNext(s1, n, threads, conns);
    var s2 := s0.(pcs := s0.pcs[n := Waited], reserve := s0.reserve - 1);
    assert s2 == Move(s1, n);
    ReachesNext(s2, n, threads, conns);
    var s3 := s2.(pcs := s0.pcs[n := InGet], lock := Some(n));
    assert s3 == Move(s2, n);
    ReachesNext(s3, n, threads, conns);
    var s4 := s3.(pcs := s0.pcs[n := Popped], held := s0.held[n := Some(conns[n])], connList := conns[n + 1..]);
    assert s4 == Move(s3, n);
    ReachesNext(s4, n, threads, conns);
    var s5 := s4.(pcs := s0.pcs[n := FreeDown], freeConn := s0.freeConn - 1);
    assert s5 == Move(s4, n);
    ReachesNext(s5, n, threads, conns);
    var s6 := s5.(pcs := s0.pcs[n := CurUp], curConn := n + 1);
    assert s6 == Move(s5, n);
    ReachesNext(s6, n, threads, conns);
    var s7 := s6.(pcs := s0.pcs[n := Holding], lock := None);
    assert s7 == Move(s6, n);
    assert s7 == Drained(threads, conns, n + 1);
  }

  /** Some run answers NULL exactly if there are more threads than connections. */
  lemma NullExactly(threads: nat, conns: seq<Conn>)
    ensures (exists run: seq<State>, n: nat :: IsRun(run, threads, conns) && n < |run| && GotNull in run[n].pcs)
       <==> threads > |conns|
  {
    hide IsRun;
    if threads > |conns| {
      Drains(threads, conns, |conns|);
      var s := Drained(threads, conns, |conns|);
      ReachesNext(s, |conns|, threads, conns);
      var u := Move(s, |conns|);
      assert u.pcs[|conns|] == GotNull;
      var run: seq<State> :| IsRun(run, threads, conns) && run != [] && run[|run| - 1] == u;
      assert GotNull in run[|run| - 1].pcs;
    } else {
      forall run: seq<State>, n: nat | IsRun(run, threads, conns) && n < |run| ensures GotNull !in run[n].pcs {
        NeverGotNull(run, threads, conns, n);
      }
    }
  }
}
