/** In which order the connection pool hands its connections out, told from the steps taken. */
module PoolHistory {
  import opened ConnectionPool
  import opened Counting
  import opened Wrappers

  /** The state behind a list of steps, each named by its thread, if all can be taken. */
  function After(threads: nat, conns: seq<Conn>, steps: seq<nat>): Option<State> {
    if steps == [] then Some(Init(threads, conns))
    else
      var before := After(threads, conns, steps[..|steps| - 1]);
      var t := steps[|steps| - 1];
      if before.Some? && WellFormed(before.value) && Enabled(before.value, t) then Some(Move(before.value, t)) else None
  }

  function TakenBy(s: State, t: nat): seq<Conn>
    requires WellFormed(s) && Enabled(s, t)
  {
    if s.pcs[t] == InGet && Move(s, t).held[t].Some? then [Move(s, t).held[t].value] else []
  }

  function ReturnedBy(s: State, t: nat): seq<Conn>
    requires WellFormed(s) && Enabled(s, t)
  {
    if s.pcs[t] == InRelease && s.held[t].Some? then [s.held[t].value] else []
  }

  /** The connections that threads got, in order. */
  function Taken(threads: nat, conns: seq<Conn>, steps: seq<nat>): seq<Conn>
    requires After(threads, conns, steps).Some?
  {
    if steps == [] then []
    else
      var front, t := steps[..|steps| - 1], steps[|steps| - 1];
      Taken(threads, conns, front) + TakenBy(After(threads, conns, front).value, t)
  }

  /** The connections that threads gave back, in order. */
  function Returned(threads: nat, conns: seq<Conn>, steps: seq<nat>): seq<Conn>
    requires After(threads, conns, steps).Some?
  {
    if steps == [] then []
    else
      var front, t := steps[..|steps| - 1], steps[|steps| - 1];
      Returned(threads, conns, front) + ReturnedBy(After(threads, conns, front).value, t)
  }

  lemma StepInOrder(s: State, t: nat, came: seq<Conn>, went: seq<Conn>)
    requires Exclusive(s) && Enabled(s, t) && came == went + s.connList && (s.pcs[t] == InGet ==> s.connList != [])
    ensures came + ReturnedBy(s, t) == went + TakenBy(s, t) + Move(s, t).connList
  {
    assert Local(s.pcs[t], s.held[t], s.lock == Some(t));
    assert came + [] == came && went + [] == went;
    if s.pcs[t] == InGet {
      assert s.connList == [s.connList[0]] + s.connList[1..];
      assert TakenBy(s, t) == [s.connList[0]];
    }
  }

  lemma {:induction false} AfterKeepsInv(threads: nat, conns: seq<Conn>, steps: seq<nat>)
    requires After(threads, conns, steps).Some?
    ensures Inv(After(threads, conns, steps).value, conns)
  {
    hide Inv, Move, Enabled, WellFormed;
    if steps == [] {
      InitInv(threads, conns);
    } else {
      AfterKeepsInv(threads, conns, steps[..|steps| - 1]);
      StepKeepsInv(After(threads, conns, steps[..|steps| - 1]).value, steps[|steps| - 1], conns);
    }
  }

  lemma InvGives(s: State, t: nat, conns: seq<Conn>)
    requires Inv(s, conns) && Enabled(s, t)
    ensures Exclusive(s) && (s.pcs[t] == InGet ==> s.connList != [])
  {
    hide Conserved, Counted;
    KeepsAccount(s, t);
  }

  /** First in, first out, in every run: the initial connections, and behind them those given back, are the
      ones handed out, in that order, and behind them those in the list. */
  lemma {:induction false} HandedOutInOrder(threads: nat, conns: seq<Conn>, steps: seq<nat>)
    requires After(threads, conns, steps).Some?
    ensures conns + Returned(threads, conns, steps)
            == Taken(threads, conns, steps) + After(threads, conns, steps).value.connList
  {
    hide Inv, Move, Enabled, TakenBy, ReturnedBy, WellFormed, Exclusive;
    if steps == [] {
      assert conns + [] == conns && [] + conns == conns;
    } else {
      var front, t := steps[..|steps| - 1], steps[|steps| - 1];
      var s := After(threads, conns, front).value;
      HandedOutInOrder(threads, conns, front);
      AfterKeepsInv(threads, conns, front);
      InvGives(s, t, conns);
      StepInOrder(s, t, conns + Returned(threads, conns, front), Taken(threads, conns, front));
      assert conns + (Returned(threads, conns, front) + ReturnedBy(s, t))
          == conns + Returned(threads, conns, front) + ReturnedBy(s, t);
    }
  }

  // ----- a thread alone gets through

  /** n steps of thread t alone. */
  function Alone(s: State, t: nat, n: nat): Option<State>
    decreases n
  {
    if n == 0 then Some(s)
    else if WellFormed(s) && Enabled(s, t) then Alone(Move(s, t), t, n - 1)
    else None
  }

  lemma OneStep(s: State, t: nat, n: nat, u: State)
    requires WellFormed(s) && Enabled(s, t) && u == Move(s, t)
    ensures Alone(s, t, n + 1) == Alone(u, t, n)
  {
    hide Move;
  }

  lemma NoStep(s: State, t: nat)
    ensures Alone(s, t, 0) == Some(s)
  {
  }

  /** With a free connection, GetConnection gives the first one. */
  lemma GetRound(s: State, t: nat)
    requires WellFormed(s) && t < |s.pcs| && s.pcs[t] == Idle && s.connList != [] && s.reserve > 0 && s.lock == None
    ensures Alone(s, t, 7)
         == Some(s.(pcs := s.pcs[t := Holding], held := s.held[t := Some(s.connList[0])], connList := s.connList[1..],
                    reserve := s.reserve - 1, freeConn := s.freeConn - 1, curConn := s.curConn + 1))
  {
    hide Alone;
    var s1 := s.(pcs := s.pcs[t := Tested]);
    var s2 := s.(pcs := s.pcs[t := Waited], reserve := s.reserve - 1);
    var s3 := s2.(pcs := s.pcs[t := InGet], lock := Some(t));
    var s4 := s3.(pcs := s.pcs[t := Popped], held := s.held[t := Some(s.connList[0])], connList := s.connList[1..]);
    OneStep(s, t, 6, s1);
    OneStep(s1, t, 5, s2);
    OneStep(s2, t, 4, s3);
    OneStep(s3, t, 3, s4);
    hide Move;
    CountOut(s4, t);
    assert s4.pcs[t := Holding] == s.pcs[t := Holding];
  }

  lemma CountOut(s: State, t: nat)
    requires WellFormed(s) && t < |s.pcs| && s.pcs[t] == Popped
    ensures Alone(s, t, 3)
         == Some(s.(pcs := s.pcs[t := Holding], lock := None, freeConn := s.freeConn - 1, curConn := s.curConn + 1))
  {
    hide Alone;
    var s5 := s.(pcs := s.pcs[t := FreeDown], freeConn := s.freeConn - 1);
    var s6 := s5.(pcs := s.pcs[t := CurUp], curConn := s.curConn + 1);
    var s7 := s6.(pcs := s.pcs[t := Holding], lock := None);
    OneStep(s, t, 2, s5);
    OneStep(s5, t, 1, s6);
    OneStep(s6, t, 0, s7);
    NoStep(s7, t);
  }

  /** ReleaseConnection puts it behind the free ones. */
  lemma ReleaseRound(s: State, t: nat)
    requires WellFormed(s) && t < |s.pcs| && s.pcs[t] == Holding && s.held[t].Some? && s.lock == None
    ensures Alone(s, t, 7)
         == Some(s.(pcs := s.pcs[t := Idle], held := s.held[t := None], connList := s.connList + [s.held[t].value],
                    reserve := s.reserve + 1, freeConn := s.freeConn + 1, curConn := s.curConn - 1))
  {
    hide Alone;
    var s1 := s.(pcs := s.pcs[t := Releasing]);
    var s2 := s1.(pcs := s.pcs[t := InRelease], lock := Some(t));
    var s3 := s2.(pcs := s.pcs[t := Pushed], held := s.held[t := None], connList := s.connList + [s.held[t].value]);
    OneStep(s, t, 6, s1);
    OneStep(s1, t, 5, s2);
    OneStep(s2, t, 4, s3);
    hide Move;
    CountBack(s3, t);
    assert s3.pcs[t := Idle] == s.pcs[t := Idle];
  }

  lemma CountBack(s: State, t: nat)
    requires WellFormed(s) && t < |s.pcs| && s.pcs[t] == Pushed
    ensures Alone(s, t, 4)
         == Some(s.(pcs := s.pcs[t := Idle], lock := None, reserve := s.reserve + 1, freeConn := s.freeConn + 1,
                    curConn := s.curConn - 1))
  {
    hide Alone;
    var s4 := s.(pcs := s.pcs[t := FreeUp], freeConn := s.freeConn + 1);
    var s5 := s4.(pcs := s.pcs[t := CurDown], curConn := s.curConn - 1);
    var s6 := s5.(pcs := s.pcs[t := Unlocked], lock := None);
    var s7 := s6.(pcs := s.pcs[t := Idle], reserve := s.reserve + 1);
    OneStep(s, t, 3, s4);
    OneStep(s4, t, 2, s5);
    OneStep(s5, t, 1, s6);
    OneStep(s6, t, 0, s7);
    NoStep(s7, t);
  }
}
