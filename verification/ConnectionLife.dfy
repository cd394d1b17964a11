/** What main's sequences of steps come to: a connection accepted, hung up on, or reaped by tick. */
module ConnectionLife {
  import opened SortedTimers
  import opened EventLoop

  /** Accepting: the descriptor is open and registered, counted, and its new timer is the last of the list,
      15 seconds ahead. */
  lemma AcceptCompletes(s: State, fd: Fd) returns (t: State)
    requires Inv(s) && s.pc == InBatch && fd !in s.open && s.userCount < 65536
    ensures Enabled(s, Accept(fd))
    ensures var s1 := Apply(s, Accept(fd));
            && Enabled(s1, CountUp) && Enabled(Apply(s1, CountUp), AddTimer) && t == Apply(Apply(s1, CountUp), AddTimer)
    ensures var item := Item(s.nextId, fd);
            t == s.(open := s.open + {fd}, registered := s.registered + {fd}, userCount := s.userCount + 1,
                    usersTimer := s.usersTimer[fd := item], list := s.list + [Entry(item, s.now + 15)],
                    nextId := s.nextId + 1, lastUse := s.lastUse[item := s.uses], uses := s.uses + 1)
  {
    hide Insert, LiveWhereUsed, Balanced, TickSoFar, ListInOrder;
    NewTimerGoesLast(s, Item(s.nextId, fd));
    t := Apply(Apply(Apply(s, Accept(fd)), CountUp), AddTimer);
  }

  /** Hanging up: the descriptor is closed, not registered and not counted, and exactly its timer has left
      the list. */
  lemma HangupCompletes(s: State, fd: Fd) returns (t: State, k: nat)
    requires Inv(s) && Enabled(s, Hangup(fd))
    ensures var s1 := Apply(s, Hangup(fd));
            && Enabled(s1, Close)
            && var s2 := Apply(s1, Close);
               && Enabled(s2, Decrement) && Enabled(Apply(s2, Decrement), Delete)
               && t == Apply(Apply(s2, Decrement), Delete)
    ensures k < |s.list| && fd in s.usersTimer && s.list[k].item == s.usersTimer[fd]
    ensures t == s.(pending := s.pending - {fd}, open := s.open - {fd}, registered := s.registered - {fd},
                    userCount := s.userCount - 1, list := s.list[..k] + s.list[k + 1..])
  {
    hide Insert, Remove, IndexOfItem, Balanced, TickSoFar, ListInOrder;
    ListOperations(s, s.usersTimer[fd]);
    k := IndexOfItem(s.list, s.usersTimer[fd]);
    t := Apply(Apply(Apply(Apply(s, Hangup(fd)), Close), Decrement), Delete);
  }

  /** Reaping one timer: the descriptor it was made for is closed, not registered and not counted, and the
      timer has left the list. */
  lemma ReapCompletes(s: State) returns (t: State)
    requires Inv(s) && Enabled(s, Fire)
    ensures var s1 := Apply(s, Fire);
            && Enabled(s1, TickClose)
            && var s2 := Apply(s1, TickClose);
               && Enabled(s2, TickDecrement) && Enabled(Apply(s2, TickDecrement), TickDelete)
               && t == Apply(Apply(s2, TickDecrement), TickDelete)
    ensures var fd := s.list[0].item.fd;
            t == s.(pc := Ticking(s.pc.cur, s.pc.atStart, s.pc.fired + [s.list[0]]),
                    open := s.open - {fd}, registered := s.registered - {fd}, userCount := s.userCount - 1,
                    list := s.list[1..])
  {
    hide Inv;
    t := Apply(Apply(Apply(Apply(s, Fire), TickClose), TickDecrement), TickDelete);
  }

  /** Traffic: exactly the descriptor's timer moves to the end, and expires 15 seconds from now. */
  lemma TrafficCompletes(s: State, fd: Fd) returns (k: nat)
    requires Inv(s) && Enabled(s, Active(fd))
    ensures k < |s.list| && fd in s.usersTimer && s.list[k].item == s.usersTimer[fd]
    ensures var item := s.usersTimer[fd];
            Apply(s, Active(fd))
            == s.(pending := s.pending - {fd}, list := s.list[..k] + s.list[k + 1..] + [Entry(item, s.now + 15)],
                  lastUse := s.lastUse[item := s.uses], uses := s.uses + 1)
  {
    hide Insert, Remove, IndexOfItem, Balanced, TickSoFar, ListInOrder;
    ListOperations(s, s.usersTimer[fd]);
    k := IndexOfItem(s.list, s.usersTimer[fd]);
  }
}
