/** sort_timer_lst: the doubly linked list of timers, rewired in place. */
module TimerList {
  import opened SortedTimers

  class Timer {
    var expire: int
    const sockfd: int
    var prev: Timer?
    var next: Timer?

    constructor (expire: int, sockfd: int)
      ensures this.expire == expire && this.sockfd == sockfd && prev == null && next == null
    {
      this.expire, this.sockfd := expire, sockfd;
      prev, next := null, null;
    }
  }

  function EntryOf(timer: Timer): Entry<Timer>
    reads timer
  {
    Entry(timer, timer.expire)
  }

  class TimerList {
    var head: Timer?
    var tail: Timer?
    ghost var nodes: seq<Timer>

    /** head, tail, prev and next agree on the order of nodes. Of an empty list only head is null; tail
        may still lead to a timer deleted by tick. */
    ghost predicate Linked()
      reads this, nodes
    {
      && (forall i, j :: 0 <= i < j < |nodes| ==> nodes[i] != nodes[j])
      && (if nodes == [] then head == null
          else head == nodes[0] && tail == nodes[|nodes| - 1])
      && (forall i {:trigger nodes[i].prev} :: 0 <= i < |nodes| ==>
            nodes[i].prev == if i == 0 then null else nodes[i - 1])
      && (forall i {:trigger nodes[i].next} :: 0 <= i < |nodes| ==>
            nodes[i].next == if i == |nodes| - 1 then null else nodes[i + 1])
    }

    ghost predicate Valid()
      reads this, nodes
    {
      Linked() && Sorted(View())
    }

    /** The list as a value. */
    ghost function View(): (v: seq<Entry<Timer>>)
      reads this, nodes
      ensures |v| == |nodes|
      ensures forall i {:trigger v[i]} :: 0 <= i < |v| ==> v[i] == Entry(nodes[i], nodes[i].expire)
    {
      seq(|nodes|, i requires 0 <= i < |nodes| reads this, nodes => Entry(nodes[i], nodes[i].expire))
    }

    constructor ()
      ensures Valid() && nodes == []
    {
      head, tail, nodes := null, null, [];
    }

    /** Wires timer in behind nodes[k]. */
    method Hook(timer: Timer, prev: Timer, ghost k: nat)
      requires Linked() && timer !in nodes && k < |nodes| && nodes[k] == prev
      modifies this`tail, this`nodes, nodes`next, nodes`prev, timer`prev, timer`next
      ensures Linked() && nodes == old(nodes)[..k + 1] + [timer] + old(nodes)[k + 1..]
    {
      var tmp := prev.next;
      prev.next := timer;
      timer.next := tmp;
      timer.prev := prev;
      if tmp != null { tmp.prev := timer; } else { tail := timer; }
      nodes := nodes[..k + 1] + [timer] + nodes[k + 1..];
    }

    /** The private add_timer: from start on, find the first later timer and go in before it. */
    method AddFrom(timer: Timer, start: Timer, ghost k: nat)
      requires Valid() && timer !in nodes && k < |nodes| && nodes[k] == start
      requires start.expire <= timer.expire
      modifies this`tail, this`nodes, nodes`next, nodes`prev, timer`prev, timer`next
      ensures Valid() && View() == Insert(old(View()), EntryOf(timer))
    {
      hide Insert, Sorted;
      ghost var v := View();
      var prev := start;
      var tmp := prev.next;
      ghost var j := k;
      while tmp != null && timer.expire >= tmp.expire
        invariant k <= j < |nodes| && prev == nodes[j] && v[j].expire <= timer.expire
        invariant tmp == if j == |nodes| - 1 then null else nodes[j + 1]
        decreases |nodes| - j
      {
        prev := tmp;
        tmp := tmp.next;
        j := j + 1;
      }
      InsertHere(v, EntryOf(timer), j + 1);
      Hook(timer, prev, j);
      assert View() == v[..j + 1] + [EntryOf(timer)] + v[j + 1..];
    }

    /** Takes the first of several timers out. */
    method CutHead()
      requires Linked() && |nodes| >= 2
      modifies this`head, this`nodes, nodes`prev
      ensures Linked() && nodes == old(nodes)[1..] && View() == old(View())[1..]
    {
      head := head.next;
      head.prev := null;
      nodes := nodes[1..];
    }

    /** Takes a timer out that has neighbours on both sides. */
    method CutMiddle(timer: Timer, ghost k: nat)
      requires Linked() && 0 < k < |nodes| - 1 && nodes[k] == timer
      modifies this`nodes, nodes`prev, nodes`next
      ensures Linked() && nodes == old(nodes)[..k] + old(nodes)[k + 1..]
      ensures View() == old(View())[..k] + old(View())[k + 1..]
      ensures timer.next == old(timer.next) && timer.prev == old(timer.prev)
    {
      timer.prev.next := timer.next;
      timer.next.prev := timer.prev;
      nodes := nodes[..k] + nodes[k + 1..];
    }

    /** Takes the last of several timers out. */
    method CutTail()
      requires Linked() && |nodes| >= 2
      modifies this`tail, this`nodes, nodes`next
      ensures Linked() && nodes == old(nodes)[..|old(nodes)| - 1]
      ensures View() == old(View())[..|old(nodes)| - 1]
    {
      tail := tail.prev;
      tail.next := null;
      nodes := nodes[..|nodes| - 1];
    }

    /** add_timer: stable sorted insertion. */
    method AddTimer(timer: Timer?)
      requires Valid()
      requires timer != null ==> timer !in nodes && timer.prev == null && timer.next == null
      modifies this, nodes`next, nodes`prev, if timer == null then {} else {timer}
      ensures Valid() && (timer != null ==> timer.expire == old(timer.expire))
      ensures timer == null ==> nodes == old(nodes) && View() == old(View())
      ensures timer != null ==> View() == Insert(old(View()), EntryOf(timer))
    {
      hide Insert;
      if timer == null { return; }
      if head == null {
        head, tail := timer, timer;
        nodes := [timer];
        InsertHere([], EntryOf(timer), 0);
        assert View() == [] + [EntryOf(timer)] + [];
        return;
      }
      if timer.expire < head.expire {
        ghost var v := View();
        InsertHere(v, EntryOf(timer), 0);
        timer.next := head;
        head.prev := timer;
        head := timer;
        nodes := [timer] + nodes;
        assert View() == v[..0] + [EntryOf(timer)] + v[0..];
        return;
      }
      AddFrom(timer, head, 0);
    }

    /** The list without its k-th timer, which is the only entry of its item. */
    lemma RemoveNode(k: nat)
      requires Linked() && k < |nodes|
      ensures Remove(View(), nodes[k]) == View()[..k] + View()[k + 1..]
    {
      RemoveAt(View(), k);
    }

    /** The first timer, grown late, out and in again. */
    method MoveHead()
      requires Linked() && |nodes| >= 2 && Sorted(View()[1..]) && nodes[1].expire <= nodes[0].expire
      modifies this, nodes`next, nodes`prev
      ensures Valid()
      ensures View() == Insert(old(View())[1..], old(EntryOf(nodes[0])))
    {
      hide Insert, Sorted;
      var timer := head;
      CutHead();
      timer.next := null;
      AddFrom(timer, head, 0);
    }

    /** And one with neighbours on both sides. */
    method MoveMiddle(timer: Timer, ghost k: nat)
      requires Linked() && 0 < k < |nodes| - 1 && nodes[k] == timer && Sorted(View()[..k] + View()[k + 1..])
      requires nodes[k + 1].expire <= timer.expire
      modifies this, nodes`next, nodes`prev
      ensures Valid()
      ensures View() == Insert(old(View())[..k] + old(View())[k + 1..], old(EntryOf(timer)))
    {
      hide Insert, Sorted;
      CutMiddle(timer, k);
      AddFrom(timer, timer.next, k);
    }

    /** adjust_timer, after the timer's expiry has grown: out of its place and in again behind its
        equals. Nothing is lost or doubled. */
    method AdjustTimer(timer: Timer?)
      requires Linked() && (timer != null ==> timer in nodes && SortedBut(View(), timer))
      requires timer == null ==> Valid()
      modifies this, nodes`next, nodes`prev
      ensures Valid()
      ensures timer == null ==> View() == old(View())
      ensures timer != null ==> View() == Insert(Remove(old(View()), timer), EntryOf(timer))
    {
      hide Insert, Remove, Sorted, SortedBut;
      if timer == null { return; }
      ghost var k :| 0 <= k < |nodes| && nodes[k] == timer;
      ghost var v := View();
      RemoveNode(k);
      RemoveLate(v, k);
      var tmp := timer.next;
      if tmp == null || timer.expire < tmp.expire {
        StaysInPlace(v, k);
        return;
      }
      if timer == head {
        assert v[..0] + v[1..] == v[1..];
        MoveHead();
      } else {
        MoveMiddle(timer, k);
      }
    }

    /** del_timer: exactly this timer leaves the list. */
    method DelTimer(timer: Timer?)
      requires Valid() && (timer != null ==> timer in nodes)
      modifies this, nodes`next, nodes`prev
      ensures Valid()
      ensures timer == null ==> nodes == old(nodes) && View() == old(View())
      ensures timer != null ==> View() == Remove(old(View()), timer)
    {
      hide Insert, Remove, Sorted, SortedBut;
      if timer == null { return; }
      ghost var k :| 0 <= k < |nodes| && nodes[k] == timer;
      ghost var v := View();
      RemoveNode(k);
      RemoveLate(v, k);
      if timer == head && timer == tail {
        head, tail := null, null;
        nodes := [];
        assert View() == v[..0] + v[1..];
        return;
      }
      if timer == head {
        CutHead();
        assert View() == v[..0] + v[1..];
        return;
      }
      if timer == tail {
        CutTail();
        assert View() == v[..k] + v[k + 1..];
        return;
      }
      CutMiddle(timer, k);
    }

    /** Takes the first timer out, and leaves tail as it is. */
    method DropHead()
      requires Linked() && nodes != []
      modifies this`head, this`nodes, nodes`prev
      ensures Linked() && nodes == old(nodes)[1..] && View() == old(View())[1..]
    {
      head := head.next;
      if head != null { head.prev := null; }
      nodes := nodes[1..];
    }

    /** tick at time now: fired lists the timers called back, in order: exactly the expired ones. */
    method Tick(now: int) returns (fired: seq<Timer>)
      requires Valid()
      modifies this`head, this`nodes, nodes`prev
      ensures Valid()
      ensures var k := Expired(old(View()), now);
              fired == old(nodes)[..k] && nodes == old(nodes)[k..] && View() == old(View())[k..]
    {
      hide Sorted, Expired;
      fired := [];
      var tmp := head;
      ghost var v := View();
      ghost var k := 0;
      while tmp != null
        invariant 0 <= k <= |v| && nodes == old(nodes)[k..] && View() == v[k..]
        invariant Linked() && tmp == head
        invariant fired == old(nodes)[..k]
        invariant forall i :: 0 <= i < k ==> v[i].expire <= now
        decreases |nodes|
      {
        if now < tmp.expire { break; }
        NextOf(old(nodes), k);
        NextOf(v, k);
        fired := fired + [tmp];
        DropHead();
        tmp := head;
        k := k + 1;
      }
      ExpiredIs(v, now, k);
      SortedTail(v, k);
    }
  }
}
