/** The version 2 log: a linked queue with many producers and one consumer, which reads head and copies
    the message outside the lock. */
module LogList {
  import opened Wrappers

  datatype Node = Node(msg: string, next: Option<nat>)

  /** push_log; every place but the first two holds the new node. */
  datatype Pc =
    | Calling | WantPush(node: nat) | TestSize(node: nat) | SetHead(node: nat) | SetTail(node: nat)
    | LinkTail(node: nat) | MoveTail(node: nat) | CountUp(node: nat) | Unlock(node: nat)

  /** The dequeue part of log_work: before each of its accesses. */
  datatype Work =
    | WantLook | Look | Asleep | EndLook | TestAgain | ReadHead | Copy(ptr: Option<nat>) | WantRemove
    | CountDown | TestEmpty | ClearHead | ClearTail | Advance | EndRemove

  datatype Holder = Nobody | Producer(p: nat) | Consumer

  /** Nodes by address: a new one at the end. pushed, removed: the nodes linked in and unlinked so far;
      copied: the messages written to the buffer. fault: a null pointer was followed. */
  datatype State = State(
    heap: seq<Node>, head: Option<nat>, tail: Option<nat>, size: int, lock: Holder,
    pcs: seq<Pc>, work: Work, pushed: seq<nat>, removed: seq<nat>, copied: seq<string>, fault: bool)

  datatype Step = ByProducer(p: nat, msg: string) | ByConsumer

  predicate Enabled(s: State, step: Step) {
    match step
    case ByProducer(p, _) => p < |s.pcs| && (s.pcs[p].WantPush? ==> s.lock == Nobody)
    case ByConsumer => s.work == WantLook || s.work == Asleep || s.work == WantRemove ==> s.lock == Nobody
  }

  function Fault(s: State): State { s.(fault := true) }

  function At(s: State, p: nat, pc: Pc): State
    requires p < |s.pcs|
  {
    s.(pcs := s.pcs[p := pc])
  }

  function Link(heap: seq<Node>, node: nat, next: nat): seq<Node>
    requires node < |heap|
  {
    heap[node := heap[node].(next := Some(next))]
  }

  function MoveProducer(s: State, p: nat, msg: string): State
    requires Enabled(s, ByProducer(p, msg))
  {
    match s.pcs[p]
    case Calling => At(s, p, WantPush(|s.heap|)).(heap := s.heap + [Node(msg, None)])
    case WantPush(n) => At(s, p, TestSize(n)).(lock := Producer(p))
    case TestSize(n) => At(s, p, if s.size == 0 then SetHead(n) else LinkTail(n))
    case SetHead(n) => At(s, p, SetTail(n)).(head := Some(n))
    case SetTail(n) => At(s, p, CountUp(n)).(tail := Some(n))
    case LinkTail(n) =>
      if s.tail == None || s.tail.value >= |s.heap| then Fault(s)
      else At(s, p, MoveTail(n)).(heap := Link(s.heap, s.tail.value, n))
    case MoveTail(n) => At(s, p, CountUp(n)).(tail := Some(n))
    case CountUp(n) => At(s, p, Unlock(n)).(size := s.size + 1, pushed := s.pushed + [n])
    case Unlock(n) => At(s, p, Calling).(lock := Nobody)
  }

  function MoveConsumer(s: State): State
    requires Enabled(s, ByConsumer)
  {
    match s.work
    case WantLook => s.(work := Look, lock := Consumer)
    case Look => if s.size == 0 then s.(work := Asleep, lock := Nobody) else s.(work := EndLook)
    case Asleep => s.(work := Look, lock := Consumer)
    case EndLook => s.(work := TestAgain, lock := Nobody)
    case TestAgain => s.(work := if s.size > 0 then ReadHead else WantLook)
    case ReadHead => s.(work := Copy(s.head))
    case Copy(ptr) =>
      if ptr == None || ptr.value >= |s.heap| then Fault(s)
      else s.(work := WantRemove, copied := s.copied + [s.heap[ptr.value].msg])
    case WantRemove => s.(work := CountDown, lock := Consumer)
    case CountDown => s.(work := TestEmpty, size := s.size - 1)
    case TestEmpty => s.(work := if s.size == 0 then ClearHead else Advance)
    case ClearHead =>
      if s.head == None then Fault(s)
      else s.(work := ClearTail, head := None, removed := s.removed + [s.head.value])
    case ClearTail => s.(work := EndRemove, tail := None)
    case Advance =>
      if s.head == None || s.head.value >= |s.heap| then Fault(s)
      else s.(work := EndRemove, head := s.heap[s.head.value].next, removed := s.removed + [s.head.value])
    case EndRemove => s.(work := WantLook, lock := Nobody)
  }

  function Move(s: State, step: Step): State
    requires Enabled(s, step)
  {
    if step.ByConsumer? then MoveConsumer(s) else MoveProducer(s, step.p, step.msg)
  }

  function Start(producers: nat): State {
    State([], None, None, 0, Nobody, seq(producers, _ => Calling), WantLook, [], [], [], false)
  }

  ghost predicate Next(s: State, u: State) { exists step :: Enabled(s, step) && u == Move(s, step) }

  ghost predicate IsRun(run: seq<State>, producers: nat) {
    run != [] && run[0] == Start(producers) && forall i :: 0 <= i < |run| - 1 ==> Next(run[i], run[i + 1])
  }

  // ----- the abstract queue

  /** The nodes pushed and not yet removed. */
  function Queue(s: State): seq<nat> { Rest(s.pushed, s.removed) }

  function Rest(pushed: seq<nat>, removed: seq<nat>): seq<nat> {
    if |removed| <= |pushed| then pushed[|removed|..] else []
  }

  function First(q: seq<nat>): Option<nat> { if q == [] then None else Some(q[0]) }
  function Last(q: seq<nat>): Option<nat> { if q == [] then None else Some(q[|q| - 1]) }

  function Follower(q: seq<nat>, i: nat): Option<nat> { if i + 1 < |q| then Some(q[i + 1]) else None }

  /** Every node of q leads to the one behind it, the last to none. */
  predicate Linked(heap: seq<Node>, q: seq<nat>) {
    forall i :: 0 <= i < |q| ==> q[i] < |heap| && heap[q[i]].next == Follower(q, i)
  }

  /** A list of these nodes. */
  predicate IsList(heap: seq<Node>, head: Option<nat>, tail: Option<nat>, q: seq<nat>) {
    Linked(heap, q) && head == First(q) && tail == Last(q)
  }

  // ----- the invariant

  predicate Distinct(q: seq<nat>) { forall i, j :: 0 <= i < j < |q| ==> q[i] != q[j] }

  predicate ProducerLocks(pc: Pc) { !pc.Calling? && !pc.WantPush? }

  predicate ConsumerLocks(w: Work) {
    w.Look? || w.EndLook? || w.CountDown? || w.TestEmpty? || w.ClearHead? || w.ClearTail? || w.Advance? || w.EndRemove?
  }

  predicate Exclusive(s: State) {
    && (forall p :: 0 <= p < |s.pcs| ==> (ProducerLocks(s.pcs[p]) <==> s.lock == Producer(p)))
    && (ConsumerLocks(s.work) <==> s.lock == Consumer)
    && (s.lock.Producer? ==> s.lock.p < |s.pcs|)
  }

  /** The producer's node is not linked in, or not counted, yet. */
  predicate Pending(pc: Pc) { !pc.Calling? && !pc.Unlock? }

  predicate NodesApart(s: State) {
    && (forall i :: 0 <= i < |s.pushed| ==> s.pushed[i] < |s.heap|)
    && Distinct(s.pushed)
    && (forall p :: 0 <= p < |s.pcs| && Pending(s.pcs[p]) ==>
          s.pcs[p].node < |s.heap| && s.heap[s.pcs[p].node].next == None && s.pcs[p].node !in s.pushed)
    && PendingDistinct(s.pcs)
  }

  predicate PendingDistinct(pcs: seq<Pc>) {
    forall p, o :: 0 <= p < o < |pcs| && Pending(pcs[p]) && Pending(pcs[o]) ==> pcs[p].node != pcs[o].node
  }

  /** A producer that goes on with its node, or is done with it, leaves the nodes distinct. */
  lemma SameNode(pcs: seq<Pc>, p: nat, pc: Pc)
    requires PendingDistinct(pcs) && p < |pcs|
    requires Pending(pc) ==> Pending(pcs[p]) && pc.node == pcs[p].node
    ensures PendingDistinct(pcs[p := pc])
  {
  }

  /** The fields while a producer has the lock. */
  predicate ProducerShape(s: State, q: seq<nat>, pc: Pc) {
    && s.size == |q|
    && (if pc.SetHead? then q == [] && IsList(s.heap, s.head, s.tail, q)
        else if pc.SetTail? then q == [] && s.head == Some(pc.node) && Linked(s.heap, [pc.node])
        else if pc.LinkTail? then q != [] && IsList(s.heap, s.head, s.tail, q)
        else if pc.MoveTail? then q != [] && Linked(s.heap, q + [pc.node]) && s.head == First(q)
        else if pc.CountUp? then IsList(s.heap, s.head, s.tail, q + [pc.node])
        else IsList(s.heap, s.head, s.tail, q))
  }

  /** And while the consumer has it. */
  predicate ConsumerShape(s: State, q: seq<nat>) {
    && (s.work.ClearTail? ==> q == [] && s.head == None)
    && (!s.work.ClearTail? ==> IsList(s.heap, s.head, s.tail, q))
    && s.size == |q| - (if s.work.TestEmpty? || s.work.ClearHead? || s.work.Advance? then 1 else 0)
    && (s.work.ClearHead? ==> |q| == 1)
    && (s.work.Advance? ==> |q| > 1)
  }

  predicate Shape(s: State) {
    if s.lock.Producer? && s.lock.p < |s.pcs| then ProducerShape(s, Queue(s), s.pcs[s.lock.p])
    else if s.lock.Consumer? then ConsumerShape(s, Queue(s))
    else s.size == |Queue(s)| && IsList(s.heap, s.head, s.tail, Queue(s))
  }

  /** The consumer has seen a message and not removed it. */
  predicate Sees(w: Work) { w.EndLook? || w.TestAgain? || w.ReadHead? || w.Copy? || Copied(w) }

  /** The consumer has copied a message and not removed it. */
  predicate Copied(w: Work) { w.WantRemove? || w.CountDown? || w.TestEmpty? || w.ClearHead? || w.Advance? }

  predicate RemovedInOrder(s: State) {
    |s.removed| <= |s.pushed| && s.removed == s.pushed[..|s.removed|]
  }

  predicate ConsumerSound(s: State) {
    && (Sees(s.work) ==> Queue(s) != [])
    && (s.work.Copy? ==> s.work.ptr == First(Queue(s)))
    && |s.copied| == |s.removed| + (if Copied(s.work) then 1 else 0)
    && MessagesOf(s.heap, s.pushed, s.copied)
  }

  /** The messages copied are those of the first nodes pushed. */
  predicate MessagesOf(heap: seq<Node>, pushed: seq<nat>, copied: seq<string>) {
    && |copied| <= |pushed|
    && forall i :: 0 <= i < |copied| ==> pushed[i] < |heap| && copied[i] == heap[pushed[i]].msg
  }

  predicate Inv(s: State) {
    Exclusive(s) && NodesApart(s) && RemovedInOrder(s) && Shape(s) && ConsumerSound(s) && !s.fault
  }

  // ----- producers keep it

  /** A producer's step moves its own place, and the lock only to or from it. */
  lemma ProducerMoveIsLocal(s: State, p: nat, msg: string)
    requires Exclusive(s) && Enabled(s, ByProducer(p, msg)) && !MoveProducer(s, p, msg).fault
    ensures var u := MoveProducer(s, p, msg);
            && |u.pcs| == |s.pcs| && u.pcs == s.pcs[p := u.pcs[p]] && u.work == s.work && u.removed == s.removed
            && (u.lock == s.lock || (s.lock == Nobody && u.lock == Producer(p)) || (s.lock == Producer(p) && u.lock == Nobody))
            && (ProducerLocks(u.pcs[p]) <==> u.lock == Producer(p))
  {
    assert ProducerLocks(s.pcs[p]) <==> s.lock == Producer(p);
  }

  lemma ProducerKeepsExclusive(s: State, p: nat, msg: string)
    requires Exclusive(s) && Enabled(s, ByProducer(p, msg)) && !MoveProducer(s, p, msg).fault
    ensures Exclusive(MoveProducer(s, p, msg))
  {
    hide MoveProducer, ProducerLocks, ConsumerLocks;
    ProducerMoveIsLocal(s, p, msg);
  }

  /** The node a step changes, if any, is the last of the queue. */
  lemma TailIsPushed(s: State, p: nat)
    requires Inv(s) && p < |s.pcs| && s.pcs[p].LinkTail?
    ensures Queue(s) != [] && s.tail == Last(Queue(s)) && s.tail.Some? && s.tail.value < |s.heap| && s.tail.value in s.pushed
    ensures s.lock == Producer(p)
  {
    hide Distinct, ConsumerSound, NodesApart;
    assert ProducerLocks(s.pcs[p]) <==> s.lock == Producer(p);
    assert s.pushed[|s.pushed| - 1] in s.pushed;
  }

  lemma AllocationKeepsNodes(s: State, p: nat, msg: string)
    requires NodesApart(s) && p < |s.pcs| && s.pcs[p].Calling?
    ensures NodesApart(MoveProducer(s, p, msg))
  {
    hide Distinct;
  }

  lemma LinkTailKeepsNodes(s: State, p: nat, msg: string)
    requires Inv(s) && p < |s.pcs| && s.pcs[p].LinkTail?
    ensures NodesApart(MoveProducer(s, p, msg)) && !MoveProducer(s, p, msg).fault
  {
    TailIsPushed(s, p);
    SameNode(s.pcs, p, MoveProducer(s, p, msg).pcs[p]);
    hide Exclusive, Shape, ConsumerSound, RemovedInOrder, Distinct, Rest, First, Last, PendingDistinct;
  }

  lemma ProducerKeepsNodes(s: State, p: nat, msg: string)
    requires NodesApart(s) && Enabled(s, ByProducer(p, msg)) && !s.pcs[p].Calling? && !s.pcs[p].LinkTail?
    ensures NodesApart(MoveProducer(s, p, msg)) && MoveProducer(s, p, msg).fault == s.fault
  {
    DistinctAppend(s, p);
    SameNode(s.pcs, p, MoveProducer(s, p, msg).pcs[p]);
    hide Distinct, PendingDistinct;
  }

  lemma DistinctAppend(s: State, p: nat)
    requires NodesApart(s) && p < |s.pcs|
    ensures s.pcs[p].CountUp? ==> Distinct(s.pushed + [s.pcs[p].node])
  {
  }

  /** A list stays one if a node is allocated. */
  lemma AllocationKeepsLinks(heap: seq<Node>, q: seq<nat>, node: Node)
    requires Linked(heap, q)
    ensures Linked(heap + [node], q)
  {
  }

  lemma LinkingAppends(heap: seq<Node>, q: seq<nat>, n: nat)
    requires Linked(heap, q) && q != [] && Distinct(q + [n])
    requires n < |heap| && heap[n].next == None
    ensures Linked(Link(heap, q[|q| - 1], n), q + [n])
  {
    var r := q + [n];
    forall i | 0 <= i < |r|
      ensures r[i] < |heap|
      ensures Link(heap, q[|q| - 1], n)[r[i]].next == Follower(r, i)
    {
      assert i < |q| ==> heap[q[i]].next == Follower(q, i);
      if i != |q| - 1 { assert r[i] != r[|q| - 1]; }
    }
  }

  /** Linking the new node behind the tail. */
  lemma LinkTailKeepsShape(s: State, p: nat, msg: string)
    requires Inv(s) && p < |s.pcs| && s.pcs[p].LinkTail?
    ensures RemovedInOrder(MoveProducer(s, p, msg)) && Shape(MoveProducer(s, p, msg))
  {
    assert s.lock == Producer(p);
    TailIsPushed(s, p);
    QueueDistinct(s, p);
    hide Exclusive, ConsumerSound, Linked, Distinct, Rest, NodesApart;
    LinkingAppends(s.heap, Queue(s), s.pcs[p].node);
  }

  lemma PushedRests(pushed: seq<nat>, removed: seq<nat>, n: nat)
    requires |removed| <= |pushed|
    ensures Rest(pushed + [n], removed) == Rest(pushed, removed) + [n]
    ensures (pushed + [n])[..|removed|] == pushed[..|removed|]
  {
  }

  /** Setting head and tail. */
  lemma PointingKeepsShape(s: State, p: nat, msg: string)
    requires Inv(s) && p < |s.pcs| && (s.pcs[p].SetHead? || s.pcs[p].SetTail? || s.pcs[p].MoveTail?)
    ensures RemovedInOrder(MoveProducer(s, p, msg)) && Shape(MoveProducer(s, p, msg))
  {
    assert s.lock == Producer(p);
    if s.pcs[p].SetHead? { LinkedAlone(s, p); }
    hide Exclusive, ConsumerSound, Linked, Distinct, Rest, NodesApart;
    assert s.pcs[p].SetTail? ==> Queue(s) + [s.pcs[p].node] == [s.pcs[p].node];
  }

  lemma CountUpMoves(s: State, p: nat, msg: string)
    requires RemovedInOrder(s) && p < |s.pcs| && s.pcs[p].CountUp?
    ensures var u := MoveProducer(s, p, msg);
            && u.heap == s.heap && u.head == s.head && u.tail == s.tail && u.lock == s.lock && u.size == s.size + 1
            && |u.pcs| == |s.pcs| && u.pcs[p] == Unlock(s.pcs[p].node)
            && RemovedInOrder(u) && Queue(u) == Queue(s) + [s.pcs[p].node]
  {
    PushedRests(s.pushed, s.removed, s.pcs[p].node);
  }

  lemma HolderIs(s: State, p: nat)
    requires Exclusive(s) && p < |s.pcs| && ProducerLocks(s.pcs[p])
    ensures s.lock == Producer(p)
  {
  }

  lemma CountUpKeepsShape(s: State, p: nat, msg: string)
    requires RemovedInOrder(s) && Shape(s) && s.lock == Producer(p) && p < |s.pcs| && s.pcs[p].CountUp?
    ensures RemovedInOrder(MoveProducer(s, p, msg)) && Shape(MoveProducer(s, p, msg))
  {
    CountUpMoves(s, p, msg);
    hide IsList, Queue, ConsumerShape, RemovedInOrder, MoveProducer;
  }

  /** The test and the unlock. */
  lemma TestKeepsShape(s: State, p: nat, msg: string)
    requires Inv(s) && p < |s.pcs| && (s.pcs[p].TestSize? || s.pcs[p].Unlock?)
    ensures RemovedInOrder(MoveProducer(s, p, msg)) && Shape(MoveProducer(s, p, msg))
  {
    assert s.lock == Producer(p);
    hide Exclusive, ConsumerSound, IsList, Distinct, Rest, NodesApart;
  }

  lemma QueueDistinct(s: State, p: nat)
    requires NodesApart(s) && p < |s.pcs| && Pending(s.pcs[p])
    ensures Distinct(Queue(s) + [s.pcs[p].node])
    ensures s.pcs[p].node < |s.heap| && s.heap[s.pcs[p].node].next == None
  {
  }

  lemma LinkedAlone(s: State, p: nat)
    requires NodesApart(s) && p < |s.pcs| && Pending(s.pcs[p])
    ensures Linked(s.heap, [s.pcs[p].node])
  {
  }

  /** And of one without it. */
  lemma FreeProducerKeepsShape(s: State, p: nat, msg: string)
    requires Inv(s) && Enabled(s, ByProducer(p, msg)) && !ProducerLocks(s.pcs[p])
    ensures RemovedInOrder(MoveProducer(s, p, msg)) && Shape(MoveProducer(s, p, msg))
  {
    var u := MoveProducer(s, p, msg);
    var q := Queue(s);
    assert s.lock != Producer(p) && Queue(u) == q;
    if s.pcs[p].Calling? {
      hide Linked;
      forall r | Linked(s.heap, r) ensures Linked(u.heap, r) { AllocationKeepsLinks(s.heap, r, Node(msg, None)); }
    }
  }

  lemma ProducerKeepsConsumer(s: State, p: nat, msg: string)
    requires Inv(s) && Enabled(s, ByProducer(p, msg))
    ensures var u := MoveProducer(s, p, msg);
            && ConsumerSound(u)
            && (Queue(s) != [] ==> First(Queue(u)) == First(Queue(s)))
  {
    if s.pcs[p].LinkTail? { TailIsPushed(s, p); }
    if s.pcs[p].CountUp? { PushedRests(s.pushed, s.removed, s.pcs[p].node); }
    ProducerKeepsMessages(s, p, msg);
    hide Exclusive, Shape, NodesApart, MessagesOf, Rest;
  }

  lemma ProducerKeepsMessages(s: State, p: nat, msg: string)
    requires Enabled(s, ByProducer(p, msg)) && MessagesOf(s.heap, s.pushed, s.copied)
    ensures var u := MoveProducer(s, p, msg); MessagesOf(u.heap, u.pushed, u.copied)
  {
  }

  // ----- the consumer keeps it

  lemma ConsumerKeepsExclusive(s: State)
    requires Exclusive(s) && Enabled(s, ByConsumer) && !MoveConsumer(s).fault
    ensures Exclusive(MoveConsumer(s))
  {
  }

  lemma ConsumerLeaves(s: State)
    requires Enabled(s, ByConsumer)
    ensures var u := MoveConsumer(s); u.heap == s.heap && u.pcs == s.pcs && u.pushed == s.pushed
  {
  }

  lemma ConsumerKeepsNodes(s: State)
    requires NodesApart(s) && Enabled(s, ByConsumer)
    ensures NodesApart(MoveConsumer(s))
  {
    ConsumerLeaves(s);
    hide MoveConsumer, Distinct;
  }

  /** While the consumer is about to follow head, head is the first of the queue. */
  lemma HeadIsFirst(s: State)
    requires Inv(s) && (Sees(s.work) || s.work.ClearHead? || s.work.Advance?)
    ensures Queue(s) != [] && s.head == First(Queue(s)) && Queue(s)[0] < |s.heap|
  {
  }

  lemma Behind(heap: seq<Node>, q: seq<nat>)
    requires Linked(heap, q) && q != []
    ensures q[0] < |heap| && heap[q[0]].next == First(q[1..]) && Linked(heap, q[1..])
  {
    var r := q[1..];
    assert heap[q[0]].next == Follower(q, 0);
    forall i | 0 <= i < |r|
      ensures r[i] < |heap| && heap[r[i]].next == Follower(r, i)
    {
      assert heap[q[i + 1]].next == Follower(q, i + 1);
    }
  }

  lemma RemovalRests(s: State, v: nat)
    requires RemovedInOrder(s) && Queue(s) != [] && v == Queue(s)[0]
    ensures Rest(s.pushed, s.removed + [v]) == Queue(s)[1..]
    ensures s.removed + [v] == s.pushed[..|s.removed| + 1]
  {
  }

  predicate Removes(w: Work) { w.ClearHead? || w.Advance? }

  lemma RemovalKeepsShape(s: State)
    requires Inv(s) && Removes(s.work)
    ensures var u := MoveConsumer(s); !u.fault && RemovedInOrder(u) && Shape(u)
  {
    hide NodesApart, ConsumerSound, ProducerShape;
    HeadIsFirst(s);
    Behind(s.heap, Queue(s));
    RemovalRests(s, Queue(s)[0]);
    assert s.lock == Consumer;
    hide Exclusive, Linked, Rest;
  }

  lemma RemovalKeepsSound(s: State)
    requires Inv(s) && Removes(s.work)
    ensures ConsumerSound(MoveConsumer(s))
  {
    HeadIsFirst(s);
    hide Exclusive, NodesApart, Rest, Shape, IsList, MessagesOf, RemovedInOrder;
  }

  lemma ClearTailKeepsShape(s: State)
    requires Inv(s) && s.work.ClearTail?
    ensures var u := MoveConsumer(s); !u.fault && RemovedInOrder(u) && Shape(u)
  {
    assert s.lock == Consumer;
    hide Exclusive, NodesApart, ConsumerSound, Rest;
  }

  predicate Reads(w: Work) { w.TestAgain? || w.ReadHead? || w.Copy? }

  /** The consumer's steps outside the lock leave the list alone. */
  lemma ReadingKeepsShape(s: State)
    requires Inv(s) && Reads(s.work)
    ensures var u := MoveConsumer(s); !u.fault && RemovedInOrder(u) && Shape(u)
  {
    HeadIsFirst(s);
    assert s.lock != Consumer;
    hide Exclusive, NodesApart, ConsumerSound, IsList, Rest, ProducerShape, ConsumerShape, RemovedInOrder;
  }

  /** So do taking and giving back the lock. */
  lemma LockingKeepsShape(s: State)
    requires Inv(s) && Enabled(s, ByConsumer) && !Removes(s.work) && !s.work.ClearTail? && !Reads(s.work)
    requires !s.work.CountDown? && !s.work.TestEmpty?
    ensures var u := MoveConsumer(s); !u.fault && RemovedInOrder(u) && Shape(u)
  {
    assert ConsumerLocks(s.work) <==> s.lock == Consumer;
    hide Exclusive, NodesApart, ConsumerSound, IsList, Rest, ProducerShape, RemovedInOrder;
  }

  lemma CountDownKeepsShape(s: State)
    requires Inv(s) && (s.work.CountDown? || s.work.TestEmpty?)
    ensures var u := MoveConsumer(s); !u.fault && RemovedInOrder(u) && Shape(u)
  {
    HeadIsFirst(s);
    hide Exclusive, NodesApart, ConsumerSound, IsList, Rest, ProducerShape, RemovedInOrder;
  }

  lemma CopyKeepsSound(s: State)
    requires Inv(s) && s.work.Copy?
    ensures ConsumerSound(MoveConsumer(s))
  {
    HeadIsFirst(s);
    assert Queue(s)[0] == s.pushed[|s.removed|];
    hide Exclusive, NodesApart, Shape, RemovedInOrder, Rest;
  }

  lemma LookFinds(s: State)
    requires Inv(s)
    ensures s.work.Look? ==> s.size == |Queue(s)|
  {
    assert s.work.Look? ==> s.lock == Consumer;
    hide NodesApart, IsList, Rest, ProducerShape, MessagesOf;
  }

  /** How the consumer moves on, but for copying and removing. */
  lemma WorkMoves(s: State)
    requires Enabled(s, ByConsumer) && !Removes(s.work) && !s.work.Copy?
    ensures var u := MoveConsumer(s);
            && u.heap == s.heap && u.pushed == s.pushed && u.removed == s.removed && u.copied == s.copied
            && (Sees(u.work) ==> Sees(s.work) || (s.work.Look? && s.size != 0))
            && (u.work.Copy? ==> s.work.ReadHead? && u.work.ptr == s.head)
            && (Copied(u.work) <==> Copied(s.work))
  {
  }

  lemma OtherWorkKeepsSound(s: State)
    requires Inv(s) && Enabled(s, ByConsumer) && !Removes(s.work) && !s.work.Copy?
    ensures ConsumerSound(MoveConsumer(s))
  {
    WorkMoves(s);
    LookFinds(s);
    if s.work.ReadHead? { HeadIsFirst(s); }
    hide Exclusive, NodesApart, Shape, IsList, RemovedInOrder, Rest, MessagesOf, MoveConsumer, Copied;
  }

  // ----- runs

  lemma ProducerKeepsInv(s: State, p: nat, msg: string)
    requires Inv(s) && Enabled(s, ByProducer(p, msg))
    ensures Inv(MoveProducer(s, p, msg))
  {
    hide NodesApart, Shape, ConsumerSound, RemovedInOrder;
    var pc := s.pcs[p];
    if pc.Calling? { AllocationKeepsNodes(s, p, msg); }
    else if pc.LinkTail? { LinkTailKeepsNodes(s, p, msg); }
    else { ProducerKeepsNodes(s, p, msg); }
    ProducerKeepsExclusive(s, p, msg);
    ProducerKeepsConsumer(s, p, msg);
    if pc.LinkTail? { LinkTailKeepsShape(s, p, msg); }
    else if pc.SetHead? || pc.SetTail? || pc.MoveTail? { PointingKeepsShape(s, p, msg); }
    else if pc.CountUp? {
      HolderIs(s, p);
      CountUpKeepsShape(s, p, msg);
    }
    else if ProducerLocks(pc) { TestKeepsShape(s, p, msg); }
    else { FreeProducerKeepsShape(s, p, msg); }
  }

  lemma ConsumerKeepsInv(s: State)
    requires Inv(s) && Enabled(s, ByConsumer)
    ensures Inv(MoveConsumer(s))
  {
    hide NodesApart, Shape, ConsumerSound, RemovedInOrder;
    if Removes(s.work) {
      RemovalKeepsShape(s);
      RemovalKeepsSound(s);
    } else {
      if s.work.ClearTail? { ClearTailKeepsShape(s); }
      else if s.work.CountDown? || s.work.TestEmpty? { CountDownKeepsShape(s); }
      else if Reads(s.work) { ReadingKeepsShape(s); }
      else { LockingKeepsShape(s); }
      if s.work.Copy? { CopyKeepsSound(s); } else { OtherWorkKeepsSound(s); }
    }
    ConsumerKeepsExclusive(s);
    ConsumerKeepsNodes(s);
  }

  lemma StepKeepsInv(s: State, step: Step)
    requires Inv(s) && Enabled(s, step)
    ensures Inv(Move(s, step))
  {
    hide Inv, MoveProducer, MoveConsumer;
    if step.ByProducer? { ProducerKeepsInv(s, step.p, step.msg); } else { ConsumerKeepsInv(s); }
  }

  lemma {:induction false} RunsKeepInv(run: seq<State>, producers: nat, n: nat)
    requires IsRun(run, producers) && n < |run|
    ensures Inv(run[n])
  {
    if n == 0 {
    } else {
      hide Inv, Move;
      RunsKeepInv(run, producers, n - 1);
      assert Next(run[n - 1], run[n]);
      var step :| Enabled(run[n - 1], step) && run[n] == Move(run[n - 1], step);
      StepKeepsInv(run[n - 1], step);
    }
  }

  function Messages(heap: seq<Node>, nodes: seq<nat>): seq<string>
    requires forall i :: 0 <= i < |nodes| ==> nodes[i] < |heap|
  {
    seq(|nodes|, i requires 0 <= i < |nodes| => heap[nodes[i]].msg)
  }

  /** The list refines a FIFO in every run: no null pointer is followed; nodes are removed in the order in
      which they were pushed; the messages copied are those of the nodes removed, and of the next one
      while the consumer has copied but not removed it; with the lock free, the nodes reached from head are
      those pushed and not removed, and size is their number. */
  lemma ListRefinesFifo(run: seq<State>, producers: nat, n: nat)
    requires IsRun(run, producers) && n < |run|
    ensures var s := run[n];
            && !s.fault
            && (forall i :: 0 <= i < |s.pushed| ==> s.pushed[i] < |s.heap|)
            && |s.removed| <= |s.copied| <= |s.pushed| && s.removed == s.pushed[..|s.removed|]
            && s.copied == Messages(s.heap, s.pushed)[..|s.copied|]
            && |s.copied| == |s.removed| + (if Copied(s.work) then 1 else 0)
            && (s.lock == Nobody ==> IsList(s.heap, s.head, s.tail, Queue(s)) && s.size == |Queue(s)|)
  {
    hide IsRun;
    RunsKeepInv(run, producers, n);
  }

  /** Between the consumer's unlocked test and its removal no step of a producer changes head, so the
      pointer it read is still head when it removes. */
  lemma UnlockedReadIsSafe(run: seq<State>, producers: nat, n: nat, step: Step)
    requires IsRun(run, producers) && n < |run| && Sees(run[n].work) && Enabled(run[n], step) && step.ByProducer?
    ensures Move(run[n], step).head == run[n].head == First(Queue(run[n])) && run[n].head.Some?
    ensures run[n].work.Copy? ==> run[n].work.ptr == run[n].head
  {
    hide IsRun;
    RunsKeepInv(run, producers, n);
    HeadIsFirst(run[n]);
    StepKeepsInv(run[n], step);
    HeadIsFirst(Move(run[n], step));
    ProducerKeepsConsumer(run[n], step.p, step.msg);
  }
}
