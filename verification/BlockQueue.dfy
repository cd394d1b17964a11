/** block_queue: a bounded queue in a circular array, whose cursors start at -1 and lead to the places
    before the first and of the last element. */
module BlockQueue {

  /** The queue's fields as a value. */
  datatype Ring<T> = Ring(arr: seq<T>, front: int, back: int, size: int)

  /** The place of element i in a circle of n, with front before the first. */
  function Place(front: int, i: int, n: int): (p: int)
    requires n > 0
    ensures 0 <= p < n
  {
    (front + 1 + i) % n
  }

  /** Cursors in range, and back lies size places behind front. */
  predicate RingOk<T>(r: Ring<T>) {
    var n := |r.arr|;
    && 0 <= r.size <= n && n > 0 && -1 <= r.front < n && -1 <= r.back < n
    && Place(r.front, r.size, n) == Place(r.back, 0, n)
  }

  /** The elements, first to last. */
  function Contents<T>(r: Ring<T>): (c: seq<T>)
    requires RingOk(r)
    ensures |c| == r.size
  {
    seq(r.size, i requires 0 <= i < r.size => r.arr[Place(r.front, i, |r.arr|)])
  }

  /** push: false and no change if the array is full. */
  function Push<T>(r: Ring<T>, v: T): Ring<T>
    requires RingOk(r)
  {
    if r.size >= |r.arr| then r
    else
      var back := Place(r.back, 0, |r.arr|);
      r.(back := back, arr := r.arr[back := v], size := r.size + 1)
  }

  /** pop, once the queue is not empty. */
  function Pop<T>(r: Ring<T>): Ring<T>
    requires RingOk(r) && r.size > 0
  {
    r.(front := Place(r.front, 0, |r.arr|), size := r.size - 1)
  }

  function Front<T>(r: Ring<T>): T
    requires RingOk(r) && r.size > 0
  {
    r.arr[Place(r.front, 0, |r.arr|)]
  }

  function Clear<T>(r: Ring<T>): Ring<T> { r.(front := -1, back := -1, size := 0) }

  // ----- arithmetic of the circle

  lemma Wraps(x: int, n: int)
    requires 0 <= x <= 2 * n && n > 0
    ensures x % n == if x < n then x else if x < 2 * n then x - n else 0
  {
    if n <= x < 2 * n { assert x == n * 1 + (x - n); }
    if x == 2 * n { assert x == n * 2 + 0; }
  }

  /** One place further on either side keeps two places equal. */
  lemma NextPlace(front: int, i: int, back: int, n: int)
    requires n > 0 && -1 <= front < n && 0 <= i < n && -1 <= back < n && Place(front, i, n) == Place(back, 0, n)
    ensures Place(front, i + 1, n) == Place(Place(back, 0, n), 0, n)
  {
    Wraps(front + 1 + i, n);
    Wraps(back + 1, n);
    Wraps(front + 2 + i, n);
    Wraps(Place(back, 0, n) + 1, n);
  }

  /** Places 0..n-1 behind front are different. */
  lemma PlacesDiffer(front: int, i: int, j: int, n: int)
    requires n > 0 && -1 <= front < n && 0 <= i < j < n
    ensures Place(front, i, n) != Place(front, j, n)
  {
    Wraps(front + 1 + i, n);
    Wraps(front + 1 + j, n);
  }

  /** Places counted from the next front. */
  lemma FromNextFront(front: int, i: int, n: int)
    requires n > 0 && -1 <= front < n && 0 <= i < n
    ensures Place(Place(front, 0, n), i, n) == Place(front, i + 1, n)
  {
    Wraps(front + 1, n);
    Wraps(Place(front, 0, n) + 1 + i, n);
    Wraps(front + 1 + (i + 1), n);
  }

  /** The last of size places is the one back leads to. */
  lemma LastPlace(front: int, back: int, size: int, n: int)
    requires n > 0 && -1 <= front < n && 0 <= back < n && 0 < size <= n
    requires Place(front, size, n) == Place(back, 0, n)
    ensures Place(front, size - 1, n) == back
  {
    Wraps(front + 1 + size, n);
    Wraps(back + 1, n);
    Wraps(front + size, n);
  }

  // ----- the queue is a bounded sequence

  lemma PushAppends<T>(r: Ring<T>, v: T)
    requires RingOk(r)
    ensures RingOk(Push(r, v))
    ensures Contents(Push(r, v)) == if |Contents(r)| < |r.arr| then Contents(r) + [v] else Contents(r)
  {
    hide Place;
    var n := |r.arr|;
    if r.size < n {
      var p := Push(r, v);
      NextPlace(r.front, r.size, r.back, n);
      forall i | 0 <= i < r.size
        ensures Contents(p)[i] == Contents(r)[i]
      {
        PlacesDiffer(r.front, i, r.size, n);
      }
      assert Contents(p) == Contents(r) + [v];
    }
  }

  lemma PopRemovesFirst<T>(r: Ring<T>)
    requires RingOk(r) && r.size > 0
    ensures RingOk(Pop(r)) && Contents(r)[0] == Front(r) && Contents(Pop(r)) == Contents(r)[1..]
  {
    hide Place;
    var n := |r.arr|;
    var p := Pop(r);
    FromNextFront(r.front, r.size - 1, n);
    forall i | 0 <= i < p.size
      ensures Contents(p)[i] == Contents(r)[1..][i]
    {
      FromNextFront(r.front, i, n);
    }
  }

  lemma ClearEmpties<T>(r: Ring<T>)
    requires |r.arr| > 0
    ensures RingOk(Clear(r)) && Contents(Clear(r)) == []
  {
  }

  /** The last element is where back leads. */
  lemma BackIsLast<T>(r: Ring<T>)
    requires RingOk(r) && r.size > 0 && r.back >= 0
    ensures r.arr[r.back] == Contents(r)[r.size - 1]
  {
    LastPlace(r.front, r.back, r.size, |r.arr|);
  }

  // ----- the object

  class BlockQueue<T(0)> {
    const array_: array<T>
    var size: int
    var front: int
    var back: int

    ghost function View(): Ring<T>
      reads this, array_
    {
      Ring(array_[..], front, back, size)
    }

    ghost predicate Valid()
      reads this, array_
    {
      RingOk(View()) && (size > 0 ==> back >= 0)
    }

    constructor (maxSize: nat)
      requires maxSize > 0
      ensures Valid() && fresh(array_) && array_.Length == maxSize && Contents(View()) == []
    {
      array_ := new T[maxSize];
      size, front, back := 0, -1, -1;
    }

    /** The body of push under the lock. */
    method PushLocked(v: T) returns (ok: bool)
      requires Valid()
      modifies this`back, this`size, array_
      ensures Valid() && View() == Push(old(View()), v)
      ensures ok == (|old(Contents(View()))| < array_.Length)
      ensures Contents(View()) == if ok then old(Contents(View())) + [v] else old(Contents(View()))
    {
      PushAppends(View(), v);
      if size >= array_.Length { return false; }
      back := (back + 1) % array_.Length;
      array_[back] := v;
      size := size + 1;
      ok := true;
    }

    /** The body of pop under the lock, behind its wait loop. */
    method PopLocked() returns (v: T)
      requires Valid() && size > 0
      modifies this`front, this`size
      ensures Valid() && View() == Pop(old(View()))
      ensures [v] + Contents(View()) == old(Contents(View()))
    {
      PopRemovesFirst(View());
      front := (front + 1) % array_.Length;
      v := array_[front];
      size := size - 1;
    }

    method ClearLocked()
      requires Valid()
      modifies this`front, this`back, this`size
      ensures Valid() && Contents(View()) == []
    {
      size, front, back := 0, -1, -1;
    }

    method Full() returns (full: bool)
      requires Valid()
      ensures full == (|Contents(View())| == array_.Length)
    {
      full := size >= array_.Length;
    }

    /** back(): the last element, if there is one. */
    method Back(fallback: T) returns (ok: bool, v: T)
      requires Valid()
      ensures ok == (Contents(View()) != [])
      ensures ok ==> v == Contents(View())[|Contents(View())| - 1]
    {
      if size == 0 { return false, fallback; }
      BackIsLast(View());
      return true, array_[back];
    }
  }
}
