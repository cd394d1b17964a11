/** Counting the threads at a place, and what they hold. */
module Counting {
  import opened Wrappers

  function Count<T>(s: seq<T>, p: T -> bool): nat {
    if s == [] then 0 else (if p(s[0]) then 1 else 0) + Count(s[1..], p)
  }

  lemma {:induction false} CountUpdate<T>(s: seq<T>, i: nat, v: T, p: T -> bool)
    requires i < |s|
    ensures Count(s[i := v], p) == Count(s, p) - (if p(s[i]) then 1 else 0) + (if p(v) then 1 else 0)
  {
    if i > 0 {
      assert s[i := v][1..] == s[1..][i - 1 := v];
      CountUpdate(s[1..], i - 1, v, p);
    } else {
      assert s[0 := v][1..] == s[1..];
    }
  }

  lemma {:induction false} CountNone<T>(s: seq<T>, p: T -> bool)
    requires forall i :: 0 <= i < |s| ==> !p(s[i])
    ensures Count(s, p) == 0
  {
    if s == [] {
    } else {
      CountNone(s[1..], p);
    }
  }

  lemma {:induction false} CountPositive<T>(s: seq<T>, i: nat, p: T -> bool)
    requires i < |s| && p(s[i])
    ensures Count(s, p) > 0
  {
    if i == 0 {
    } else {
      CountPositive(s[1..], i - 1, p);
    }
  }

  function Times<T(==)>(s: seq<T>, x: T): nat { multiset(s)[x] }

  lemma TimesAppended<T>(s: seq<T>, v: T, x: T)
    ensures Times(s + [v], x) == Times(s, x) + if v == x then 1 else 0
  {
  }

  lemma TimesFirst<T>(s: seq<T>, x: T)
    requires s != []
    ensures Times(s, x) == Times(s[1..], x) + if s[0] == x then 1 else 0
  {
    assert s == [s[0]] + s[1..];
  }

  // ----- what threads hold, at most one thing each

  function One<T(==)>(c: Option<T>): multiset<T> { if c.Some? then multiset{c.value} else multiset{} }

  function Held<T(==)>(hands: seq<Option<T>>): multiset<T> {
    if hands == [] then multiset{} else One(hands[0]) + Held(hands[1..])
  }

  function Nothing<T>(n: nat): seq<Option<T>> { seq(n, _ => None) }

  lemma {:induction false} HeldUpdate<T>(hands: seq<Option<T>>, t: nat, c: Option<T>, x: T)
    requires t < |hands|
    ensures Held(hands[t := c])[x] + One(hands[t])[x] == Held(hands)[x] + One(c)[x]
  {
    var now := hands[t := c];
    assert Held(now) == One(now[0]) + Held(now[1..]);
    if t > 0 {
      assert now[1..] == hands[1..][t - 1 := c];
      HeldUpdate(hands[1..], t - 1, c, x);
    } else {
      assert now[1..] == hands[1..];
    }
  }

  lemma {:induction false} NoneHeld<T>(n: nat)
    ensures Held(Nothing<T>(n)) == multiset{}
  {
    if n == 0 {
    } else {
      NoneHeld<T>(n - 1);
      assert Nothing<T>(n)[1..] == Nothing<T>(n - 1);
    }
  }

  lemma {:induction false} HeldTwice<T>(hands: seq<Option<T>>, i: nat, j: nat)
    requires i < j < |hands| && hands[i].Some? && hands[i] == hands[j]
    ensures Held(hands)[hands[i].value] >= 2
  {
    if i > 0 { HeldTwice(hands[1..], i - 1, j - 1); } else { HeldOnce(hands[1..], j - 1); }
  }

  lemma {:induction false} HeldOnce<T>(hands: seq<Option<T>>, i: nat)
    requires i < |hands| && hands[i].Some?
    ensures Held(hands)[hands[i].value] >= 1
  {
    if i == 0 {
    } else {
      HeldOnce(hands[1..], i - 1);
    }
  }

  lemma {:induction false} HeldAtMost<T>(hands: seq<Option<T>>)
    ensures |Held(hands)| <= |hands|
  {
    if hands == [] {
    } else {
      HeldAtMost(hands[1..]);
    }
  }

  lemma {:induction false} HeldFewer<T>(hands: seq<Option<T>>, t: nat)
    requires t < |hands| && hands[t] == None
    ensures |Held(hands)| < |hands|
  {
    if t > 0 { HeldFewer(hands[1..], t - 1); } else { HeldAtMost(hands[1..]); }
  }
}
