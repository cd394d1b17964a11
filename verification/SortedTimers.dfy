/** What the timer list means: entries in order of expiry, ties in order of arrival. */
module SortedTimers {

  datatype Entry<T> = Entry(item: T, expire: int)

  predicate Sorted<T>(s: seq<Entry<T>>) {
    forall i, j :: 0 <= i < j < |s| ==> s[i].expire <= s[j].expire
  }

  /** Sorted, but for one item that may have become later than its place. */
  predicate SortedBut<T(==)>(s: seq<Entry<T>>, late: T) {
    forall i, j :: 0 <= i < j < |s| && s[i].item != late ==> s[i].expire <= s[j].expire
  }

  /** Sorted insertion behind equal entries. */
  function Insert<T>(s: seq<Entry<T>>, e: Entry<T>): seq<Entry<T>> {
    if s == [] || e.expire < s[0].expire then [e] + s else [s[0]] + Insert(s[1..], e)
  }

  /** The list without the first entry of an item. */
  function Remove<T(==)>(s: seq<Entry<T>>, item: T): seq<Entry<T>> {
    if s == [] then [] else if s[0].item == item then s[1..] else [s[0]] + Remove(s[1..], item)
  }

  /** How many entries at the front have expired at time now. */
  function Expired<T>(s: seq<Entry<T>>, now: int): (k: nat)
    ensures k <= |s|
    ensures forall i :: 0 <= i < k ==> s[i].expire <= now
    ensures k < |s| ==> now < s[k].expire
  {
    if s == [] || now < s[0].expire then 0 else 1 + Expired(s[1..], now)
  }

  /** Insertion at any place that is behind all entries not later and before all later ones. */
  lemma {:induction false} InsertAt<T>(s: seq<Entry<T>>, e: Entry<T>, k: nat)
    requires k <= |s|
    requires forall i :: 0 <= i < k ==> s[i].expire <= e.expire
    requires k < |s| ==> e.expire < s[k].expire
    ensures Insert(s, e) == s[..k] + [e] + s[k..]
  {
    if k > 0 {
      InsertAt(s[1..], e, k - 1);
      assert s[1..][k - 1..] == s[k..];
      assert s[..k] == [s[0]] + s[1..][..k - 1];
    } else {
      assert s[..0] == [] && s[0..] == s;
    }
  }

  lemma SameBesides<T>(a: seq<T>, e: T, b: seq<T>)
    ensures multiset(a + [e] + b) == multiset(a + b) + multiset{e}
  {
  }

  lemma PutBetween<T>(a: seq<Entry<T>>, e: Entry<T>, b: seq<Entry<T>>)
    requires Sorted(a + b)
    requires forall i :: 0 <= i < |a| ==> a[i].expire <= e.expire
    requires forall i :: 0 <= i < |b| ==> e.expire < b[i].expire
    ensures Sorted(a + [e] + b)
  {
    var r := a + [e] + b;
    var s := a + b;
    forall i, j | 0 <= i < j < |r| ensures r[i].expire <= r[j].expire {
      if i < |a| && j > |a| {
        assert s[i].expire <= s[j - 1].expire;
      } else if i != |a| && j != |a| {
        var d := if i < |a| then 0 else 1;
        assert s[i - d].expire <= s[j - d].expire;
      }
    }
  }

  /** Insertion keeps the order and every entry, and puts the new one behind those not later. */
  lemma InsertSorted<T>(s: seq<Entry<T>>, e: Entry<T>)
    requires Sorted(s)
    ensures Sorted(Insert(s, e)) && multiset(Insert(s, e)) == multiset(s) + multiset{e}
    ensures var k := Expired(s, e.expire); Insert(s, e) == s[..k] + [e] + s[k..]
  {
    hide Insert, Expired;
    var k := Expired(s, e.expire);
    ExpiredSplits(s, e.expire);
    InsertAt(s, e, k);
    var front, back := s[..k], s[k..];
    assert s == front + back;
    PutBetween(front, e, back);
    SameBesides(front, e, back);
    hide Sorted;
  }

  /** In a sorted list the neighbours of a place tell that it is the right one. */
  lemma InsertHere<T>(s: seq<Entry<T>>, e: Entry<T>, k: nat)
    requires Sorted(s) && k <= |s|
    requires (k > 0 ==> s[k - 1].expire <= e.expire) && (k < |s| ==> e.expire < s[k].expire)
    ensures Insert(s, e) == s[..k] + [e] + s[k..] && Sorted(Insert(s, e))
  {
    InsertAt(s, e, k);
    InsertSorted(s, e);
  }

  lemma {:induction false} RemoveAt<T>(s: seq<Entry<T>>, k: nat)
    requires k < |s| && forall i :: 0 <= i < k ==> s[i].item != s[k].item
    ensures Remove(s, s[k].item) == s[..k] + s[k + 1..]
  {
    if k == 0 {
    } else {
      RemoveAt(s[1..], k - 1);
      assert s[1..][k - 1 + 1..] == s[k + 1..];
      assert s[..k] == [s[0]] + s[1..][..k - 1];
    }
  }

  predicate Distinct<T(==)>(s: seq<Entry<T>>) {
    forall i, j :: 0 <= i < j < |s| ==> s[i].item != s[j].item
  }

  /** Taking the one late entry out leaves a sorted list. */
  lemma RemoveLate<T>(s: seq<Entry<T>>, k: nat)
    requires k < |s| && Distinct(s) && (Sorted(s) || SortedBut(s, s[k].item))
    ensures Remove(s, s[k].item) == s[..k] + s[k + 1..] && Sorted(Remove(s, s[k].item))
  {
    RemoveAt(s, k);
  }

  /** An entry that is not later than its successor is where removal and insertion put it. */
  lemma StaysInPlace<T>(s: seq<Entry<T>>, k: nat)
    requires k < |s| && Distinct(s) && SortedBut(s, s[k].item)
    requires k + 1 < |s| ==> s[k].expire < s[k + 1].expire
    ensures s == Insert(Remove(s, s[k].item), s[k]) && Sorted(s)
  {
    hide Insert, Remove, Sorted;
    RemoveLate(s, k);
    var rest := s[..k] + s[k + 1..];
    assert k < |rest| ==> rest[k] == s[k + 1];
    assert k > 0 ==> rest[k - 1] == s[k - 1] && s[k - 1].item != s[k].item;
    InsertHere(rest, s[k], k);
    OutAndIn(s, k);
  }

  lemma OutAndIn<T>(s: seq<T>, k: nat)
    requires k < |s|
    ensures var rest := s[..k] + s[k + 1..]; s == rest[..k] + [s[k]] + rest[k..]
  {
    var rest := s[..k] + s[k + 1..];
    assert rest[..k] == s[..k] && rest[k..] == s[k + 1..];
  }

  /** Adjusting loses nothing and doubles nothing. */
  lemma AdjustKeepsAll<T>(s: seq<Entry<T>>, k: nat, e: Entry<T>)
    requires k < |s| && Distinct(s) && (Sorted(s) || SortedBut(s, s[k].item)) && e.item == s[k].item
    ensures var r := Insert(Remove(s, e.item), e);
            Sorted(r) && multiset(r) == multiset(s) - multiset{s[k]} + multiset{e}
  {
    RemoveLate(s, k);
    InsertSorted(Remove(s, e.item), e);
    hide Insert, Remove, Sorted, SortedBut, Distinct;
    OneExchanged(s, k, e, Insert(Remove(s, e.item), e));
  }

  lemma OneExchanged<T>(s: seq<T>, k: nat, e: T, r: seq<T>)
    requires k < |s| && multiset(r) == multiset(s[..k] + s[k + 1..]) + multiset{e}
    ensures multiset(r) == multiset(s) - multiset{s[k]} + multiset{e}
  {
    SameBesides(s[..k], s[k], s[k + 1..]);
    assert s == s[..k] + [s[k]] + s[k + 1..];
  }

  /** With all other entries not later, insertion is appending. */
  lemma InsertLatest<T>(s: seq<Entry<T>>, e: Entry<T>)
    requires forall i :: 0 <= i < |s| ==> s[i].expire <= e.expire
    ensures Insert(s, e) == s + [e]
  {
    InsertAt(s, e, |s|);
  }

  lemma {:induction false} ExpiredIs<T>(s: seq<Entry<T>>, now: int, k: nat)
    requires k <= |s| && (forall i :: 0 <= i < k ==> s[i].expire <= now) && (k < |s| ==> now < s[k].expire)
    ensures Expired(s, now) == k
  {
    if k == 0 {
    } else {
      ExpiredIs(s[1..], now, k - 1);
    }
  }

  lemma NextOf<T>(s: seq<T>, k: nat)
    requires k < |s|
    ensures s[k..][0] == s[k] && s[k..][1..] == s[k + 1..] && s[..k] + [s[k]] == s[..k + 1]
  {
  }

  lemma SortedTail<T>(s: seq<Entry<T>>, k: nat)
    requires Sorted(s) && k <= |s|
    ensures Sorted(s[k..])
  {
  }

  /** In a sorted list the expired entries are exactly those up to the first unexpired one. */
  lemma ExpiredSplits<T>(s: seq<Entry<T>>, now: int)
    requires Sorted(s)
    ensures forall i :: 0 <= i < |s| ==> (i < Expired(s, now) <==> s[i].expire <= now)
  {
  }
}
