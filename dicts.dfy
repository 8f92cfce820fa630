/** Python dictionaries of request parameters, in insertion order, with the three
    operations the adapter applies to them: item assignment, the framework's `extend`
    (a left-to-right `update`), and `keysort` (the items sorted by key). */
module Dicts {
  import opened Base
  import opened Text

  /** The items of a dictionary in insertion order. */
  type Dict = seq<(string, Value)>

  /** `d.get(k)`. */
  function Get(d: Dict, k: string): Option<Value>
  {
    if d == [] then None else if d[0].0 == k then Some(d[0].1) else Get(d[1..], k)
  }

  predicate HasKey(d: Dict, k: string)
  {
    Get(d, k).Some?
  }

  /** Every key occurs once, as in every Python dictionary. */
  predicate DistinctKeys(d: Dict)
  {
    d == [] || (!HasKey(d[1..], d[0].0) && DistinctKeys(d[1..]))
  }

  /** `d[k] = v`: an existing key keeps its position and takes the new value,
      a new key is added at the end. */
  function Put(d: Dict, k: string, v: Value): (r: Dict)
    ensures forall k' :: Get(r, k') == if k' == k then Some(v) else Get(d, k')
    ensures HasKey(d, k) ==> |r| == |d|
    ensures !HasKey(d, k) ==> r == d + [(k, v)]
    ensures DistinctKeys(d) ==> DistinctKeys(r)
    ensures DistinctKeys(d) ==> forall i :: 0 <= i < |d| ==> r[i] == if d[i].0 == k then (k, v) else d[i]
  {
    if d == [] then [(k, v)]
    else if d[0].0 == k then
      KeyOnce(d);
      [(k, v)] + d[1..]
    else [d[0]] + Put(d[1..], k, v)
  }

  /** In a dictionary with distinct keys the first key occurs nowhere else. */
  lemma KeyOnce(d: Dict)
    ensures DistinctKeys(d) && d != [] ==> forall i :: 1 <= i < |d| ==> d[i].0 != d[0].0
  {
    if DistinctKeys(d) && d != [] {
      forall i | 1 <= i < |d| ensures d[i].0 != d[0].0 {
        AtKey(d[1..], i - 1);
      }
    }
  }

  /** `extend(d, e)`: the items of `e` assigned into `d` one after another, so that
      a key of `e` overrides the same key of `d`. */
  function Extend(d: Dict, e: Dict): (r: Dict)
    requires DistinctKeys(e)
    ensures forall k :: Get(r, k) == if HasKey(e, k) then Get(e, k) else Get(d, k)
    ensures DistinctKeys(d) ==> DistinctKeys(r)
    decreases |e|
  {
    if e == [] then d else Extend(Put(d, e[0].0, e[0].1), e[1..])
  }

  /** Assigning a key into a dictionary with the same contents as another gives that key
      the new value and every other key the other's value; a fresh key goes at the end. */
  lemma PutOver(sorted: Dict, params: Dict, key: string, v: Value)
    requires forall k :: Get(sorted, k) == Get(params, k)
    ensures Get(Put(sorted, key, v), key) == Some(v)
    ensures forall k :: k != key ==> Get(Put(sorted, key, v), k) == Get(params, k)
    ensures !HasKey(params, key) ==> Put(sorted, key, v) == sorted + [(key, v)]
  {
    assert HasKey(sorted, key) == HasKey(params, key);
  }

  /** A dictionary display followed by conditional item assignments: each present item is
      assigned in order, and an absent one stands for an assignment whose condition did not
      hold. */
  function Assign(items: seq<(string, Option<Value>)>): Dict
    decreases |items|
  {
    if items == [] then []
    else
      var d := Assign(items[..|items| - 1]);
      var last := items[|items| - 1];
      if last.1.Some? then Put(d, last.0, last.1.value) else d
  }

  predicate DistinctItemKeys(items: seq<(string, Option<Value>)>)
  {
    forall i, j :: 0 <= i < j < |items| ==> items[i].0 != items[j].0
  }

  /** With distinct keys, each item's key holds exactly that item's value (none when absent),
      and no other key is present. */
  lemma {:induction false} AssignContents(items: seq<(string, Option<Value>)>)
    requires DistinctItemKeys(items)
    ensures DistinctKeys(Assign(items))
    ensures forall i :: 0 <= i < |items| ==> Get(Assign(items), items[i].0) == items[i].1
    ensures forall k :: (forall i :: 0 <= i < |items| ==> items[i].0 != k) ==> Get(Assign(items), k) == None
    decreases |items|
  {
    if items != [] {
      var init := items[..|items| - 1];
      assert DistinctItemKeys(init) by {
        forall i, j | 0 <= i < j < |init| ensures init[i].0 != init[j].0 {
          assert init[i] == items[i] && init[j] == items[j];
        }
      }
      AssignContents(init);
      forall i | 0 <= i < |items| - 1 ensures items[i].0 != items[|items| - 1].0 && init[i] == items[i] {
      }
    }
  }

  /** `d[k1] = v1` when there is a `v1`, then `d[k2] = v2`. */
  function PutBoth(d: Dict, k1: string, v1: Option<Value>, k2: string, v2: Value): Dict
  {
    Put(if v1.Some? then Put(d, k1, v1.value) else d, k2, v2)
  }

  lemma PutBothContents(d: Dict, k1: string, v1: Option<Value>, k2: string, v2: Value)
    requires DistinctKeys(d) && k1 != k2
    ensures DistinctKeys(PutBoth(d, k1, v1, k2, v2))
    ensures Get(PutBoth(d, k1, v1, k2, v2), k2) == Some(v2)
    ensures Get(PutBoth(d, k1, v1, k2, v2), k1) == if v1.Some? then v1 else Get(d, k1)
    ensures forall k :: k != k1 && k != k2 ==> Get(PutBoth(d, k1, v1, k2, v2), k) == Get(d, k)
  {
  }

  /** Sorting after two assignments keeps both assigned values and every other key. */
  lemma SortedPutBoth(d: Dict, k1: string, v1: Option<Value>, k2: string, v2: Value, other: string)
    requires DistinctKeys(d) && k1 != k2 && other != k1 && other != k2
    ensures DistinctKeys(PutBoth(d, k1, v1, k2, v2))
    ensures Get(KeySort(PutBoth(d, k1, v1, k2, v2)), k2) == Some(v2)
    ensures v1.Some? ==> Get(KeySort(PutBoth(d, k1, v1, k2, v2)), k1) == v1
    ensures Get(KeySort(PutBoth(d, k1, v1, k2, v2)), other) == Get(d, other)
  {
    PutBothContents(d, k1, v1, k2, v2);
    KeySortCorrect(PutBoth(d, k1, v1, k2, v2));
  }

  /** Keys in strictly increasing order (which also makes them distinct). */
  predicate StrictlySorted(d: Dict)
  {
    forall i, j :: 0 <= i < j < |d| ==> Before(d[i].0, d[j].0)
  }

  /** One step of insertion sort by key. */
  function Insert(p: (string, Value), s: Dict): Dict
  {
    if s == [] then [p] else if Before(p.0, s[0].0) then [p] + s else [s[0]] + Insert(p, s[1..])
  }

  /** `keysort(d)`: the items of `d` ordered by key. */
  function KeySort(d: Dict): Dict
  {
    if d == [] then [] else Insert(d[0], KeySort(d[1..]))
  }

  /** Every key of a dictionary sits at some position. */
  lemma {:induction false} KeyAt(d: Dict, k: string)
    requires HasKey(d, k)
    ensures exists i :: 0 <= i < |d| && d[i].0 == k
  {
    if d[0].0 != k {
      KeyAt(d[1..], k);
      var i :| 0 <= i < |d[1..]| && d[1..][i].0 == k;
      assert d[i + 1].0 == k;
    }
  }

  /** A key found at some position is a key of the dictionary. */
  lemma {:induction false} AtKey(d: Dict, i: nat)
    requires i < |d|
    ensures HasKey(d, d[i].0)
  {
    if i > 0 && d[0].0 != d[i].0 {
      AtKey(d[1..], i - 1);
    }
  }

  /** In a strictly sorted dictionary the first key precedes every other key. */
  lemma SortedHead(s: Dict, k: string)
    requires StrictlySorted(s) && s != [] && HasKey(s[1..], k)
    ensures Before(s[0].0, k)
  {
    KeyAt(s[1..], k);
    var i :| 0 <= i < |s[1..]| && s[1..][i].0 == k;
    assert s[i + 1].0 == k;
  }

  /** Inserting an item with a new key adds exactly that item, and keeps strict order. */
  lemma InsertCorrect(p: (string, Value), s: Dict)
    requires !HasKey(s, p.0)
    ensures forall k :: Get(Insert(p, s), k) == if k == p.0 then Some(p.1) else Get(s, k)
    ensures multiset(Insert(p, s)) == multiset(s) + multiset{p}
    ensures StrictlySorted(s) ==> StrictlySorted(Insert(p, s))
  {
    InsertContents(p, s);
    InsertItems(p, s);
    if StrictlySorted(s) {
      InsertSorted(p, s);
    }
  }

  lemma {:induction false} InsertContents(p: (string, Value), s: Dict)
    requires !HasKey(s, p.0)
    ensures forall k :: Get(Insert(p, s), k) == if k == p.0 then Some(p.1) else Get(s, k)
    decreases |s|
  {
    if s != [] && !Before(p.0, s[0].0) {
      InsertContents(p, s[1..]);
    }
  }

  lemma {:induction false} InsertItems(p: (string, Value), s: Dict)
    ensures multiset(Insert(p, s)) == multiset(s) + multiset{p}
    decreases |s|
  {
    if s != [] && !Before(p.0, s[0].0) {
      InsertItems(p, s[1..]);
      assert s == [s[0]] + s[1..];
    }
  }

  lemma {:induction false} InsertSorted(p: (string, Value), s: Dict)
    requires !HasKey(s, p.0) && StrictlySorted(s)
    ensures StrictlySorted(Insert(p, s))
    decreases |s|
  {
    if s != [] && !Before(p.0, s[0].0) {
      var t := Insert(p, s[1..]);
      assert StrictlySorted(s[1..]);
      InsertSorted(p, s[1..]);
      InsertContents(p, s[1..]);
      assert Insert(p, s) == [s[0]] + t;
      BeforeTotal(p.0, s[0].0);
      forall i, j | 0 <= i < j < |[s[0]] + t|
        ensures Before(([s[0]] + t)[i].0, ([s[0]] + t)[j].0)
      {
        if i == 0 {
          var k := t[j - 1].0;
          AtKey(t, j - 1);
          if k != p.0 {
            SortedHead(s, k);
          }
        }
      }
    } else if s != [] {
      forall j | 1 <= j < |[p] + s| ensures Before(p.0, ([p] + s)[j].0) {
        if j > 1 {
          BeforeTransitive(p.0, s[0].0, s[j - 1].0);
        }
      }
    }
  }

  /** `keysort` keeps every item, changes no value, and orders the keys strictly. */
  lemma {:induction false} KeySortCorrect(d: Dict)
    requires DistinctKeys(d)
    ensures forall k :: Get(KeySort(d), k) == Get(d, k)
    ensures multiset(KeySort(d)) == multiset(d)
    ensures StrictlySorted(KeySort(d))
    ensures DistinctKeys(KeySort(d))
  {
    if d != [] {
      KeySortCorrect(d[1..]);
      InsertCorrect(d[0], KeySort(d[1..]));
      assert d == [d[0]] + d[1..];
    }
    SortedDistinct(KeySort(d));
  }

  /** Strictly sorted keys are distinct keys. */
  lemma {:induction false} SortedDistinct(s: Dict)
    requires StrictlySorted(s)
    ensures DistinctKeys(s)
  {
    if s != [] {
      assert StrictlySorted(s[1..]);
      SortedDistinct(s[1..]);
      if HasKey(s[1..], s[0].0) {
        SortedHead(s, s[0].0);
        BeforeIrreflexive(s[0].0);
      }
    }
  }

  /** A strictly sorted dictionary is determined by its contents. */
  lemma {:induction false} SortedUnique(s1: Dict, s2: Dict)
    requires StrictlySorted(s1) && StrictlySorted(s2)
    requires forall k :: Get(s1, k) == Get(s2, k)
    ensures s1 == s2
    decreases |s1|
  {
    SortedDistinct(s1);
    SortedDistinct(s2);
    if s1 != [] && s2 != [] {
      var k1, k2 := s1[0].0, s2[0].0;
      if k1 != k2 {
        assert HasKey(s2[1..], k1) by { assert Get(s2, k1) == Get(s1, k1); }
        assert HasKey(s1[1..], k2) by { assert Get(s1, k2) == Get(s2, k2); }
        SortedHead(s2, k1);
        SortedHead(s1, k2);
        BeforeAsymmetric(k1, k2);
      }
      assert s1[0].1 == s2[0].1 by { assert Get(s1, k1) == Get(s2, k1); }
      forall k ensures Get(s1[1..], k) == Get(s2[1..], k) {
        if k != k1 {
          assert Get(s1, k) == Get(s2, k);
        }
      }
      assert StrictlySorted(s1[1..]) && StrictlySorted(s2[1..]);
      SortedUnique(s1[1..], s2[1..]);
      assert s1 == [s1[0]] + s1[1..] && s2 == [s2[0]] + s2[1..];
    } else if s1 != [] {
      assert Get(s1, s1[0].0) != Get(s2, s1[0].0);
    } else if s2 != [] {
      assert Get(s1, s2[0].0) != Get(s2, s2[0].0);
    }
  }

  /** The order in which the parameters were inserted does not reach `keysort`'s result:
      two dictionaries with the same contents sort to the same sequence. */
  lemma KeySortDeterminedByContents(d1: Dict, d2: Dict)
    requires DistinctKeys(d1) && DistinctKeys(d2)
    requires forall k :: Get(d1, k) == Get(d2, k)
    ensures KeySort(d1) == KeySort(d2)
  {
    KeySortCorrect(d1);
    KeySortCorrect(d2);
    SortedUnique(KeySort(d1), KeySort(d2));
  }
}
