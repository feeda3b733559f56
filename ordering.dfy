/** Python's ordering of sort keys and its stable `sorted(..., key=...,
    reverse=...)`, written as decorate-sort-undecorate: callers pair each
    element with its key, sort the pairs, and drop the keys. */
module Ordering {

  /** The keys the pages sort by: `datetime.min`, a datetime, or a string. */
  datatype Key = Least | Stamp(t: int) | Text(s: string)

  /** Python's `a <= b` on strings: lexicographic by code point. */
  predicate LexLe(a: string, b: string) {
    a == [] || (b != [] && (a[0] < b[0] || (a[0] == b[0] && LexLe(a[1..], b[1..]))))
  }

  lemma {:induction false} LexLeTotal(a: string, b: string)
    ensures LexLe(a, b) || LexLe(b, a)
  {
    if a != [] && b != [] && a[0] == b[0] {
      LexLeTotal(a[1..], b[1..]);
    }
  }

  lemma {:induction false} LexLeAntisymmetric(a: string, b: string)
    requires LexLe(a, b) && LexLe(b, a)
    ensures a == b
  {
    if a != [] && b != [] {
      LexLeAntisymmetric(a[1..], b[1..]);
      assert a == [a[0]] + a[1..] && b == [b[0]] + b[1..];
    }
  }

  lemma {:induction false} LexLeTransitive(a: string, b: string, c: string)
    requires LexLe(a, b) && LexLe(b, c)
    ensures LexLe(a, c)
  {
    if a != [] && b != [] && c != [] && a[0] == b[0] == c[0] {
      LexLeTransitive(a[1..], b[1..], c[1..]);
    }
  }

  /** Python's `a <= b` on keys. Datetimes compare with datetimes and
      strings with strings; `datetime.min` is below every datetime. The
      order between the two kinds is arbitrary: Python refuses to compare
      them (see Comparable). */
  predicate KeyLe(a: Key, b: Key) {
    match (a, b)
    case (Least, _) => true
    case (Stamp(x), Stamp(y)) => x <= y
    case (Stamp(_), Text(_)) => true
    case (Text(x), Text(y)) => LexLe(x, y)
    case _ => false
  }

  /** KeyLe is a total order. */
  lemma KeyLeTotalOrder(a: Key, b: Key, c: Key)
    ensures KeyLe(a, a)
    ensures KeyLe(a, b) || KeyLe(b, a)
    ensures KeyLe(a, b) && KeyLe(b, a) ==> a == b
    ensures KeyLe(a, b) && KeyLe(b, c) ==> KeyLe(a, c)
  {
    if a.Text? {
      LexLeTotal(a.s, a.s);
      if b.Text? {
        LexLeTotal(a.s, b.s);
        if KeyLe(a, b) && KeyLe(b, a) { LexLeAntisymmetric(a.s, b.s); }
        if c.Text? && KeyLe(a, b) && KeyLe(b, c) { LexLeTransitive(a.s, b.s, c.s); }
      }
    }
  }

  /** Python can compare the two keys: both are datetimes or both strings. */
  predicate Comparable(a: Key, b: Key) {
    a.Text? == b.Text?
  }

  /** Every two keys of the list can be compared, so sorting does not raise. */
  predicate Homogeneous<T>(s: seq<(Key, T)>) {
    forall i, j :: 0 <= i < |s| && 0 <= j < |s| ==> Comparable(s[i].0, s[j].0)
  }

  /** Whether a key may stand before another in the result of a sort in the
      given direction. */
  predicate Precedes(a: Key, b: Key, descending: bool) {
    if descending then KeyLe(b, a) else KeyLe(a, b)
  }

  /** Places x before the first element it may precede. */
  function Insert<T>(x: (Key, T), s: seq<(Key, T)>, descending: bool): (r: seq<(Key, T)>)
    ensures |r| == |s| + 1
  {
    if s == [] || Precedes(x.0, s[0].0, descending) then [x] + s
    else [s[0]] + Insert(x, s[1..], descending)
  }

  /** `sorted(s, key=..., reverse=descending)`: a stable insertion sort. */
  function SortByKey<T>(s: seq<(Key, T)>, descending: bool): (r: seq<(Key, T)>)
    ensures |r| == |s|
  {
    if s == [] then [] else Insert(s[0], SortByKey(s[1..], descending), descending)
  }

  predicate SortedBy<T>(s: seq<(Key, T)>, descending: bool) {
    forall i, j :: 0 <= i < j < |s| ==> Precedes(s[i].0, s[j].0, descending)
  }

  /** The elements of s with key k, in their order in s. */
  function WithKey<T>(s: seq<(Key, T)>, k: Key): (r: seq<(Key, T)>)
    ensures |r| <= |s|
  {
    if s == [] then []
    else if s[0].0 == k then [s[0]] + WithKey(s[1..], k)
    else WithKey(s[1..], k)
  }

  /** Inserting adds x and keeps every other element. */
  lemma {:induction false} InsertPermutes<T>(x: (Key, T), s: seq<(Key, T)>, descending: bool)
    ensures multiset(Insert(x, s, descending)) == multiset(s) + multiset{x}
  {
    if !(s == [] || Precedes(x.0, s[0].0, descending)) {
      InsertPermutes(x, s[1..], descending);
      assert s == [s[0]] + s[1..];
    }
  }

  /** An element that may precede the head of a sorted list may precede all of it. */
  lemma PrependSorted<T>(x: (Key, T), s: seq<(Key, T)>, descending: bool)
    requires SortedBy(s, descending) && (s == [] || Precedes(x.0, s[0].0, descending))
    ensures SortedBy([x] + s, descending)
  {
    forall j | 0 < j < |s| + 1
      ensures Precedes(x.0, ([x] + s)[j].0, descending)
    {
      KeyLeTotalOrder(x.0, s[0].0, s[j - 1].0);
      KeyLeTotalOrder(s[j - 1].0, s[0].0, x.0);
    }
  }

  lemma {:induction false} InsertSorted<T>(x: (Key, T), s: seq<(Key, T)>, descending: bool)
    requires SortedBy(s, descending)
    ensures SortedBy(Insert(x, s, descending), descending)
  {
    if s == [] || Precedes(x.0, s[0].0, descending) {
      PrependSorted(x, s, descending);
    } else {
      var t := Insert(x, s[1..], descending);
      InsertSorted(x, s[1..], descending);
      InsertPermutes(x, s[1..], descending);
      KeyLeTotalOrder(x.0, s[0].0, x.0);
      forall j | 0 <= j < |t|
        ensures Precedes(s[0].0, t[j].0, descending)
      {
        assert t[j] in multiset(t);
        if t[j] != x {
          assert t[j] in multiset(s[1..]);
          var m :| 0 <= m < |s[1..]| && s[1..][m] == t[j];
          assert s[m + 1] == t[j];
        }
      }
      PrependSorted(s[0], t, descending);
    }
  }

  /** The sort orders its result by key in the requested direction. */
  lemma {:induction false} SortByKeySorted<T>(s: seq<(Key, T)>, descending: bool)
    ensures SortedBy(SortByKey(s, descending), descending)
    ensures multiset(SortByKey(s, descending)) == multiset(s)
  {
    if s != [] {
      SortByKeySorted(s[1..], descending);
      InsertSorted(s[0], SortByKey(s[1..], descending), descending);
      InsertPermutes(s[0], SortByKey(s[1..], descending), descending);
      assert s == [s[0]] + s[1..];
    }
  }

  lemma {:induction false} InsertWithKey<T>(x: (Key, T), s: seq<(Key, T)>, k: Key, descending: bool)
    ensures WithKey(Insert(x, s, descending), k) ==
            if x.0 == k then [x] + WithKey(s, k) else WithKey(s, k)
  {
    if s == [] || Precedes(x.0, s[0].0, descending) {
      assert ([x] + s)[1..] == s;
    } else {
      InsertWithKey(x, s[1..], k, descending);
      KeyLeTotalOrder(x.0, x.0, x.0);
      assert s[0].0 != x.0;
      assert ([s[0]] + Insert(x, s[1..], descending))[1..] == Insert(x, s[1..], descending);
    }
  }

  /** The sort is stable: the elements with any one key keep their order. */
  lemma {:induction false} SortByKeyStable<T>(s: seq<(Key, T)>, k: Key, descending: bool)
    ensures WithKey(SortByKey(s, descending), k) == WithKey(s, k)
  {
    if s != [] {
      SortByKeyStable(s[1..], k, descending);
      InsertWithKey(s[0], SortByKey(s[1..], descending), k, descending);
    }
  }

  /** The values of a list of (key, value) pairs: the undecorate step. */
  function Values<T>(s: seq<(Key, T)>): (r: seq<T>)
    ensures |r| == |s|
    ensures forall i :: 0 <= i < |s| ==> r[i] == s[i].1
  {
    if s == [] then [] else [s[0].1] + Values(s[1..])
  }

  lemma ValuesConcat<T>(x: seq<(Key, T)>, y: seq<(Key, T)>)
    ensures Values(x + y) == Values(x) + Values(y)
  {
    assert forall i :: 0 <= i < |x + y| ==> Values(x + y)[i] == (Values(x) + Values(y))[i];
  }

  /** Taking one element out of a list takes its value out of the values. */
  lemma ValuesRemove<T>(b: seq<(Key, T)>, k: nat)
    requires k < |b|
    ensures multiset(Values(b)) == multiset(Values(b[..k] + b[k + 1..])) + multiset{b[k].1}
  {
    var v := Values(b);
    ValuesDrop(b, k);
    RemoveMultiset(v, k);
    assert v[k] in multiset(v);
  }

  /** Dropping one pair drops its value. */
  lemma ValuesDrop<T>(b: seq<(Key, T)>, k: nat)
    requires k < |b|
    ensures Values(b[..k] + b[k + 1..]) == Values(b)[..k] + Values(b)[k + 1..]
  {
    var v := Values(b);
    var rest := b[..k] + b[k + 1..];
    forall i | 0 <= i < |rest| ensures Values(rest)[i] == (v[..k] + v[k + 1..])[i] {
      if i < k {
        assert rest[i] == b[i];
      } else {
        assert rest[i] == b[i + 1];
      }
    }
  }

  lemma RemoveMultiset<T>(b: seq<T>, k: nat)
    requires k < |b|
    ensures multiset(b[..k] + b[k + 1..]) == multiset(b) - multiset{b[k]}
  {
    assert b == b[..k] + [b[k]] + b[k + 1..];
  }

  /** Undecorating a permutation gives a permutation. */
  lemma {:induction false} ValuesMultiset<T>(a: seq<(Key, T)>, b: seq<(Key, T)>)
    requires multiset(a) == multiset(b)
    ensures multiset(Values(a)) == multiset(Values(b))
    decreases |a|
  {
    if a == [] {
      assert |b| == |multiset(b)| == 0;
    } else {
      assert a[0] in multiset(b);
      var k :| 0 <= k < |b| && b[k] == a[0];
      RestMultiset(a, b, k);
      ValuesMultiset(a[1..], b[..k] + b[k + 1..]);
      ValuesStep(a, b, k);
    }
  }

  /** Taking the same element out of two permutations leaves permutations. */
  lemma RestMultiset<T>(a: seq<T>, b: seq<T>, k: nat)
    requires multiset(a) == multiset(b) && a != [] && k < |b| && b[k] == a[0]
    ensures multiset(a[1..]) == multiset(b[..k] + b[k + 1..])
  {
    RemoveMultiset(b, k);
    assert a == [a[0]] + a[1..];
  }

  /** Putting the same value back into two lists of values with equal
      multisets keeps them equal. */
  lemma ValuesStep<T>(a: seq<(Key, T)>, b: seq<(Key, T)>, k: nat)
    requires a != [] && k < |b| && b[k] == a[0]
    requires multiset(Values(a[1..])) == multiset(Values(b[..k] + b[k + 1..]))
    ensures multiset(Values(a)) == multiset(Values(b))
  {
    assert Values(a) == [a[0].1] + Values(a[1..]);
    ValuesRemove(b, k);
  }
}
