/**
 * `Array.prototype.sort` with a comparator that orders elements by a string
 * key, ascending (`(a, b) => key(a).localeCompare(key(b))`) or descending
 * (`(a, b) => key(b).localeCompare(key(a))`). The sort is stable, as the
 * ECMAScript standard requires since its 2019 edition; it is modelled as an
 * insertion sort that puts an element before every later element whose key
 * it does not follow.
 */
module Sorting {
  import opened Text

  /** A key `x` may precede a key `y` in the requested direction. */
  predicate InOrder(x: string, y: string, descending: bool)
  {
    if descending then LessEq(y, x) else LessEq(x, y)
  }

  /** Every pair of positions is in the requested order by key. */
  predicate SortedBy<T>(s: seq<T>, key: T -> string, descending: bool)
  {
    forall i, j :: 0 <= i < j < |s| ==> InOrder(key(s[i]), key(s[j]), descending)
  }

  lemma InOrderTransitive(x: string, y: string, z: string, descending: bool)
    requires InOrder(x, y, descending) && InOrder(y, z, descending)
    ensures InOrder(x, z, descending)
  {
    if x != y && y != z {
      if descending {
        LessTransitive(z, y, x);
      } else {
        LessTransitive(x, y, z);
      }
    }
  }

  lemma InOrderTotal(x: string, y: string, descending: bool)
    ensures InOrder(x, y, descending) || InOrder(y, x, descending)
  {
    LessTrichotomy(x, y);
  }

  lemma InOrderAntisymmetric(x: string, y: string, descending: bool)
    requires InOrder(x, y, descending) && InOrder(y, x, descending)
    ensures x == y
  {
    if x != y {
      LessAsymmetric(x, y);
    }
  }

  /** Places `x` in front of the first element whose key it may precede. */
  function Insert<T>(x: T, s: seq<T>, key: T -> string, descending: bool): (r: seq<T>)
    ensures multiset(r) == multiset(s) + multiset{x}
    ensures |r| == |s| + 1
  {
    if |s| == 0 then [x]
    else if InOrder(key(x), key(s[0]), descending) then [x] + s
    else
      assert s == [s[0]] + s[1..];
      [s[0]] + Insert(x, s[1..], key, descending)
  }

  /** The sorted copy of `s`: the same elements, ordered by key. */
  function SortBy<T>(s: seq<T>, key: T -> string, descending: bool): (r: seq<T>)
    ensures multiset(r) == multiset(s)
    ensures |r| == |s|
  {
    if |s| == 0 then []
    else
      assert s == [s[0]] + s[1..];
      Insert(s[0], SortBy(s[1..], key, descending), key, descending)
  }

  /** The sort of a non-empty sequence inserts its head into its sorted tail. */
  lemma SortCons<T>(x: T, s: seq<T>, key: T -> string, descending: bool)
    ensures SortBy([x] + s, key, descending) == Insert(x, SortBy(s, key, descending), key, descending)
  {
    assert ([x] + s)[1..] == s;
  }

  /** An element that may precede the head is placed in front. */
  lemma InsertHere<T>(x: T, y: T, s: seq<T>, key: T -> string, descending: bool)
    requires InOrder(key(x), key(y), descending)
    ensures Insert(x, [y] + s, key, descending) == [x] + ([y] + s)
  {
  }

  /** An element that may not precede the head is placed after it. */
  lemma InsertLater<T>(x: T, y: T, s: seq<T>, key: T -> string, descending: bool)
    requires !InOrder(key(x), key(y), descending)
    ensures Insert(x, [y] + s, key, descending) == [y] + Insert(x, s, key, descending)
  {
    assert ([y] + s)[1..] == s;
  }

  lemma {:induction false} InsertKeepsSorted<T>(x: T, s: seq<T>, key: T -> string, descending: bool)
    requires SortedBy(s, key, descending)
    ensures SortedBy(Insert(x, s, key, descending), key, descending)
    decreases |s|
  {
    var r := Insert(x, s, key, descending);
    if |s| == 0 {
    } else if InOrder(key(x), key(s[0]), descending) {
      forall i, j | 0 <= i < j < |r|
        ensures InOrder(key(r[i]), key(r[j]), descending)
      {
        if i == 0 && j > 1 {
          InOrderTransitive(key(x), key(s[0]), key(s[j - 1]), descending);
        }
      }
    } else {
      InOrderTotal(key(x), key(s[0]), descending);
      var rest := Insert(x, s[1..], key, descending);
      InsertKeepsSorted(x, s[1..], key, descending);
      forall j | 0 <= j < |rest|
        ensures InOrder(key(s[0]), key(rest[j]), descending)
      {
        assert rest[j] in multiset(rest);
        assert rest[j] in multiset(s[1..]) || rest[j] == x;
        if rest[j] != x {
          var k :| 0 <= k < |s[1..]| && s[1..][k] == rest[j];
          assert s[k + 1] == rest[j];
        }
      }
      forall i, j | 0 <= i < j < |r|
        ensures InOrder(key(r[i]), key(r[j]), descending)
      {
        if i > 0 {
          assert r[i] == rest[i - 1] && r[j] == rest[j - 1];
        } else {
          assert r[j] == rest[j - 1];
        }
      }
    }
  }

  lemma {:induction false} SortBySorted<T>(s: seq<T>, key: T -> string, descending: bool)
    ensures SortedBy(SortBy(s, key, descending), key, descending)
    decreases |s|
  {
    if |s| > 0 {
      SortBySorted(s[1..], key, descending);
      InsertKeepsSorted(s[0], SortBy(s[1..], key, descending), key, descending);
    }
  }

  /** Removing the first element of equal sequences' multisets leaves equal multisets. */
  lemma TailMultisets<T>(a: seq<T>, b: seq<T>)
    requires |a| > 0 && |b| > 0 && a[0] == b[0] && multiset(a) == multiset(b)
    ensures multiset(a[1..]) == multiset(b[1..])
  {
    assert a == [a[0]] + a[1..] && b == [b[0]] + b[1..];
    assert multiset(a[1..]) == multiset(a) - multiset{a[0]};
    assert multiset(b[1..]) == multiset(b) - multiset{b[0]};
  }

  /** The first element of a sorted sequence may precede every element. */
  lemma HeadLeads<T>(a: seq<T>, key: T -> string, descending: bool, k: nat)
    requires SortedBy(a, key, descending) && k < |a|
    ensures InOrder(key(a[0]), key(a[k]), descending)
  {
  }

  /**
   * Two sorted arrangements of the same elements coincide, provided no two
   * distinct elements share a key: the result of the sort is determined by
   * its input's contents.
   */
  lemma {:induction false} SortedArrangementUnique<T>(a: seq<T>, b: seq<T>, key: T -> string, descending: bool)
    requires SortedBy(a, key, descending) && SortedBy(b, key, descending)
    requires multiset(a) == multiset(b)
    requires forall i, j :: 0 <= i < |a| && 0 <= j < |a| && key(a[i]) == key(a[j]) ==> a[i] == a[j]
    ensures a == b
    decreases |a|
  {
    assert |a| == |multiset(a)| == |multiset(b)| == |b|;
    if |a| > 0 {
      assert b[0] in multiset(a);
      var k :| 0 <= k < |a| && a[k] == b[0];
      assert a[0] in multiset(b);
      var m :| 0 <= m < |b| && b[m] == a[0];
      HeadLeads(a, key, descending, k);
      HeadLeads(b, key, descending, m);
      InOrderAntisymmetric(key(a[0]), key(b[0]), descending);
      assert a[0] == b[0];
      TailMultisets(a, b);
      var a', b' := a[1..], b[1..];
      assert SortedBy(a', key, descending) by {
        forall i, j | 0 <= i < j < |a'| ensures InOrder(key(a'[i]), key(a'[j]), descending) {
          assert a'[i] == a[i + 1] && a'[j] == a[j + 1];
        }
      }
      assert SortedBy(b', key, descending) by {
        forall i, j | 0 <= i < j < |b'| ensures InOrder(key(b'[i]), key(b'[j]), descending) {
          assert b'[i] == b[i + 1] && b'[j] == b[j + 1];
        }
      }
      forall i, j | 0 <= i < |a'| && 0 <= j < |a'| && key(a'[i]) == key(a'[j])
        ensures a'[i] == a'[j]
      {
        assert a'[i] == a[i + 1] && a'[j] == a[j + 1];
      }
      SortedArrangementUnique(a', b', key, descending);
      assert a == [a[0]] + a' && b == [b[0]] + b';
    }
  }
}
