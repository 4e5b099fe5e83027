/*
 * Python's `sorted(xs, key=k)` as the canonicaliser uses it
 * (intel_genxml.py): keys are element names (strings) or integer
 * attributes, compared with `<`, and the sort is stable.
 */
module GenSort {

  /** Python's `<` on `str`: code point by code point, a proper prefix
      first. */
  predicate StrLt(a: string, b: string) {
    if |a| == 0 then |b| > 0
    else if |b| == 0 then false
    else if a[0] != b[0] then a[0] < b[0]
    else StrLt(a[1..], b[1..])
  }

  lemma {:induction false} StrLtIrreflexive(a: string)
    ensures !StrLt(a, a)
  {
    if |a| > 0 {
      StrLtIrreflexive(a[1..]);
    }
  }

  lemma {:induction false} StrLtTransitive(a: string, b: string, c: string)
    requires StrLt(a, b) && StrLt(b, c)
    ensures StrLt(a, c)
  {
    if |a| > 0 && |b| > 0 && |c| > 0 && a[0] == b[0] && b[0] == c[0] {
      StrLtTransitive(a[1..], b[1..], c[1..]);
    }
  }

  lemma {:induction false} StrLtTotal(a: string, b: string)
    ensures a == b || StrLt(a, b) || StrLt(b, a)
  {
    if |a| > 0 && |b| > 0 && a[0] == b[0] {
      StrLtTotal(a[1..], b[1..]);
      if a[1..] == b[1..] {
        assert a == [a[0]] + a[1..] && b == [b[0]] + b[1..];
      }
    }
  }

  /** A sort key: an element's name or an integer attribute. */
  datatype Key = Name(s: string) | Num(n: int)

  /** `<` on sort keys.  One sort only ever compares keys of one kind;
      names are put before numbers so that the order is total. */
  predicate KeyLt(a: Key, b: Key) {
    match a
    case Name(x) => (match b case Name(y) => StrLt(x, y) case Num(_) => true)
    case Num(x) => (match b case Name(_) => false case Num(y) => x < y)
  }

  lemma KeyLtIrreflexive(a: Key)
    ensures !KeyLt(a, a)
  {
    if a.Name? {
      StrLtIrreflexive(a.s);
    }
  }

  lemma KeyLtTransitive(a: Key, b: Key, c: Key)
    requires KeyLt(a, b) && KeyLt(b, c)
    ensures KeyLt(a, c)
  {
    if a.Name? && b.Name? && c.Name? {
      StrLtTransitive(a.s, b.s, c.s);
    }
  }

  lemma KeyLtTotal(a: Key, b: Key)
    ensures a == b || KeyLt(a, b) || KeyLt(b, a)
  {
    if a.Name? && b.Name? {
      StrLtTotal(a.s, b.s);
    }
  }

  /** No element's key is below an earlier one's. */
  predicate Sorted<T>(xs: seq<(Key, T)>) {
    forall i, j :: 0 <= i < j < |xs| ==> !KeyLt(xs[j].0, xs[i].0)
  }

  /** The elements whose key is `k`, in order. */
  function WithKey<T>(xs: seq<(Key, T)>, k: Key): (r: seq<(Key, T)>)
    ensures |r| <= |xs|
  {
    if |xs| == 0 then []
    else (if xs[0].0 == k then [xs[0]] else []) + WithKey(xs[1..], k)
  }

  /** Puts `x` after every element whose key is not above its own. */
  function Insert<T>(x: (Key, T), ys: seq<(Key, T)>): (r: seq<(Key, T)>)
    ensures |r| == |ys| + 1
  {
    if |ys| == 0 then [x]
    else if KeyLt(x.0, ys[0].0) then [x] + ys
    else [ys[0]] + Insert(x, ys[1..])
  }

  /** `sorted(xs, key=...)`, on elements paired with their keys. */
  function SortByKey<T>(xs: seq<(Key, T)>): (r: seq<(Key, T)>)
    ensures |r| == |xs|
  {
    if |xs| == 0 then [] else Insert(xs[|xs| - 1], SortByKey(xs[..|xs| - 1]))
  }

  /** The elements without their keys. */
  function Items<T>(xs: seq<(Key, T)>): (r: seq<T>)
    ensures |r| == |xs| && forall i :: 0 <= i < |xs| ==> r[i] == xs[i].1
  {
    if |xs| == 0 then [] else [xs[0].1] + Items(xs[1..])
  }

  /** The sort orders by key, loses and adds nothing, and keeps the
      elements of one key in their original order: the three together
      determine a stable sort's result. */
  lemma {:induction false} SortByKeySpec<T>(xs: seq<(Key, T)>)
    ensures Sorted(SortByKey(xs))
    ensures multiset(SortByKey(xs)) == multiset(xs)
    ensures forall k :: WithKey(SortByKey(xs), k) == WithKey(xs, k)
  {
    if |xs| > 0 {
      var init, x := xs[..|xs| - 1], xs[|xs| - 1];
      SortByKeySpec(init);
      InsertSpec(x, SortByKey(init));
      assert xs == init + [x];
      forall k ensures WithKey(SortByKey(xs), k) == WithKey(xs, k) {
        WithKeyAppend(init, [x], k);
      }
    }
  }

  lemma InsertSpec<T>(x: (Key, T), ys: seq<(Key, T)>)
    requires Sorted(ys)
    ensures Sorted(Insert(x, ys))
    ensures multiset(Insert(x, ys)) == multiset(ys) + multiset{x}
    ensures forall k :: WithKey(Insert(x, ys), k) == WithKey(ys, k) + WithKey([x], k)
  {
    InsertSorted(x, ys);
    InsertMultiset(x, ys);
    forall k ensures WithKey(Insert(x, ys), k) == WithKey(ys, k) + WithKey([x], k) {
      InsertWithKey(x, ys, k);
    }
  }

  lemma {:induction false} InsertMultiset<T>(x: (Key, T), ys: seq<(Key, T)>)
    ensures multiset(Insert(x, ys)) == multiset(ys) + multiset{x}
  {
    if |ys| > 0 && !KeyLt(x.0, ys[0].0) {
      InsertMultiset(x, ys[1..]);
      assert ys == [ys[0]] + ys[1..];
    }
  }

  lemma {:induction false} InsertSorted<T>(x: (Key, T), ys: seq<(Key, T)>)
    requires Sorted(ys)
    ensures Sorted(Insert(x, ys))
  {
    if |ys| == 0 {
    } else if KeyLt(x.0, ys[0].0) {
      var r := [x] + ys;
      forall j | 0 < j < |r| ensures !KeyLt(r[j].0, x.0) {
        if KeyLt(r[j].0, x.0) {
          KeyLtTransitive(r[j].0, x.0, ys[0].0);
          if j == 1 {
            KeyLtIrreflexive(ys[0].0);
          }
        }
      }
    } else {
      var rest := Insert(x, ys[1..]);
      InsertSorted(x, ys[1..]);
      InsertMultiset(x, ys[1..]);
      var r := [ys[0]] + rest;
      forall j | 0 < j < |r| ensures !KeyLt(r[j].0, ys[0].0) {
        assert r[j] in multiset(rest);
        if r[j] != x {
          assert r[j] in multiset(ys[1..]);
          var m :| 0 <= m < |ys[1..]| && ys[1..][m] == r[j];
          assert ys[m + 1] == r[j];
        }
      }
      assert Sorted(r) by {
        forall i, j | 0 <= i < j < |r| ensures !KeyLt(r[j].0, r[i].0) {
          if i > 0 {
            assert r[i] == rest[i - 1] && r[j] == rest[j - 1];
          }
        }
      }
    }
  }

  lemma {:induction false} InsertWithKey<T>(x: (Key, T), ys: seq<(Key, T)>, k: Key)
    requires Sorted(ys)
    ensures WithKey(Insert(x, ys), k) == WithKey(ys, k) + WithKey([x], k)
  {
    if |ys| == 0 {
    } else if KeyLt(x.0, ys[0].0) {
      FrontWithKey(x, ys, k);
    } else {
      var rest := Insert(x, ys[1..]);
      assert Insert(x, ys) == [ys[0]] + rest;
      SortedTail(ys);
      InsertWithKey(x, ys[1..], k);
      WithKeyAppend([ys[0]], rest, k);
      WithKeyAppend([ys[0]], ys[1..], k);
      assert [ys[0]] + ys[1..] == ys;
      calc {
        WithKey(Insert(x, ys), k);
        WithKey([ys[0]], k) + WithKey(rest, k);
        WithKey([ys[0]], k) + (WithKey(ys[1..], k) + WithKey([x], k));
        (WithKey([ys[0]], k) + WithKey(ys[1..], k)) + WithKey([x], k);
        WithKey(ys, k) + WithKey([x], k);
      }
    }
  }

  /** Put in front of larger keys, `x` still comes after every key equal
      to its own. */
  lemma FrontWithKey<T>(x: (Key, T), ys: seq<(Key, T)>, k: Key)
    requires Sorted(ys) && |ys| > 0 && KeyLt(x.0, ys[0].0)
    ensures WithKey([x] + ys, k) == WithKey(ys, k) + WithKey([x], k)
  {
    WithKeyAppend([x], ys, k);
    if x.0 == k {
      AboveHasNoKey(ys, x.0);
    } else {
      assert WithKey([x], k) == [];
    }
  }

  lemma SortedTail<T>(ys: seq<(Key, T)>)
    requires Sorted(ys) && |ys| > 0
    ensures Sorted(ys[1..])
  {
    forall i, j | 0 <= i < j < |ys[1..]| ensures !KeyLt(ys[1..][j].0, ys[1..][i].0) {
      assert ys[1..][j] == ys[j + 1] && ys[1..][i] == ys[i + 1];
    }
  }

  /** In a sorted list whose first key is above `k`, no key is `k`. */
  lemma {:induction false} AboveHasNoKey<T>(ys: seq<(Key, T)>, k: Key)
    requires Sorted(ys) && |ys| > 0 && KeyLt(k, ys[0].0)
    ensures WithKey(ys, k) == []
  {
    forall i | 0 <= i < |ys| ensures ys[i].0 != k {
      if i == 0 {
        KeyLtIrreflexive(k);
      }
    }
    NoKey(ys, k);
  }

  lemma {:induction false} NoKey<T>(ys: seq<(Key, T)>, k: Key)
    requires forall i :: 0 <= i < |ys| ==> ys[i].0 != k
    ensures WithKey(ys, k) == []
  {
    if |ys| > 0 {
      NoKey(ys[1..], k);
    }
  }

  lemma {:induction false} WithKeyAppend<T>(a: seq<(Key, T)>, b: seq<(Key, T)>, k: Key)
    ensures WithKey(a + b, k) == WithKey(a, k) + WithKey(b, k)
  {
    if |a| > 0 {
      WithKeyAppend(a[1..], b, k);
      assert (a + b)[1..] == a[1..] + b;
    } else {
      assert a + b == b;
    }
  }
}
