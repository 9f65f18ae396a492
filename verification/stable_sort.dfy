/**
  A stable insertion sort on a string key, ordered character by character in
  code-point order. `Array.prototype.sort` is stable, so entries whose keys tie
  keep their input order; `SortIsStable` states exactly that.
*/
module StableSort {
  import opened Text

  /** No later entry's key sorts before an earlier entry's key. */
  predicate Sorted<T>(t: seq<T>, key: T -> string) {
    forall i, j :: 0 <= i < j < |t| ==> !LexLess(key(t[j]), key(t[i]))
  }

  /** Insert `x` behind every entry whose key does not sort after its own. */
  function Insert<T>(x: T, t: seq<T>, key: T -> string): (r: seq<T>)
    ensures multiset(r) == multiset(t) + multiset{x}
  {
    if |t| == 0 then [x]
    else if LexLess(key(x), key(t[0])) then [x] + t
    else
      assert t == [t[0]] + t[1..];
      [t[0]] + Insert(x, t[1..], key)
  }

  /** Each entry, in input order, inserted into the sorted prefix before it. */
  function Sort<T>(t: seq<T>, key: T -> string): (r: seq<T>)
    ensures multiset(r) == multiset(t)
  {
    if |t| == 0 then []
    else
      var n := |t| - 1;
      assert t == t[..n] + [t[n]];
      Insert(t[n], Sort(t[..n], key), key)
  }

  lemma SortedTail<T>(t: seq<T>, key: T -> string)
    requires Sorted(t, key) && |t| > 0
    ensures Sorted(t[1..], key)
  {
    var t' := t[1..];
    forall i, j | 0 <= i < j < |t'|
      ensures !LexLess(key(t'[j]), key(t'[i]))
    {
      assert t'[i] == t[i + 1] && t'[j] == t[j + 1];
    }
  }

  /** Consing an entry no later than every entry of a sorted list keeps it sorted. */
  lemma SortedCons<T>(y: T, t: seq<T>, key: T -> string)
    requires Sorted(t, key)
    requires forall z :: z in t ==> !LexLess(key(z), key(y))
    ensures Sorted([y] + t, key)
  {
    var r := [y] + t;
    forall i, j | 0 <= i < j < |r|
      ensures !LexLess(key(r[j]), key(r[i]))
    {
      if i == 0 {
        assert r[j] in t;
      } else {
        assert r[i] == t[i - 1] && r[j] == t[j - 1];
      }
    }
  }

  /** No entry of a sorted list sorts before its head. */
  lemma AfterHead<T>(t: seq<T>, key: T -> string, z: T)
    requires Sorted(t, key) && |t| > 0 && z in t
    ensures !LexLess(key(z), key(t[0]))
  {
    var j :| 0 <= j < |t| && t[j] == z;
    if j == 0 {
      LexLessIrreflexive(key(z));
    }
  }

  /** Every key of a sorted list sorts after anything sorting before its head's. */
  lemma AfterBeforeHead<T>(t: seq<T>, key: T -> string, k: string, z: T)
    requires Sorted(t, key) && |t| > 0 && z in t
    requires LexLess(k, key(t[0]))
    ensures !LexLess(key(z), k) && key(z) != k
  {
    AfterHead(t, key, z);
    if LexLess(key(z), k) {
      LexLessTransitive(key(z), k, key(t[0]));
    }
  }

  lemma {:induction false} InsertKeepsSorted<T>(x: T, t: seq<T>, key: T -> string)
    requires Sorted(t, key)
    ensures Sorted(Insert(x, t, key), key)
  {
    if |t| == 0 {
    } else if LexLess(key(x), key(t[0])) {
      forall z | z in t ensures !LexLess(key(z), key(x)) {
        AfterBeforeHead(t, key, key(x), z);
      }
      SortedCons(x, t, key);
    } else {
      var rest := Insert(x, t[1..], key);
      SortedTail(t, key);
      InsertKeepsSorted(x, t[1..], key);
      forall z | z in rest ensures !LexLess(key(z), key(t[0])) {
        assert z in multiset(rest);
        if z != x {
          assert z in multiset(t[1..]);
          AfterHead(t, key, z);
        }
      }
      SortedCons(t[0], rest, key);
    }
  }

  /** The result is ordered by key. */
  lemma {:induction false} SortIsSorted<T>(t: seq<T>, key: T -> string)
    ensures Sorted(Sort(t, key), key)
  {
    if |t| > 0 {
      var n := |t| - 1;
      SortIsSorted(t[..n], key);
      InsertKeepsSorted(t[n], Sort(t[..n], key), key);
    }
  }

  /** The entries of `t` whose key is `k`, in order. */
  function WithKey<T>(t: seq<T>, key: T -> string, k: string): seq<T> {
    if |t| == 0 then []
    else (if key(t[0]) == k then [t[0]] else []) + WithKey(t[1..], key, k)
  }

  lemma WithKeyCons<T>(y: T, t: seq<T>, key: T -> string, k: string)
    ensures WithKey([y] + t, key, k) == (if key(y) == k then [y] else []) + WithKey(t, key, k)
  {
    assert ([y] + t)[0] == y;
    assert ([y] + t)[1..] == t;
  }

  lemma {:induction false} WithKeyAppend<T>(a: seq<T>, b: seq<T>, key: T -> string, k: string)
    ensures WithKey(a + b, key, k) == WithKey(a, key, k) + WithKey(b, key, k)
  {
    if |a| == 0 {
      assert a + b == b;
    } else {
      var p := if key(a[0]) == k then [a[0]] else [];
      var a' := a[1..];
      WithKeyAppend(a', b, key, k);
      assert a + b == [a[0]] + (a' + b);
      WithKeyCons(a[0], a' + b, key, k);
      assert a == [a[0]] + a';
      WithKeyCons(a[0], a', key, k);
      var x, y := WithKey(a', key, k), WithKey(b, key, k);
      assert p + (x + y) == (p + x) + y;
    }
  }

  lemma {:induction false} WithKeyWithin<T>(t: seq<T>, key: T -> string, k: string, z: T)
    requires z in WithKey(t, key, k)
    ensures z in t && key(z) == k
  {
    if |t| > 0 && !(z == t[0] && key(t[0]) == k) {
      WithKeyWithin(t[1..], key, k, z);
    }
  }

  /** A sorted list has no entry keyed before its head's key. */
  lemma NoneKeyedBeforeHead<T>(t: seq<T>, key: T -> string, k: string)
    requires Sorted(t, key)
    requires |t| > 0 && LexLess(k, key(t[0]))
    ensures WithKey(t, key, k) == []
  {
    var w := WithKey(t, key, k);
    if w != [] {
      assert w[0] in w;
      WithKeyWithin(t, key, k, w[0]);
      AfterBeforeHead(t, key, k, w[0]);
    }
  }

  lemma InsertAtFront<T>(x: T, t: seq<T>, key: T -> string, k: string)
    requires Sorted(t, key) && |t| > 0
    requires LexLess(key(x), key(t[0]))
    ensures WithKey(Insert(x, t, key), key, k) == WithKey(t, key, k) + WithKey([x], key, k)
  {
    assert Insert(x, t, key) == [x] + t;
    WithKeyAppend([x], t, key, k);
    if key(x) == k {
      NoneKeyedBeforeHead(t, key, k);
    } else {
      assert WithKey([x], key, k) == [];
    }
  }

  lemma ConsKeepsSplit<T>(y: T, r: seq<T>, a: seq<T>, b: seq<T>, key: T -> string, k: string)
    requires WithKey(r, key, k) == WithKey(a, key, k) + WithKey(b, key, k)
    ensures WithKey([y] + r, key, k) == WithKey([y] + a, key, k) + WithKey(b, key, k)
  {
    WithKeyAppend([y], r, key, k);
    WithKeyAppend([y], a, key, k);
  }

  /** Inserting into a sorted list puts `x` behind every entry with the same key. */
  lemma {:induction false} InsertIsStable<T>(x: T, t: seq<T>, key: T -> string, k: string)
    requires Sorted(t, key)
    ensures WithKey(Insert(x, t, key), key, k) == WithKey(t, key, k) + WithKey([x], key, k)
  {
    if |t| == 0 {
      assert Insert(x, t, key) == [x];
    } else if LexLess(key(x), key(t[0])) {
      InsertAtFront(x, t, key, k);
    } else {
      SortedTail(t, key);
      InsertIsStable(x, t[1..], key, k);
      assert Insert(x, t, key) == [t[0]] + Insert(x, t[1..], key);
      assert t == [t[0]] + t[1..];
      ConsKeepsSplit(t[0], Insert(x, t[1..], key), t[1..], [x], key, k);
    }
  }

  /** The sort is stable: the entries sharing a key keep their input order. */
  lemma {:induction false} SortIsStable<T>(t: seq<T>, key: T -> string, k: string)
    ensures WithKey(Sort(t, key), key, k) == WithKey(t, key, k)
  {
    if |t| > 0 {
      var n := |t| - 1;
      SortIsStable(t[..n], key, k);
      SortIsSorted(t[..n], key);
      InsertIsStable(t[n], Sort(t[..n], key), key, k);
      assert t == t[..n] + [t[n]];
      WithKeyAppend(t[..n], [t[n]], key, k);
      calc {
        WithKey(Sort(t, key), key, k);
        WithKey(Insert(t[n], Sort(t[..n], key), key), key, k);
        WithKey(Sort(t[..n], key), key, k) + WithKey([t[n]], key, k);
        WithKey(t[..n], key, k) + WithKey([t[n]], key, k);
        WithKey(t, key, k);
      }
    }
  }
}
