/** Ordered keys, stable sorting by key, and the ascending enumeration of a
    finite key set (the iteration order of `BTreeMap` and `BTreeSet`).

    Every sort key of the node is a tuple of unsigned integers, fixed-width
    hashes and byte strings, so a key is a sequence of naturals compared
    lexicographically, a proper prefix first. */
module Sorting {
  type Key = seq<nat>

  predicate Leq(a: Key, b: Key)
  {
    if |a| == 0 then true
    else if |b| == 0 then false
    else a[0] < b[0] || (a[0] == b[0] && Leq(a[1..], b[1..]))
  }

  predicate Less(a: Key, b: Key) { Leq(a, b) && a != b }

  lemma {:induction false} LeqTotal(a: Key, b: Key)
    ensures Leq(a, b) || Leq(b, a)
  {
    if |a| > 0 && |b| > 0 && a[0] == b[0] { LeqTotal(a[1..], b[1..]); }
  }

  lemma {:induction false} LeqAntisymmetric(a: Key, b: Key)
    requires Leq(a, b) && Leq(b, a)
    ensures a == b
  {
    if |a| > 0 && |b| > 0 {
      LeqAntisymmetric(a[1..], b[1..]);
      assert a == [a[0]] + a[1..] && b == [b[0]] + b[1..];
    }
  }

  lemma {:induction false} LeqTransitive(a: Key, b: Key, c: Key)
    requires Leq(a, b) && Leq(b, c)
    ensures Leq(a, c)
  {
    if |a| > 0 && |b| > 0 && |c| > 0 && a[0] == b[0] == c[0] {
      LeqTransitive(a[1..], b[1..], c[1..]);
    }
  }

  /** What the order means: the first is a prefix of the second, or is smaller where
      they first differ. */
  lemma {:induction false} LeqMeaning(a: Key, b: Key)
    ensures Leq(a, b) <==> a <= b || exists i :: 0 <= i < |a| && i < |b| && a[..i] == b[..i] && a[i] < b[i]
  {
    if |a| > 0 && |b| > 0 && a[0] == b[0] {
      LeqMeaning(a[1..], b[1..]);
      assert a == [a[0]] + a[1..] && b == [b[0]] + b[1..];
      if i :| 0 <= i < |a[1..]| && i < |b[1..]| && a[1..][..i] == b[1..][..i] && a[1..][i] < b[1..][i] {
        assert a[..i + 1] == [a[0]] + a[1..][..i] && b[..i + 1] == [b[0]] + b[1..][..i];
        assert a[i + 1] < b[i + 1];
      }
      if i :| 0 <= i < |a| && i < |b| && a[..i] == b[..i] && a[i] < b[i] {
        assert i > 0;
        assert a[1..][..i - 1] == a[..i][1..] && b[1..][..i - 1] == b[..i][1..];
        assert a[1..][i - 1] < b[1..][i - 1];
      }
    } else if |a| > 0 && |b| > 0 {
      assert a[..0] == b[..0];
      if i :| 0 <= i < |a| && i < |b| && a[..i] == b[..i] && a[i] < b[i] {
        assert i > 0 ==> a[..i][0] == b[..i][0];
      }
    }
  }

  lemma LeqFirst(a: nat, b: nat, c: Key, d: Key)
    ensures Leq([a] + c, [b] + d) <==> a < b || (a == b && Leq(c, d))
  {
    assert ([a] + c)[1..] == c && ([b] + d)[1..] == d;
  }

  /** Keys made of parts of equal length are compared part by part. */
  lemma {:induction false} LeqConcat(a: Key, b: Key, c: Key, d: Key)
    requires |a| == |b|
    ensures Leq(a + c, b + d) <==> if a == b then Leq(c, d) else Leq(a, b)
  {
    if |a| == 0 {
      assert a + c == c && b + d == d;
    } else {
      LeqConcat(a[1..], b[1..], c, d);
      assert (a + c)[1..] == a[1..] + c && (b + d)[1..] == b[1..] + d;
      assert a == [a[0]] + a[1..] && b == [b[0]] + b[1..];
    }
  }

  // ----- sequences of keys

  predicate Ascending(keys: seq<Key>)
  {
    forall i, j :: 0 <= i < j < |keys| ==> Leq(keys[i], keys[j])
  }

  predicate StrictlyAscending(keys: seq<Key>)
  {
    forall i, j :: 0 <= i < j < |keys| ==> Less(keys[i], keys[j])
  }

  predicate Rising(s: seq<nat>) { forall i, j :: 0 <= i < j < |s| ==> s[i] < s[j] }

  /** A list of keys has exactly one ascending arrangement. */
  lemma {:induction false} AscendingUnique(a: seq<Key>, b: seq<Key>)
    requires Ascending(a) && Ascending(b) && multiset(a) == multiset(b)
    ensures a == b
  {
    assert |a| == |multiset(a)| == |multiset(b)| == |b|;
    if |a| > 0 {
      assert a[0] in multiset(b) && b[0] in multiset(a);
      HeadLeast(a, b[0]);
      HeadLeast(b, a[0]);
      LeqAntisymmetric(a[0], b[0]);
      TailCount(a);
      TailCount(b);
      AscendingUnique(a[1..], b[1..]);
      assert a == [a[0]] + a[1..] && b == [b[0]] + b[1..];
    }
  }

  /** Strictly ascending lists with the same members are equal. */
  lemma {:induction false} SameKeys(a: seq<Key>, b: seq<Key>)
    requires StrictlyAscending(a) && StrictlyAscending(b) && forall k :: k in a <==> k in b
    ensures a == b
  {
    assert |a| > 0 ==> a[0] in a;
    assert |b| > 0 ==> b[0] in b;
    if |a| > 0 {
      HeadLess(a, b[0]);
      HeadLess(b, a[0]);
      LeqAntisymmetric(a[0], b[0]);
      TailKeys(a);
      TailKeys(b);
      SameKeys(a[1..], b[1..]);
      assert a == [a[0]] + a[1..] && b == [b[0]] + b[1..];
    }
  }

  lemma HeadLess(a: seq<Key>, k: Key)
    requires StrictlyAscending(a) && k in a
    ensures Leq(a[0], k)
  {
    LeqSelf(a[0]);
    var i :| 0 <= i < |a| && a[i] == k;
    assert i > 0 ==> Less(a[0], a[i]);
  }

  lemma TailKeys(a: seq<Key>)
    requires StrictlyAscending(a) && |a| > 0
    ensures StrictlyAscending(a[1..]) && forall k :: k in a[1..] <==> k in a && k != a[0]
  {
    var rest := a[1..];
    forall k ensures k in rest <==> k in a && k != a[0] {
      if k in rest {
        var i :| 0 <= i < |rest| && rest[i] == k;
        assert Less(a[0], a[i + 1]);
      }
      if k in a && k != a[0] {
        var i :| 0 <= i < |a| && a[i] == k;
        assert rest[i - 1] == k;
      }
    }
  }

  lemma TailCount<T>(a: seq<T>)
    requires |a| > 0
    ensures multiset(a[1..]) == multiset(a) - multiset{a[0]}
  {
    assert a == [a[0]] + a[1..];
  }

  lemma DropCount<T>(a: seq<T>, i: nat)
    requires i < |a|
    ensures multiset(a[..i] + a[i + 1..]) == multiset(a) - multiset{a[i]}
  {
    assert a == a[..i] + [a[i]] + a[i + 1..];
  }

  /** A sum over a list, which its order does not matter to. */
  function SumBy<T>(f: T -> nat, s: seq<T>): nat
  {
    if |s| == 0 then 0 else SumBy(f, s[..|s| - 1]) + f(s[|s| - 1])
  }

  lemma SumBySnoc<T>(f: T -> nat, s: seq<T>, x: T)
    ensures SumBy(f, s + [x]) == SumBy(f, s) + f(x)
  {
    assert (s + [x])[..|s|] == s;
  }

  lemma {:induction false} SumByPermuted<T>(f: T -> nat, a: seq<T>, b: seq<T>)
    requires multiset(a) == multiset(b)
    ensures SumBy(f, a) == SumBy(f, b)
  {
    if |a| == 0 {
      assert |multiset(b)| == 0;
    } else {
      var n := |a| - 1;
      assert a[n] in multiset(b);
      var i :| 0 <= i < |b| && b[i] == a[n];
      DropCount(a, n);
      DropCount(b, i);
      assert a[..n] + a[n + 1..] == a[..n];
      SumByPermuted(f, a[..n], b[..i] + b[i + 1..]);
      SumByDrop(f, b, i);
    }
  }

  lemma {:induction false} SumByDrop<T>(f: T -> nat, b: seq<T>, i: nat)
    requires i < |b|
    ensures SumBy(f, b) == SumBy(f, b[..i] + b[i + 1..]) + f(b[i])
  {
    var n := |b| - 1;
    var rest := b[..i] + b[i + 1..];
    if i < n {
      SumByDrop(f, b[..n], i);
      assert b[..n][..i] + b[..n][i + 1..] == rest[..n - 1];
      assert rest[n - 1] == b[n];
    } else {
      assert rest == b[..n];
    }
  }

  lemma HeadLeast(a: seq<Key>, k: Key)
    requires Ascending(a) && k in a
    ensures Leq(a[0], k)
  {
    LeqSelf(a[0]);
  }

  lemma LeqSelf(a: Key)
    ensures Leq(a, a)
  {
    LeqTotal(a, a);
  }

  // ----- the key order of maps and sets

  lemma {:induction false} LeastExists(keys: set<Key>) returns (k: Key)
    requires keys != {}
    ensures k in keys && forall j :: j in keys ==> Leq(k, j)
    decreases |keys|
  {
    k :| k in keys;
    LeqSelf(k);
    if keys != {k} {
      var rest := keys - {k};
      assert keys == rest + {k};
      var r := LeastExists(rest);
      LeqTotal(k, r);
      if Leq(k, r) {
        forall j | j in keys ensures Leq(k, j) {
          if j != k { LeqTransitive(k, r, j); }
        }
      } else {
        k := r;
      }
    }
  }

  lemma LeastUnique(keys: set<Key>)
    requires keys != {}
    ensures exists k :: k in keys && forall j :: j in keys ==> Leq(k, j)
    ensures forall k, l :: k in keys && l in keys && Leq(k, l) && Leq(l, k) ==> k == l
  {
    var k := LeastExists(keys);
    forall k, l | k in keys && l in keys && Leq(k, l) && Leq(l, k) ensures k == l {
      LeqAntisymmetric(k, l);
    }
  }

  lemma ConsAscending(k: Key, rest: seq<Key>)
    requires StrictlyAscending(rest) && forall j :: j in rest ==> Leq(k, j) && j != k
    ensures StrictlyAscending([k] + rest)
  {
    var s := [k] + rest;
    forall i, j | 0 <= i < j < |s| ensures Less(s[i], s[j]) {
      assert s[j] == rest[j - 1];
    }
  }

  /** The keys in ascending order. */
  function InOrder(keys: set<Key>): (s: seq<Key>)
    ensures |s| == |keys| && forall k :: k in s <==> k in keys
    decreases |keys|
  {
    if keys == {} then []
    else
      LeastUnique(keys);
      var k :| k in keys && forall j :: j in keys ==> Leq(k, j);
      [k] + InOrder(keys - {k})
  }

  lemma {:induction false} InOrderAscending(keys: set<Key>)
    ensures StrictlyAscending(InOrder(keys)) && Distinct(InOrder(keys))
    decreases |keys|
  {
    if keys != {} {
      LeastUnique(keys);
      var k :| k in keys && (forall j :: j in keys ==> Leq(k, j)) && InOrder(keys) == [k] + InOrder(keys - {k});
      InOrderAscending(keys - {k});
      ConsAscending(k, InOrder(keys - {k}));
    }
    AscendingDistinct(InOrder(keys));
  }

  predicate Distinct<T(==)>(s: seq<T>) { forall i, j :: 0 <= i < j < |s| ==> s[i] != s[j] }

  lemma AscendingDistinct(keys: seq<Key>)
    requires StrictlyAscending(keys)
    ensures Distinct(keys)
  {
    forall i, j | 0 <= i < j < |keys| ensures keys[i] != keys[j] { assert Less(keys[i], keys[j]); }
  }

  lemma NotRepeated<T>(s: seq<T>, i: nat)
    requires Distinct(s) && i < |s|
    ensures s[i] !in s[..i]
  {}

  // ----- stable sorting

  function Keys<T>(key: T -> Key, s: seq<T>): (ks: seq<Key>)
    ensures |ks| == |s| && forall i :: 0 <= i < |s| ==> ks[i] == key(s[i])
  {
    seq(|s|, i requires 0 <= i < |s| => key(s[i]))
  }

  predicate SortedBy<T>(key: T -> Key, s: seq<T>)
  {
    forall i, j :: 0 <= i < j < |s| ==> Leq(key(s[i]), key(s[j]))
  }

  function Insert<T>(key: T -> Key, x: T, s: seq<T>): (r: seq<T>)
    ensures multiset(r) == multiset(s) + multiset{x}
  {
    if |s| == 0 then [x]
    else if Leq(key(x), key(s[0])) then [x] + s
    else
      assert s == [s[0]] + s[1..];
      [s[0]] + Insert(key, x, s[1..])
  }

  lemma {:induction false} InsertSorted<T>(key: T -> Key, x: T, s: seq<T>)
    requires SortedBy(key, s)
    ensures SortedBy(key, Insert(key, x, s))
  {
    if |s| > 0 {
      LeqTotal(key(x), key(s[0]));
      if Leq(key(x), key(s[0])) {
        forall j | 0 <= j < |s| ensures Leq(key(x), key(s[j])) {
          LeqSelf(key(s[0]));
          LeqTransitive(key(x), key(s[0]), key(s[j]));
        }
      } else {
        var rest := Insert(key, x, s[1..]);
        InsertSorted(key, x, s[1..]);
        forall j | 0 <= j < |rest| ensures Leq(key(s[0]), key(rest[j])) {
          assert rest[j] in multiset(rest);
          assert rest[j] in multiset(s[1..]) || rest[j] == x;
        }
      }
    }
  }

  /** `sort_by_key`: an ascending rearrangement that keeps the input order of
      elements with equal keys. */
  function SortBy<T>(key: T -> Key, s: seq<T>): (r: seq<T>)
    ensures multiset(r) == multiset(s)
    ensures |r| == |s|
  {
    if |s| == 0 then []
    else
      assert s == [s[0]] + s[1..];
      var r := Insert(key, s[0], SortBy(key, s[1..]));
      assert |r| == |multiset(r)| == |multiset(s)| == |s|;
      r
  }

  lemma {:induction false} SortBySorted<T>(key: T -> Key, s: seq<T>)
    ensures SortedBy(key, SortBy(key, s))
  {
    if |s| > 0 {
      SortBySorted(key, s[1..]);
      InsertSorted(key, s[0], SortBy(key, s[1..]));
    }
  }

  /** The elements of `s` whose key is `k`, in order. */
  function WithKey<T>(key: T -> Key, k: Key, s: seq<T>): seq<T>
  {
    if |s| == 0 then [] else
    (if key(s[0]) == k then [s[0]] else []) + WithKey(key, k, s[1..])
  }

  lemma WithKeyCons<T>(key: T -> Key, k: Key, x: T, s: seq<T>)
    ensures WithKey(key, k, [x] + s) == (if key(x) == k then [x] else []) + WithKey(key, k, s)
  {
    assert ([x] + s)[1..] == s;
  }

  lemma {:induction false} InsertStable<T>(key: T -> Key, k: Key, x: T, s: seq<T>)
    ensures WithKey(key, k, Insert(key, x, s)) == WithKey(key, k, [x] + s)
  {
    if |s| > 0 && !Leq(key(x), key(s[0])) {
      LeqSelf(key(x));
      InsertStable(key, k, x, s[1..]);
      WithKeyCons(key, k, s[0], Insert(key, x, s[1..]));
      WithKeySwap(key, k, x, s[0], s[1..]);
      assert s == [s[0]] + s[1..];
    }
  }

  lemma WithKeySwap<T>(key: T -> Key, k: Key, x: T, y: T, s: seq<T>)
    requires key(x) != key(y)
    ensures WithKey(key, k, [y] + ([x] + s)) == WithKey(key, k, [x] + ([y] + s))
    ensures WithKey(key, k, [y] + ([x] + s)) == (if key(y) == k then [y] else []) + WithKey(key, k, [x] + s)
  {
    WithKeyCons(key, k, y, [x] + s);
    WithKeyCons(key, k, x, [y] + s);
    WithKeyCons(key, k, x, s);
    WithKeyCons(key, k, y, s);
  }

  /** Stability: elements with equal keys keep their order. */
  lemma {:induction false} SortByStable<T>(key: T -> Key, k: Key, s: seq<T>)
    ensures WithKey(key, k, SortBy(key, s)) == WithKey(key, k, s)
  {
    if |s| > 0 {
      var rest := SortBy(key, s[1..]);
      InsertStable(key, k, s[0], rest);
      SortByStable(key, k, s[1..]);
      WithKeyCons(key, k, s[0], rest);
    }
  }

  /** Two lists with the same keys, counted, sort to the same key list. */
  lemma SameKeysSortAlike<T>(key: T -> Key, a: seq<T>, b: seq<T>)
    requires multiset(Keys(key, a)) == multiset(Keys(key, b))
    ensures Keys(key, SortBy(key, a)) == Keys(key, SortBy(key, b))
  {
    SortBySorted(key, a);
    SortBySorted(key, b);
    KeysOfPermutation(key, SortBy(key, a), a);
    KeysOfPermutation(key, SortBy(key, b), b);
    AscendingUnique(Keys(key, SortBy(key, a)), Keys(key, SortBy(key, b)));
  }

  lemma KeysDrop<T>(key: T -> Key, b: seq<T>, i: nat, rest: seq<T>)
    requires i < |b| && rest == b[..i] + b[i + 1..]
    ensures multiset(Keys(key, b)) == multiset(Keys(key, rest)) + multiset{key(b[i])}
    ensures multiset(rest) == multiset(b) - multiset{b[i]}
  {
    var kb := Keys(key, b);
    DropCount(b, i);
    DropCount(kb, i);
    assert kb[..i] + kb[i + 1..] == Keys(key, rest);
    assert kb[i] in multiset(kb);
  }

  lemma {:induction false} KeysOfPermutation<T>(key: T -> Key, a: seq<T>, b: seq<T>)
    requires multiset(a) == multiset(b)
    ensures multiset(Keys(key, a)) == multiset(Keys(key, b))
  {
    if a == [] {
      assert |b| == |multiset(b)| == 0;
    } else {
      assert a[0] in multiset(b);
      var i :| 0 <= i < |b| && b[i] == a[0];
      var a', b' := a[1..], b[..i] + b[i + 1..];
      KeysDrop(key, b, i, b');
      KeysDrop(key, a, 0, a');
      KeysOfPermutation(key, a', b');
    }
  }
}
