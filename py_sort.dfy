/** Python's ordering of strings and its `sorted`: `a <= b` compares code
    point by code point, a proper prefix coming first, and `sorted(xs, key=f)`
    is a stable sort. Insertion sort, which keeps equal keys in input order,
    stands for the library's algorithm. */
module PySort {

  /** `a <= b` on Python strings. */
  predicate StrLe(a: string, b: string)
  {
    if |a| == 0 then true
    else if |b| == 0 then false
    else if a[0] != b[0] then a[0] < b[0]
    else StrLe(a[1..], b[1..])
  }

  lemma {:induction false} StrLeReflexive(a: string)
    ensures StrLe(a, a)
  {
    if |a| > 0 { StrLeReflexive(a[1..]); }
  }

  lemma {:induction false} StrLeTotal(a: string, b: string)
    ensures StrLe(a, b) || StrLe(b, a)
  {
    if |a| > 0 && |b| > 0 && a[0] == b[0] { StrLeTotal(a[1..], b[1..]); }
  }

  lemma {:induction false} StrLeAntisymmetric(a: string, b: string)
    requires StrLe(a, b) && StrLe(b, a)
    ensures a == b
  {
    if |a| > 0 && |b| > 0 {
      StrLeAntisymmetric(a[1..], b[1..]);
      assert a == [a[0]] + a[1..] && b == [b[0]] + b[1..];
    }
  }

  lemma {:induction false} StrLeTransitive(a: string, b: string, c: string)
    requires StrLe(a, b) && StrLe(b, c)
    ensures StrLe(a, c)
  {
    if |a| > 0 && |b| > 0 && |c| > 0 && a[0] == b[0] == c[0] {
      StrLeTransitive(a[1..], b[1..], c[1..]);
    }
  }

  ghost predicate SortedBy<T>(s: seq<T>, key: T -> string) {
    forall i, j :: 0 <= i < j < |s| ==> StrLe(key(s[i]), key(s[j]))
  }

  /** Inserts `x` before the first element whose key is not smaller. */
  function InsertBy<T>(x: T, s: seq<T>, key: T -> string): (r: seq<T>)
    ensures multiset(r) == multiset(s) + multiset{x}
    ensures |r| == |s| + 1
  {
    if s == [] then [x]
    else if StrLe(key(x), key(s[0])) then [x] + s
    else
      assert s == [s[0]] + s[1..];
      [s[0]] + InsertBy(x, s[1..], key)
  }

  /** `sorted(s, key=key)` */
  function SortBy<T>(s: seq<T>, key: T -> string): (r: seq<T>)
    ensures multiset(r) == multiset(s)
    ensures |r| == |s|
  {
    if s == [] then []
    else
      assert s == [s[0]] + s[1..];
      InsertBy(s[0], SortBy(s[1..], key), key)
  }

  lemma {:induction false} InsertBySorted<T>(x: T, s: seq<T>, key: T -> string)
    requires SortedBy(s, key)
    ensures SortedBy(InsertBy(x, s, key), key)
  {
    if s == [] {
    } else if StrLe(key(x), key(s[0])) {
      var r := [x] + s;
      forall i, j | 0 <= i < j < |r| ensures StrLe(key(r[i]), key(r[j])) {
        if i == 0 && j > 1 { StrLeTransitive(key(x), key(s[0]), key(s[j - 1])); }
      }
    } else {
      StrLeTotal(key(x), key(s[0]));
      InsertBySorted(x, s[1..], key);
      var tail := InsertBy(x, s[1..], key);
      var r := [s[0]] + tail;
      forall j | 0 <= j < |tail| ensures StrLe(key(s[0]), key(tail[j])) {
        assert tail[j] in multiset(tail);
        assert tail[j] == x || tail[j] in multiset(s[1..]);
        if tail[j] != x {
          var k :| 0 <= k < |s[1..]| && s[1..][k] == tail[j];
          assert s[k + 1] == tail[j];
        }
      }
      forall i, j | 0 <= i < j < |r| ensures StrLe(key(r[i]), key(r[j])) {
        if i == 0 { assert r[j] == tail[j - 1]; }
      }
    }
  }

  /** `sorted` returns its input in ascending key order. */
  lemma {:induction false} SortBySorted<T>(s: seq<T>, key: T -> string)
    ensures SortedBy(SortBy(s, key), key)
  {
    if s != [] {
      SortBySorted(s[1..], key);
      InsertBySorted(s[0], SortBy(s[1..], key), key);
    }
  }

  /** The elements of `s` whose key is `k`, in the order of `s`. */
  function WithKey<T>(s: seq<T>, key: T -> string, k: string): (r: seq<T>)
    ensures |r| <= |s|
  {
    if s == [] then [] else (if key(s[0]) == k then [s[0]] else []) + WithKey(s[1..], key, k)
  }

  /** The elements with key `k` of one element followed by more. */
  lemma WithKeyCons<T>(y: T, s: seq<T>, key: T -> string, k: string)
    ensures WithKey([y] + s, key, k) == (if key(y) == k then [y] else []) + WithKey(s, key, k)
  {
    assert ([y] + s)[1..] == s;
  }

  /** Inserting `x` puts it ahead of every element with the same key. */
  lemma {:induction false} InsertByWithKey<T>(x: T, s: seq<T>, key: T -> string, k: string)
    ensures WithKey(InsertBy(x, s, key), key, k) == (if key(x) == k then [x] else []) + WithKey(s, key, k)
  {
    var hx: seq<T> := if key(x) == k then [x] else [];
    if s == [] {
      assert InsertBy(x, s, key) == [x] + s;
      WithKeyCons(x, s, key, k);
    } else if StrLe(key(x), key(s[0])) {
      assert InsertBy(x, s, key) == [x] + s;
      WithKeyCons(x, s, key, k);
    } else {
      var tail := InsertBy(x, s[1..], key);
      assert InsertBy(x, s, key) == [s[0]] + tail;
      WithKeyCons(s[0], tail, key, k);
      InsertByWithKey(x, s[1..], key, k);
      assert s == [s[0]] + s[1..];
      WithKeyCons(s[0], s[1..], key, k);
      if key(x) == k {
        StrLeReflexive(k);
        assert key(s[0]) != k;
        assert WithKey(InsertBy(x, s, key), key, k) == WithKey(tail, key, k);
        assert WithKey(s, key, k) == WithKey(s[1..], key, k);
      } else {
        assert WithKey(tail, key, k) == WithKey(s[1..], key, k);
        assert WithKey(InsertBy(x, s, key), key, k) == WithKey(s, key, k);
      }
    }
  }

  /** `sorted` is stable: the elements that share a key keep their input
      order. */
  lemma {:induction false} SortByStable<T>(s: seq<T>, key: T -> string, k: string)
    ensures WithKey(SortBy(s, key), key, k) == WithKey(s, key, k)
  {
    if s != [] {
      SortByStable(s[1..], key, k);
      InsertByWithKey(s[0], SortBy(s[1..], key), key, k);
    }
  }

  /** A sequence already in ascending order is returned unchanged. */
  lemma {:induction false} SortBySortedInput<T>(s: seq<T>, key: T -> string)
    requires SortedBy(s, key)
    ensures SortBy(s, key) == s
  {
    if s != [] {
      assert SortedBy(s[1..], key);
      SortBySortedInput(s[1..], key);
      assert s == [s[0]] + s[1..];
      if |s| > 1 { assert StrLe(key(s[0]), key(s[1..][0])); }
    }
  }

  /** `sorted` keeps exactly the elements it was given. */
  lemma SortByMember<T>(s: seq<T>, key: T -> string, x: T)
    ensures x in SortBy(s, key) <==> x in s
  {
    assert x in SortBy(s, key) <==> x in multiset(SortBy(s, key));
    assert x in s <==> x in multiset(s);
  }

  /** Every element of `sorted(s)` is an element of `s`. */
  lemma SortByIndexMember<T>(s: seq<T>, key: T -> string)
    ensures forall i :: 0 <= i < |SortBy(s, key)| ==> SortBy(s, key)[i] in s
  {
    forall i | 0 <= i < |SortBy(s, key)| ensures SortBy(s, key)[i] in s {
      SortByMember(s, key, SortBy(s, key)[i]);
    }
  }
  /** Every element of the sorted list satisfies `ok` exactly when every
      element of the input does. */
  lemma {:induction false} SortByAll<T>(s: seq<T>, key: T -> string, ok: T -> bool)
    ensures (forall i :: 0 <= i < |SortBy(s, key)| ==> ok(SortBy(s, key)[i])) <==> forall x :: x in s ==> ok(x)
  {
    var sorted := SortBy(s, key);
    SortByIndexMember(s, key);
    if forall i :: 0 <= i < |sorted| ==> ok(sorted[i]) {
      forall x | x in s ensures ok(x) {
        SortByMember(s, key, x);
        var i :| 0 <= i < |sorted| && sorted[i] == x;
      }
    }
    if forall x :: x in s ==> ok(x) {
      forall i | 0 <= i < |sorted| ensures ok(sorted[i]) {
        assert sorted[i] in s;
      }
    }
  }

}
