/**
 Python's ordering of `str` values (code point by code point, a proper prefix
 first) and `sorted()` of a list by such a key.
 */
module Order {
  import opened Seqs

  /** `a <= b` on Python strings: code point by code point, and a proper prefix
      comes before every extension of it. */
  function StrLe(a: string, b: string): (r: bool)
    ensures a <= b ==> r
    ensures r && b <= a ==> a == b
    decreases |a|
  {
    a == [] || (b != [] && (a[0] < b[0] || (a[0] == b[0] && StrLe(a[1..], b[1..]))))
  }

  lemma {:induction false} StrLeReflexive(a: string)
    ensures StrLe(a, a)
    decreases |a|
  {
    if a != [] {
      StrLeReflexive(a[1..]);
    }
  }

  /** Any two strings are comparable. */
  lemma {:induction false} StrLeTotal(a: string, b: string)
    ensures StrLe(a, b) || StrLe(b, a)
    decreases |a|
  {
    if a != [] && b != [] && a[0] == b[0] {
      StrLeTotal(a[1..], b[1..]);
    }
  }

  lemma {:induction false} StrLeTransitive(a: string, b: string, c: string)
    requires StrLe(a, b) && StrLe(b, c)
    ensures StrLe(a, c)
    decreases |a|
  {
    if a != [] && a[0] == b[0] && b[0] == c[0] {
      StrLeTransitive(a[1..], b[1..], c[1..]);
    }
  }

  lemma {:induction false} StrLeAntisymmetric(a: string, b: string)
    requires StrLe(a, b) && StrLe(b, a)
    ensures a == b
    decreases |a|
  {
    if a != [] {
      StrLeAntisymmetric(a[1..], b[1..]);
      assert a == [a[0]] + a[1..] && b == [b[0]] + b[1..];
    }
  }

  /** The keys of `s` are in ascending order. */
  predicate SortedBy<T>(s: seq<T>, key: T -> string) {
    forall i, j :: 0 <= i < j < |s| ==> StrLe(key(s[i]), key(s[j]))
  }

  /** `x` placed before the first element whose key is not below its own;
      elements with an equal key stay behind `x`. */
  function Insert<T>(x: T, s: seq<T>, key: T -> string): (r: seq<T>)
    requires SortedBy(s, key)
    ensures SortedBy(r, key)
    ensures multiset(r) == multiset(s) + multiset{x}
    decreases |s|
  {
    if s == [] then [x]
    else if StrLe(key(x), key(s[0])) then
      InsertFrontSorted(x, s, key);
      [x] + s
    else
      var rest := Insert(x, s[1..], key);
      InsertBehindSorted(x, s, rest, key);
      assert s == [s[0]] + s[1..];
      [s[0]] + rest
  }

  /** An element not above the head of a sorted list can go in front of it. */
  lemma InsertFrontSorted<T>(x: T, s: seq<T>, key: T -> string)
    requires SortedBy(s, key) && s != [] && StrLe(key(x), key(s[0]))
    ensures SortedBy([x] + s, key)
  {
    forall j | 0 < j < |s| + 1 ensures StrLe(key(x), key(([x] + s)[j])) {
      if j > 1 {
        StrLeTransitive(key(x), key(s[0]), key(s[j - 1]));
      } else {
        assert ([x] + s)[j] == s[0];
      }
    }
  }

  /** The head of a sorted list stays in front of the list obtained by inserting
      an element above it into the tail. */
  lemma InsertBehindSorted<T>(x: T, s: seq<T>, rest: seq<T>, key: T -> string)
    requires SortedBy(s, key) && s != [] && !StrLe(key(x), key(s[0]))
    requires SortedBy(rest, key)
    requires multiset(rest) == multiset(s[1..]) + multiset{x}
    ensures SortedBy([s[0]] + rest, key)
  {
    StrLeTotal(key(x), key(s[0]));
    forall j | 0 <= j < |rest| ensures StrLe(key(s[0]), key(rest[j])) {
      assert rest[j] in multiset(rest);
      if rest[j] != x {
        assert rest[j] in multiset(s[1..]);
        var k :| 0 <= k < |s[1..]| && s[1..][k] == rest[j];
        assert s[k + 1] == rest[j];
      }
    }
    var r := [s[0]] + rest;
    forall i, j | 0 <= i < j < |r| ensures StrLe(key(r[i]), key(r[j])) {
      if i > 0 {
        assert r[i] == rest[i - 1] && r[j] == rest[j - 1];
      } else {
        assert r[j] == rest[j - 1];
      }
    }
  }

  /** `sorted(s, key=key)`: a stable insertion sort. */
  function SortBy<T>(s: seq<T>, key: T -> string): (r: seq<T>)
    ensures SortedBy(r, key)
    ensures multiset(r) == multiset(s)
    decreases |s|
  {
    if s == [] then []
    else
      assert s == [s[0]] + s[1..];
      Insert(s[0], SortBy(s[1..], key), key)
  }

  /** Two sorted permutations of the same list agree, provided no two of its
      elements share a key: `sorted` has exactly one possible result. */
  lemma {:induction false} SortedPermutationUnique<T>(a: seq<T>, b: seq<T>, key: T -> string)
    requires SortedBy(a, key) && SortedBy(b, key)
    requires multiset(a) == multiset(b)
    requires KeysDistinct(a, key)
    ensures a == b
    decreases |a|
  {
    assert |b| == |multiset(b)| == |a|;
    if a != [] {
      SortedHeadsAgree(a, b, key);
      SortedTail(a, key);
      SortedTail(b, key);
      TailMultiset(a);
      TailMultiset(b);
      SortedPermutationUnique(a[1..], b[1..], key);
      assert a == [a[0]] + a[1..] && b == [b[0]] + b[1..];
    }
  }

  /** The tail of a sorted list with distinct keys is sorted and has distinct keys. */
  lemma SortedTail<T>(a: seq<T>, key: T -> string)
    requires SortedBy(a, key) && a != []
    ensures SortedBy(a[1..], key)
    ensures KeysDistinct(a, key) ==> KeysDistinct(a[1..], key)
  {
    forall p, q | 0 <= p < q < |a[1..]| ensures StrLe(key(a[1..][p]), key(a[1..][q])) {
      assert a[1..][p] == a[p + 1] && a[1..][q] == a[q + 1];
    }
    if KeysDistinct(a, key) {
      forall p, q | 0 <= p < q < |a[1..]| ensures key(a[1..][p]) != key(a[1..][q]) {
        assert a[1..][p] == a[p + 1] && a[1..][q] == a[q + 1];
      }
    }
  }

  /** Removing the head removes one occurrence of it from the multiset. */
  lemma TailMultiset<T>(a: seq<T>)
    requires a != []
    ensures multiset(a[1..]) == multiset(a) - multiset{a[0]}
  {
    assert a == [a[0]] + a[1..];
  }

  /** The least element of a list with distinct keys is the head of every
      sorted permutation of it. */
  lemma SortedHeadsAgree<T>(a: seq<T>, b: seq<T>, key: T -> string)
    requires SortedBy(a, key) && SortedBy(b, key)
    requires multiset(a) == multiset(b) && a != []
    requires KeysDistinct(a, key)
    ensures b != [] && a[0] == b[0]
  {
    assert a[0] in multiset(b);
    var j :| 0 <= j < |b| && b[j] == a[0];
    assert b[0] in multiset(a);
    var i :| 0 <= i < |a| && a[i] == b[0];
    StrLeReflexive(key(a[0]));
    assert StrLe(key(a[0]), key(b[0])) by {
      if i != 0 { assert StrLe(key(a[0]), key(a[i])); }
    }
    assert StrLe(key(b[0]), key(a[0])) by {
      if j != 0 { assert StrLe(key(b[0]), key(b[j])); }
    }
    StrLeAntisymmetric(key(a[0]), key(b[0]));
  }
}
