/** Ordering and sorting of text as Rust's `Ord for String` and the stable
    `sort`/`sort_by_key` of slices do it: lexicographic comparison of the
    characters, equal keys keeping their order. */
module Sorting {

  /** `a <= b` in the lexicographic order of characters, which is the byte
      order of their UTF-8 encodings. */
  predicate LessEq(a: string, b: string)
    decreases |a|
  {
    a == [] || (b != [] && (a[0] < b[0] || (a[0] == b[0] && LessEq(a[1..], b[1..]))))
  }

  lemma {:induction false} LessEqTotal(a: string, b: string)
    ensures LessEq(a, b) || LessEq(b, a)
    decreases |a|
  {
    if a != [] && b != [] && a[0] == b[0] {
      LessEqTotal(a[1..], b[1..]);
    }
  }

  lemma {:induction false} LessEqTransitive(a: string, b: string, c: string)
    requires LessEq(a, b) && LessEq(b, c)
    ensures LessEq(a, c)
    decreases |a|
  {
    if a != [] && a[0] == b[0] && b[0] == c[0] {
      LessEqTransitive(a[1..], b[1..], c[1..]);
    }
  }

  lemma {:induction false} LessEqAntisymmetric(a: string, b: string)
    requires LessEq(a, b) && LessEq(b, a)
    ensures a == b
    decreases |a|
  {
    if a != [] {
      LessEqAntisymmetric(a[1..], b[1..]);
      assert a == [a[0]] + a[1..] && b == [b[0]] + b[1..];
    }
  }

  /** The keys of `s` ascend. */
  ghost predicate Sorted<T>(s: seq<T>, key: T -> string) {
    forall i, j :: 0 <= i < j < |s| ==> LessEq(key(s[i]), key(s[j]))
  }

  /** No element occurs twice in `s`. */
  ghost predicate Distinct<T>(s: seq<T>) {
    forall i, j :: 0 <= i < j < |s| ==> s[i] != s[j]
  }

  /** `x` placed in front of the first element whose key is not less. */
  function Insert<T>(x: T, s: seq<T>, key: T -> string): seq<T>
    decreases |s|
  {
    if s == [] || LessEq(key(x), key(s[0])) then [x] + s
    else [s[0]] + Insert(x, s[1..], key)
  }

  /** The stable insertion sort of `s` by `key`. */
  function Sort<T>(s: seq<T>, key: T -> string): seq<T>
    decreases |s|
  {
    if s == [] then [] else Insert(s[0], Sort(s[1..], key), key)
  }

  lemma {:induction false} InsertSorted<T>(x: T, s: seq<T>, key: T -> string)
    requires Sorted(s, key)
    ensures Sorted(Insert(x, s, key), key)
    ensures multiset(Insert(x, s, key)) == multiset(s) + multiset{x}
    decreases |s|
  {
    if s != [] && !LessEq(key(x), key(s[0])) {
      var rest := Insert(x, s[1..], key);
      InsertSorted(x, s[1..], key);
      assert s == [s[0]] + s[1..];
      LessEqTotal(key(x), key(s[0]));
      var r := [s[0]] + rest;
      forall j | 0 < j < |r|
        ensures LessEq(key(s[0]), key(r[j]))
      {
        assert r[j] in multiset(rest);
        if r[j] != x {
          assert r[j] in multiset(s[1..]);
          var k :| 0 <= k < |s[1..]| && s[1..][k] == r[j];
          assert s[k + 1] == r[j];
        }
      }
    } else if s != [] {
      var r := [x] + s;
      forall i, j | 0 <= i < j < |r|
        ensures LessEq(key(r[i]), key(r[j]))
      {
        if i == 0 {
          if j > 1 {
            LessEqTransitive(key(x), key(s[0]), key(s[j - 1]));
          }
        }
      }
    }
  }

  /** `Sort` orders by key and permutes its input. */
  lemma {:induction false} SortSorted<T>(s: seq<T>, key: T -> string)
    ensures Sorted(Sort(s, key), key)
    ensures multiset(Sort(s, key)) == multiset(s)
    decreases |s|
  {
    if s != [] {
      SortSorted(s[1..], key);
      InsertSorted(s[0], Sort(s[1..], key), key);
      assert s == [s[0]] + s[1..];
    }
  }

  /** The elements of `s` whose key is `k`, in their order in `s`. */
  function WithKey<T>(s: seq<T>, key: T -> string, k: string): seq<T>
    decreases |s|
  {
    if s == [] then [] else (if key(s[0]) == k then [s[0]] else []) + WithKey(s[1..], key, k)
  }

  lemma {:induction false} LessEqReflexive(a: string)
    ensures LessEq(a, a)
    decreases |a|
  {
    if a != [] {
      LessEqReflexive(a[1..]);
    }
  }

  /** `Insert` never moves `x` past an element with the same key: among the
      elements with any one key, `x` comes first. */
  lemma {:induction false} InsertWithKey<T>(x: T, s: seq<T>, key: T -> string, k: string)
    ensures WithKey(Insert(x, s, key), key, k) == (if key(x) == k then [x] else []) + WithKey(s, key, k)
    decreases |s|
  {
    if s != [] && !LessEq(key(x), key(s[0])) {
      LessEqReflexive(key(x));
      InsertWithKey(x, s[1..], key, k);
      assert ([s[0]] + Insert(x, s[1..], key))[1..] == Insert(x, s[1..], key);
    } else {
      assert ([x] + s)[1..] == s;
    }
  }

  /** `Sort` is stable: for every key, the elements with that key come out
      in the order they went in. */
  lemma {:induction false} SortStable<T>(s: seq<T>, key: T -> string, k: string)
    ensures WithKey(Sort(s, key), key, k) == WithKey(s, key, k)
    decreases |s|
  {
    if s != [] {
      SortStable(s[1..], key, k);
      InsertWithKey(s[0], Sort(s[1..], key), key, k);
    }
  }

  /** Two sorted sequences without repetitions that hold the same elements
      are equal: sorting a set's elements does not depend on the order they
      were listed in. */
  lemma {:induction false} SortedSetUnique(a: seq<string>, b: seq<string>)
    requires Sorted(a, Identity) && Sorted(b, Identity) && Distinct(a) && Distinct(b)
    requires forall x :: x in a <==> x in b
    ensures a == b
    decreases |a|
  {
    assert a != [] ==> a[0] in a;
    assert b != [] ==> b[0] in b;
    if a != [] && b != [] {
      assert a[0] == b[0] by {
        assert a[0] in a && b[0] in b;
        var i :| 0 <= i < |b| && b[i] == a[0];
        var j :| 0 <= j < |a| && a[j] == b[0];
        if i > 0 && j > 0 {
          assert LessEq(b[0], b[i]) && LessEq(a[0], a[j]);
          LessEqAntisymmetric(a[0], b[0]);
        }
      }
      forall x
        ensures x in a[1..] <==> x in b[1..]
      {
        if x in a[1..] {
          TailMember(a, x);
          TailMemberBack(b, x);
        }
        if x in b[1..] {
          TailMember(b, x);
          TailMemberBack(a, x);
        }
      }
      SortedSetUnique(a[1..], b[1..]);
      assert a == [a[0]] + a[1..] && b == [b[0]] + b[1..];
    }
  }

  /** An element of the tail of a sequence without repetitions is in the
      sequence and is not its head. */
  lemma TailMember<T>(s: seq<T>, x: T)
    requires s != [] && Distinct(s) && x in s[1..]
    ensures x in s && x != s[0]
  {
    var k :| 0 <= k < |s[1..]| && s[1..][k] == x;
    assert s[k + 1] == x;
  }

  /** The head of a sequence without repetitions is not in its tail. */
  lemma HeadNotInTail<T>(s: seq<T>)
    requires s != [] && Distinct(s)
    ensures s[0] !in s[1..]
  {
    forall k | 0 <= k < |s| - 1
      ensures s[1..][k] != s[0]
    {
      assert s[1..][k] == s[k + 1];
    }
  }

  lemma TailMemberBack<T>(s: seq<T>, x: T)
    requires s != [] && x in s && x != s[0]
    ensures x in s[1..]
  {
    var k :| 0 <= k < |s| && s[k] == x;
    assert s[1..][k - 1] == x;
  }

  /** The key of a string when strings are sorted by themselves. */
  function Identity(s: string): string {
    s
  }
}
