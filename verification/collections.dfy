/** Finite-collection helpers the data layer needs: the least element of a
    set of ids (what "the first row" of an unordered query is taken to be),
    the ids of a set in ascending order, a fresh auto-increment id, and a
    stable sort by a lexicographic key (what an ORDER BY over several
    columns, or JavaScript's stable Array.prototype.sort, produces). */
module Collections {

  predicate IsMin(s: set<int>, m: int) {
    m in s && forall y :: y in s ==> m <= y
  }

  predicate IsMax(s: set<int>, m: int) {
    m in s && forall y :: y in s ==> y <= m
  }

  lemma NonEmpty(s: set<int>)
    requires s != {}
    ensures exists x :: x in s
  {
    if forall x :: x !in s {
      assert false;
    }
  }

  lemma {:induction false} MinExists(s: set<int>)
    requires s != {}
    ensures exists m :: IsMin(s, m)
  {
    NonEmpty(s);
    var x :| x in s;
    var t := s - {x};
    if t == {} {
      forall y | y in s ensures x <= y { assert y !in t; }
      assert IsMin(s, x);
    } else {
      MinExists(t);
      var m :| IsMin(t, m);
      var r := if x < m then x else m;
      forall y | y in s ensures r <= y { if y != x { assert y in t; } }
      assert IsMin(s, r);
    }
  }

  lemma {:induction false} MaxExists(s: set<int>)
    requires s != {}
    ensures exists m :: IsMax(s, m)
  {
    NonEmpty(s);
    var x :| x in s;
    var t := s - {x};
    if t == {} {
      forall y | y in s ensures y <= x { assert y !in t; }
      assert IsMax(s, x);
    } else {
      MaxExists(t);
      var m :| IsMax(t, m);
      var r := if x > m then x else m;
      forall y | y in s ensures y <= r { if y != x { assert y in t; } }
      assert IsMax(s, r);
    }
  }

  /** The least element of a non-empty set of ids. */
  function MinOf(s: set<int>): (m: int)
    requires s != {}
    ensures m in s
    ensures forall y :: y in s ==> m <= y
  {
    MinExists(s);
    var m :| IsMin(s, m);
    m
  }

  /** The greatest element of a non-empty set of ids. */
  function MaxOf(s: set<int>): (m: int)
    requires s != {}
    ensures m in s
    ensures forall y :: y in s ==> y <= m
  {
    MaxExists(s);
    var m :| IsMax(s, m);
    m
  }

  /** The id an AUTO_INCREMENT column hands out next: positive and larger
      than every id already in use. */
  function FreshId(used: set<int>): (r: int)
    ensures r > 0
    ensures r !in used
    ensures forall y :: y in used ==> y < r
  {
    if used == {} then 1
    else
      var m := MaxOf(used);
      if m < 1 then 1 else m + 1
  }

  /** The elements of a set of ids, each exactly once, in ascending order. */
  function SortedKeys(s: set<int>): (r: seq<int>)
    ensures |r| == |s|
    ensures forall x :: x in r <==> x in s
    ensures forall i, j :: 0 <= i < j < |r| ==> r[i] < r[j]
    decreases |s|
  {
    if s == {} then []
    else
      var m := MinOf(s);
      [m] + SortedKeys(s - {m})
  }

  /** `r` is `s` with some elements left out, the rest in their order. */
  ghost predicate IsSubsequence<T>(r: seq<T>, s: seq<T>)
    decreases |s|
  {
    if r == [] then true
    else if s == [] then false
    else (r[0] == s[0] && IsSubsequence(r[1..], s[1..])) || IsSubsequence(r, s[1..])
  }

  /** The elements of `s` that satisfy `p`, in their original order. */
  function Filter<T>(s: seq<T>, p: T -> bool): (r: seq<T>)
    ensures |r| <= |s|
    ensures forall i :: 0 <= i < |r| ==> r[i] in s && p(r[i])
    ensures forall i :: 0 <= i < |s| && p(s[i]) ==> s[i] in r
    ensures IsSubsequence(r, s)
  {
    if s == [] then []
    else if p(s[0]) then [s[0]] + Filter(s[1..], p)
    else Filter(s[1..], p)
  }

  /** Filtering a sequence with one more element at the end. */
  lemma {:induction false} FilterSnoc<T>(s: seq<T>, x: T, p: T -> bool)
    ensures Filter(s + [x], p) == Filter(s, p) + (if p(x) then [x] else [])
  {
    if s == [] {
      assert s + [x] == [x];
    } else {
      assert (s + [x])[1..] == s[1..] + [x];
      FilterSnoc(s[1..], x, p);
    }
  }

  /** `s` back to front. */
  function Reverse<T>(s: seq<T>): (r: seq<T>)
    ensures |r| == |s|
    ensures forall i :: 0 <= i < |s| ==> r[i] == s[|s| - 1 - i]
  {
    if s == [] then [] else Reverse(s[1..]) + [s[0]]
  }

  /** Filtering and reversing a sequence with one more element at the end:
      the new element, if kept, comes first. */
  lemma NewestFilteredFirst<T>(s: seq<T>, x: T, p: T -> bool, rest: seq<T>)
    requires rest == Reverse(Filter(s, p))
    ensures Reverse(Filter(s + [x], p)) == (if p(x) then [x] + rest else rest)
  {
    FilterSnoc(s, x, p);
    var f := Filter(s, p);
    if p(x) {
      ReverseSnoc(f, x);
    } else {
      assert f + [] == f;
    }
  }

  lemma ReverseSnoc<T>(s: seq<T>, x: T)
    ensures Reverse(s + [x]) == [x] + Reverse(s)
  {
    var a, b := Reverse(s + [x]), [x] + Reverse(s);
    forall i | 0 <= i < |a|
      ensures a[i] == b[i]
    {
      if i > 0 {
        assert b[i] == Reverse(s)[i - 1];
      }
    }
  }

  /** Lexicographic order on sort keys: `a` sorts no later than `b`. On keys
      of one length it is a total preorder (LexTotal, LexTrans). */
  predicate LexLe(a: seq<int>, b: seq<int>) {
    |a| == 0 || (|b| > 0 && (a[0] < b[0] || (a[0] == b[0] && LexLe(a[1..], b[1..]))))
  }

  lemma {:induction false} LexTotal(a: seq<int>, b: seq<int>)
    requires |a| == |b|
    ensures LexLe(a, b) || LexLe(b, a)
  {
    if |a| > 0 && a[0] == b[0] {
      LexTotal(a[1..], b[1..]);
    }
  }

  lemma {:induction false} LexTrans(a: seq<int>, b: seq<int>, c: seq<int>)
    requires LexLe(a, b) && LexLe(b, c)
    ensures LexLe(a, c)
  {
    if |a| > 0 && a[0] == b[0] && b[0] == c[0] {
      LexTrans(a[1..], b[1..], c[1..]);
    }
  }

  /** Every key of the sequence has the same length. */
  predicate KeysUniform<T>(s: seq<T>, key: T -> seq<int>, n: nat) {
    forall i :: 0 <= i < |s| ==> |key(s[i])| == n
  }

  predicate SortedBy<T>(s: seq<T>, key: T -> seq<int>) {
    forall i, j :: 0 <= i < j < |s| ==> LexLe(key(s[i]), key(s[j]))
  }

  /** Inserts `x` after the leading elements whose keys do not exceed its
      own; on a sorted sequence, equal keys keep their arrival order. */
  function Insert<T(==)>(x: T, s: seq<T>, key: T -> seq<int>): (r: seq<T>)
    ensures multiset(r) == multiset(s) + multiset{x}
    ensures |r| == |s| + 1
  {
    if s == [] then [x]
    else if LexLe(key(s[0]), key(x)) then
      assert s == [s[0]] + s[1..];
      [s[0]] + Insert(x, s[1..], key)
    else [x] + s
  }

  lemma {:induction false} InsertBound<T>(b: seq<int>, x: T, s: seq<T>, key: T -> seq<int>)
    requires LexLe(b, key(x))
    requires forall j :: 0 <= j < |s| ==> LexLe(b, key(s[j]))
    ensures forall i :: 0 <= i < |Insert(x, s, key)| ==> LexLe(b, key(Insert(x, s, key)[i]))
  {
    if s != [] && LexLe(key(s[0]), key(x)) {
      InsertBound(b, x, s[1..], key);
    }
  }

  lemma {:induction false} InsertUniform<T>(x: T, s: seq<T>, key: T -> seq<int>, n: nat)
    requires KeysUniform(s, key, n) && |key(x)| == n
    ensures KeysUniform(Insert(x, s, key), key, n)
  {
    if s != [] && LexLe(key(s[0]), key(x)) {
      InsertUniform(x, s[1..], key, n);
    }
  }

  lemma {:induction false} InsertSorted<T>(x: T, s: seq<T>, key: T -> seq<int>, n: nat)
    requires SortedBy(s, key) && KeysUniform(s, key, n) && |key(x)| == n
    ensures SortedBy(Insert(x, s, key), key)
  {
    if s == [] {
    } else if LexLe(key(s[0]), key(x)) {
      InsertSorted(x, s[1..], key, n);
      InsertBound(key(s[0]), x, s[1..], key);
    } else {
      LexTotal(key(x), key(s[0]));
      forall j | 0 <= j < |s|
        ensures LexLe(key(x), key(s[j]))
      {
        if j > 0 {
          LexTrans(key(x), key(s[0]), key(s[j]));
        }
      }
    }
  }

  /** Stable insertion sort by a lexicographic key of length `n`. */
  function SortBy<T(==)>(s: seq<T>, key: T -> seq<int>, n: nat): (r: seq<T>)
    requires KeysUniform(s, key, n)
    ensures multiset(r) == multiset(s)
    ensures |r| == |s|
    ensures SortedBy(r, key) && KeysUniform(r, key, n)
  {
    if s == [] then []
    else
      var init := s[..|s| - 1];
      assert s == init + [s[|s| - 1]];
      var sorted := SortBy(init, key, n);
      InsertSorted(s[|s| - 1], sorted, key, n);
      InsertUniform(s[|s| - 1], sorted, key, n);
      Insert(s[|s| - 1], sorted, key)
  }

  lemma MultisetMember<T>(s: seq<T>, r: seq<T>, x: T)
    requires multiset(r) == multiset(s)
    ensures x in r <==> x in s
  {
    assert x in r <==> x in multiset(r);
    assert x in s <==> x in multiset(s);
  }

  /** An element whose key no other position shares occurs at most once:
      with pairwise distinct keys, every element is counted at most once. */
  lemma {:induction false} DistinctKeysOnce<T>(s: seq<T>, key: T -> int, x: T)
    requires forall i, j :: 0 <= i < j < |s| ==> key(s[i]) != key(s[j])
    ensures multiset(s)[x] <= 1
  {
    if s != [] {
      var rest := s[1..];
      assert s == [s[0]] + rest;
      DistinctKeysOnce(rest, key, x);
      if s[0] == x {
        forall k | 0 <= k < |rest| ensures rest[k] != x {
          assert key(s[0]) != key(s[k + 1]);
        }
        assert x !in multiset(rest);
      }
    }
  }

  /** An element found at two positions is counted at least twice. */
  lemma TwiceInMultiset<T>(s: seq<T>, i: int, j: int)
    requires 0 <= i < j < |s| && s[i] == s[j]
    ensures multiset(s)[s[i]] >= 2
  {
    var x := s[i];
    assert s == s[..j] + [s[j]] + s[j + 1..];
    assert s[..j][i] == x;
    assert x in multiset(s[..j]);
  }

  /** Reordering a sequence whose elements have pairwise distinct keys
      keeps the keys pairwise distinct. */
  lemma PermutationKeepsDistinctKeys<T>(base: seq<T>, r: seq<T>, key: T -> int)
    requires multiset(r) == multiset(base)
    requires forall i, j :: 0 <= i < j < |base| ==> key(base[i]) != key(base[j])
    ensures forall i, j :: 0 <= i < j < |r| ==> key(r[i]) != key(r[j])
  {
    forall i, j | 0 <= i < j < |r| ensures key(r[i]) != key(r[j]) {
      if r[i] == r[j] {
        TwiceInMultiset(r, i, j);
        DistinctKeysOnce(base, key, r[i]);
        assert false;
      } else {
        MultisetMember(base, r, r[i]);
        MultisetMember(base, r, r[j]);
        var a :| 0 <= a < |base| && base[a] == r[i];
        var b :| 0 <= b < |base| && base[b] == r[j];
        assert a != b;
        if a < b {
          assert key(base[a]) != key(base[b]);
        } else {
          assert key(base[b]) != key(base[a]);
        }
      }
    }
  }
}
