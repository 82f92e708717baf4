/** What a sort by a comparison function promises, and when that pins the result down. */
module Sorting {

  /** Go's string order: lexicographic, a proper prefix first. */
  predicate StrLe(a: string, b: string) {
    if a == [] then true
    else if b == [] then false
    else a[0] < b[0] || (a[0] == b[0] && StrLe(a[1..], b[1..]))
  }

  lemma {:induction false} StrLeTotal(a: string, b: string)
    ensures StrLe(a, b) || StrLe(b, a)
    ensures StrLe(a, b) && StrLe(b, a) ==> a == b
  {
    if a != [] && b != [] {
      StrLeTotal(a[1..], b[1..]);
      if StrLe(a, b) && StrLe(b, a) {
        assert a == [a[0]] + a[1..] && b == [b[0]] + b[1..];
      }
    }
  }

  lemma {:induction false} StrLeTransitive(a: string, b: string, c: string)
    requires StrLe(a, b) && StrLe(b, c)
    ensures StrLe(a, c)
  {
    if a != [] && a[0] == c[0] {
      StrLeTransitive(a[1..], b[1..], c[1..]);
    }
  }

  /** The strings agree up to k, and there a ends, or has the smaller character. */
  predicate BeforeAt(a: string, b: string, k: nat) {
    && k <= |a| && k <= |b| && a[..k] == b[..k]
    && if k == |a| then true else k < |b| && a[k] < b[k]
  }

  lemma {:induction false} StrLeExactly(a: string, b: string)
    ensures StrLe(a, b) <==> exists k: nat :: BeforeAt(a, b, k)
  {
    forall k: nat | k > 0 && BeforeAt(a, b, k) ensures a != [] && b != [] && a[0] == b[0] {
      assert a[..k][0] == a[0] && b[..k][0] == b[0];
    }
    if a != [] && b != [] && a[0] == b[0] {
      StrLeExactly(a[1..], b[1..]);
      if k: nat :| BeforeAt(a[1..], b[1..], k) {
        assert a[..k + 1] == [a[0]] + a[1..][..k] && b[..k + 1] == [b[0]] + b[1..][..k];
        assert BeforeAt(a, b, k + 1);
      }
      if k: nat :| BeforeAt(a, b, k) {
        if k > 0 {
          assert a[1..][..k - 1] == a[..k][1..] && b[1..][..k - 1] == b[..k][1..];
          assert BeforeAt(a[1..], b[1..], k - 1);
        }
      }
    } else {
      if StrLe(a, b) {
        assert BeforeAt(a, b, 0);
      }
    }
  }

  ghost predicate Total<T(!new)>(le: (T, T) -> bool) {
    forall x, y :: le(x, y) || le(y, x)
  }

  ghost predicate Transitive<T(!new)>(le: (T, T) -> bool) {
    forall x, y, z :: le(x, y) && le(y, z) ==> le(x, z)
  }

  ghost predicate Preorder<T(!new)>(le: (T, T) -> bool) {
    Total(le) && Transitive(le)
  }

  ghost predicate Ordered<T>(s: seq<T>, le: (T, T) -> bool) {
    forall i, j :: 0 <= i < j < |s| ==> le(s[i], s[j])
  }

  /** r is a sorted permutation of s: all that an unstable sort promises. */
  ghost predicate Sorts<T>(r: seq<T>, s: seq<T>, le: (T, T) -> bool) {
    multiset(r) == multiset(s) && Ordered(r, le)
  }

  /** The comparison tells any two different elements of s apart. */
  ghost predicate Tells<T>(s: seq<T>, le: (T, T) -> bool) {
    forall x, y :: x in s && y in s && le(x, y) && le(y, x) ==> x == y
  }

  lemma SameElements<T>(a: seq<T>, b: seq<T>)
    requires multiset(a) == multiset(b)
    ensures |a| == |b|
    ensures forall x :: x in a <==> x in b
  {
    assert |multiset(a)| == |multiset(b)|;
    forall x ensures x in a <==> x in b {
      assert x in multiset(a) <==> x in a;
      assert x in multiset(b) <==> x in b;
    }
  }

  lemma HeadIsLeast<T(!new)>(s: seq<T>, x: T, le: (T, T) -> bool)
    requires Preorder(le) && Ordered(s, le) && x in s
    ensures le(s[0], x)
  {
    var i :| 0 <= i < |s| && s[i] == x;
    assert le(x, x) || le(x, x);
  }

  lemma TailMultiset<T>(s: seq<T>)
    requires s != []
    ensures multiset(s[1..]) == multiset(s) - multiset{s[0]}
  {
    assert s == [s[0]] + s[1..];
  }

  /** When the comparison tells the elements apart there is only one sorted permutation. */
  lemma {:induction false} SortingIsUnique<T(!new)>(a: seq<T>, b: seq<T>, le: (T, T) -> bool)
    requires Preorder(le) && Ordered(a, le) && Ordered(b, le)
    requires multiset(a) == multiset(b) && Tells(a, le)
    ensures a == b
    decreases |a|
  {
    SameElements(a, b);
    if a != [] {
      HeadIsLeast(a, b[0], le);
      HeadIsLeast(b, a[0], le);
      assert a[0] == b[0];
      TailMultiset(a);
      TailMultiset(b);
      SortingIsUnique(a[1..], b[1..], le);
      assert a == [a[0]] + a[1..] && b == [b[0]] + b[1..];
    }
  }

  lemma SwapKeepsMultiset<T>(s: seq<T>, i: nat, j: nat)
    requires i < |s| && j < |s|
    ensures multiset(s[i := s[j]][j := s[i]]) == multiset(s)
  {
  }

  lemma SwapKeepsOrder<T(!new)>(s: seq<T>, i: nat, j: nat, le: (T, T) -> bool)
    requires Preorder(le) && Ordered(s, le)
    requires i < j < |s| && le(s[j], s[i])
    ensures Ordered(s[i := s[j]][j := s[i]], le)
  {
    var r := s[i := s[j]][j := s[i]];
    forall a, b | 0 <= a < b < |s| ensures le(r[a], r[b]) {
      assert le(s[a], s[b]);
      if a == i {
        if b != j { assert le(s[i], s[b]); assert le(s[j], s[i]); }
      } else if a == j {
        assert le(s[i], s[j]) && le(s[j], s[b]);
      } else if b == i {
        assert le(s[a], s[i]) && le(s[i], s[j]);
      } else if b == j {
        if a < i { assert le(s[a], s[i]); }
        else { assert le(s[a], s[j]) && le(s[j], s[i]); }
      }
    }
  }

  /** When the comparison does not, a sort may return either of two different sequences. */
  lemma SortingIsNotUnique<T(!new)>(s: seq<T>, r: seq<T>, le: (T, T) -> bool)
    requires Preorder(le) && Sorts(r, s, le) && !Tells(s, le)
    ensures exists other :: Sorts(other, s, le) && other != r
  {
    hide Preorder, Ordered;
    var x, y :| x in s && y in s && le(x, y) && le(y, x) && x != y;
    SameElements(r, s);
    var i :| 0 <= i < |r| && r[i] == x;
    var j :| 0 <= j < |r| && r[j] == y;
    if i < j { SwapSorts(s, r, i, j, le); } else { SwapSorts(s, r, j, i, le); }
  }

  lemma SwapSorts<T(!new)>(s: seq<T>, r: seq<T>, i: nat, j: nat, le: (T, T) -> bool)
    requires Preorder(le) && Sorts(r, s, le)
    requires i < j < |r| && le(r[j], r[i]) && r[i] != r[j]
    ensures exists other :: Sorts(other, s, le) && other != r
  {
    hide Preorder, Ordered;
    SwapKeepsMultiset(r, i, j);
    SwapKeepsOrder(r, i, j, le);
    var other := r[i := r[j]][j := r[i]];
    assert other[i] != r[i];
    assert Sorts(other, s, le);
  }

  function Insert<T>(s: seq<T>, x: T, le: (T, T) -> bool): seq<T> {
    if s == [] then [x]
    else
      var last := |s| - 1;
      if le(x, s[last]) then Insert(s[..last], x, le) + [s[last]] else s + [x]
  }

  function Sorted<T>(s: seq<T>, le: (T, T) -> bool): seq<T> {
    if s == [] then [] else Insert(Sorted(s[..|s| - 1], le), s[|s| - 1], le)
  }

  lemma {:induction false} InsertSorts<T(!new)>(s: seq<T>, x: T, le: (T, T) -> bool)
    requires Preorder(le) && Ordered(s, le)
    ensures Sorts(Insert(s, x, le), s + [x], le)
  {
    if s != [] {
      var last := |s| - 1;
      var front := s[..last];
      assert s == front + [s[last]];
      if le(x, s[last]) {
        InsertSorts(front, x, le);
        SameElements(Insert(front, x, le), front + [x]);
        Appended(Insert(front, x, le), s[last], le);
      } else {
        forall y | y in s ensures le(y, x) {
          var i :| 0 <= i < |s| && s[i] == y;
          assert le(s[last], x);
          assert i < last ==> le(s[i], s[last]);
        }
        Appended(s, x, le);
      }
    }
  }

  lemma Appended<T>(s: seq<T>, x: T, le: (T, T) -> bool)
    requires Ordered(s, le) && forall y :: y in s ==> le(y, x)
    ensures Ordered(s + [x], le)
  {
  }

  lemma {:induction false} SortedSorts<T(!new)>(s: seq<T>, le: (T, T) -> bool)
    requires Preorder(le)
    ensures Sorts(Sorted(s, le), s, le)
  {
    if s != [] {
      var front, x := s[..|s| - 1], s[|s| - 1];
      SortedSorts(front, le);
      InsertSorts(Sorted(front, le), x, le);
      assert s == front + [x];
      assert multiset(Sorted(front, le) + [x]) == multiset(front) + multiset{x};
    }
  }

  /** Sort a slice by a comparison function; the order of equal elements is left open. */
  method SortSlice<T(!new)>(s: seq<T>, le: (T, T) -> bool) returns (r: seq<T>)
    requires Preorder(le)
    ensures Sorts(r, s, le)
  {
    r := Sorted(s, le);
    SortedSorts(s, le);
  }

  lemma StrLeIsPreorder()
    ensures Preorder(StrLe)
    ensures forall x, y :: StrLe(x, y) && StrLe(y, x) ==> x == y
  {
    forall x, y ensures StrLe(x, y) || StrLe(y, x) {
      StrLeTotal(x, y);
    }
    forall x, y | StrLe(x, y) && StrLe(y, x) ensures x == y {
      StrLeTotal(x, y);
    }
    forall x, y, z | StrLe(x, y) && StrLe(y, z) ensures StrLe(x, z) {
      StrLeTransitive(x, y, z);
    }
  }

  /** Order by one string, then by another. */
  predicate PairLe(a: string, b: string, x: string, y: string) {
    if a != x then StrLe(a, x) else StrLe(b, y)
  }

  lemma PairLeLaws(a: string, b: string, c: string, d: string, e: string, f: string)
    ensures PairLe(a, b, c, d) || PairLe(c, d, a, b)
    ensures PairLe(a, b, c, d) && PairLe(c, d, a, b) ==> a == c && b == d
    ensures PairLe(a, b, c, d) && PairLe(c, d, e, f) ==> PairLe(a, b, e, f)
  {
    StrLeTotal(a, c);
    StrLeTotal(b, d);
    if PairLe(a, b, c, d) && PairLe(c, d, e, f) {
      if a != c && c != e {
        StrLeTransitive(a, c, e);
        if a == e { StrLeTotal(a, c); }
      } else if a == c == e {
        StrLeTransitive(b, d, f);
      }
    }
  }

  // ---- Elements without order ----

  lemma NoRepeats<T>(s: seq<T>)
    ensures (forall i, j :: 0 <= i < j < |s| ==> s[i] != s[j]) <==> (forall x :: multiset(s)[x] <= 1)
  {
    if s != [] {
      var tail := s[1..];
      NoRepeats(tail);
      assert s == [s[0]] + tail;
      if forall i, j :: 0 <= i < j < |s| ==> s[i] != s[j] {
        forall i, j | 0 <= i < j < |tail| ensures tail[i] != tail[j] {
          assert tail[i] == s[i + 1] && tail[j] == s[j + 1];
        }
        assert s[0] !in tail;
      }
      if forall x :: multiset(s)[x] <= 1 {
        forall x ensures multiset(tail)[x] <= 1 {
          assert multiset(s)[x] <= 1;
        }
        assert multiset(s)[s[0]] == 1 + multiset(tail)[s[0]];
        assert s[0] !in multiset(tail);
        forall i, j | 0 <= i < j < |s| ensures s[i] != s[j] {
          if i > 0 { assert tail[i - 1] != tail[j - 1]; }
          else { assert tail[j - 1] in tail; }
        }
      }
    }
  }

  lemma SameSets<T>(a: seq<T>, b: seq<T>)
    requires forall x :: x in a <==> x in b
    requires forall i, j :: 0 <= i < j < |a| ==> a[i] != a[j]
    requires forall i, j :: 0 <= i < j < |b| ==> b[i] != b[j]
    ensures multiset(a) == multiset(b)
  {
    NoRepeats(a);
    NoRepeats(b);
    forall x ensures multiset(a)[x] == multiset(b)[x] {
      assert x in multiset(a) <==> x in a;
      assert x in multiset(b) <==> x in b;
    }
  }
}
