/**
 * A stable sort, standing for LINQ's `OrderBy` / `ThenBy` (which are
 * documented to be stable). `le(a, b)` says that `a` may come before `b`;
 * it is required to be a total preorder, so elements it cannot tell apart
 * keep their input order.
 */
module StableSort {
  import Seqs

  /** `le` is total and transitive. */
  ghost predicate TotalPreorder<T(!new)>(le: (T, T) -> bool) {
    (forall a, b :: le(a, b) || le(b, a)) &&
    (forall a, b, c :: le(a, b) && le(b, c) ==> le(a, c))
  }

  ghost predicate Sorted<T>(s: seq<T>, le: (T, T) -> bool) {
    forall i, j :: 0 <= i < j < |s| ==> le(s[i], s[j])
  }

  /** `a` and `b` are tied under `le`. */
  predicate Tied<T>(le: (T, T) -> bool, a: T, b: T) {
    le(a, b) && le(b, a)
  }

  /** Puts `x` in front of the first element it may precede. */
  function Insert<T>(x: T, l: seq<T>, le: (T, T) -> bool): (r: seq<T>)
    ensures |r| == |l| + 1
    ensures multiset(r) == multiset(l) + multiset{x}
    decreases |l|
  {
    if l == [] || le(x, l[0]) then [x] + l
    else
      assert l == [l[0]] + l[1..];
      [l[0]] + Insert(x, l[1..], le)
  }

  /** Insertion sort from the back, so an earlier element lands before a tied later one. */
  function Sort<T>(s: seq<T>, le: (T, T) -> bool): (r: seq<T>)
    ensures |r| == |s|
    ensures multiset(r) == multiset(s)
    decreases |s|
  {
    if s == [] then []
    else
      assert s == [s[0]] + s[1..];
      Insert(s[0], Sort(s[1..], le), le)
  }

  /** A lower bound of `x` and of all of `l` bounds the insertion too. */
  lemma {:induction false} InsertLowerBound<T>(x: T, l: seq<T>, le: (T, T) -> bool, b: T)
    requires le(b, x)
    requires forall i :: 0 <= i < |l| ==> le(b, l[i])
    ensures forall i :: 0 <= i < |l| + 1 ==> le(b, Insert(x, l, le)[i])
    decreases |l|
  {
    if l != [] && !le(x, l[0]) {
      InsertLowerBound(x, l[1..], le, b);
    }
  }

  lemma {:induction false} InsertSorted<T(!new)>(x: T, l: seq<T>, le: (T, T) -> bool)
    requires TotalPreorder(le)
    requires Sorted(l, le)
    ensures Sorted(Insert(x, l, le), le)
    decreases |l|
  {
    var r := Insert(x, l, le);
    if l == [] || le(x, l[0]) {
      forall i, j | 0 <= i < j < |r| ensures le(r[i], r[j]) {
        if i == 0 && j > 1 {
          assert le(x, l[0]) && le(l[0], l[j - 1]);
        }
      }
    } else {
      var t := Insert(x, l[1..], le);
      InsertSorted(x, l[1..], le);
      InsertLowerBound(x, l[1..], le, l[0]);
      forall i, j | 0 <= i < j < |r| ensures le(r[i], r[j]) {
        if i == 0 {
          assert r[j] == t[j - 1];
        } else {
          assert r[i] == t[i - 1] && r[j] == t[j - 1];
        }
      }
    }
  }

  lemma {:induction false} SortSorted<T(!new)>(s: seq<T>, le: (T, T) -> bool)
    requires TotalPreorder(le)
    ensures Sorted(Sort(s, le), le)
    decreases |s|
  {
    if s != [] {
      SortSorted(s[1..], le);
      InsertSorted(s[0], Sort(s[1..], le), le);
    }
  }

  /** Inserting `x` keeps every tie class of the list in order and puts `x` at its head. */
  lemma {:induction false} InsertStable<T(!new)>(x: T, l: seq<T>, le: (T, T) -> bool, k: T)
    requires TotalPreorder(le)
    ensures Seqs.Filter(Insert(x, l, le), y => Tied(le, y, k)) ==
            (if Tied(le, x, k) then [x] else []) + Seqs.Filter(l, y => Tied(le, y, k))
    decreases |l|
  {
    if l == [] || le(x, l[0]) {
      assert ([x] + l)[1..] == l;
    } else {
      InsertStable(x, l[1..], le, k);
      var r := [l[0]] + Insert(x, l[1..], le);
      assert r[1..] == Insert(x, l[1..], le);
      if Tied(le, x, k) {
        assert !Tied(le, l[0], k);
      }
    }
  }

  /**
   * Stability: for every tie class, the sorted sequence lists its members
   * in exactly the order of the input.
   */
  lemma {:induction false} SortStable<T(!new)>(s: seq<T>, le: (T, T) -> bool, k: T)
    requires TotalPreorder(le)
    ensures Seqs.Filter(Sort(s, le), y => Tied(le, y, k)) == Seqs.Filter(s, y => Tied(le, y, k))
    decreases |s|
  {
    if s != [] {
      SortStable(s[1..], le, k);
      InsertStable(s[0], Sort(s[1..], le), le, k);
    }
  }

  // ---------------------------------------------------------------- ordinal string order

  /** Ordinal (code-point by code-point) lexicographic order on strings. */
  predicate LexLe(a: string, b: string)
    decreases |a|
  {
    if a == [] then true
    else if b == [] then false
    else if a[0] != b[0] then a[0] < b[0]
    else LexLe(a[1..], b[1..])
  }

  lemma {:induction false} LexLeTotal(a: string, b: string)
    ensures LexLe(a, b) || LexLe(b, a)
    decreases |a|
  {
    if a != [] && b != [] && a[0] == b[0] {
      LexLeTotal(a[1..], b[1..]);
    }
  }

  lemma {:induction false} LexLeTrans(a: string, b: string, c: string)
    requires LexLe(a, b) && LexLe(b, c)
    ensures LexLe(a, c)
    decreases |a|
  {
    if a != [] && b != [] && c != [] && a[0] == b[0] && b[0] == c[0] {
      LexLeTrans(a[1..], b[1..], c[1..]);
    }
  }

  /** Ordinal order is antisymmetric, so ties are equal strings. */
  lemma {:induction false} LexLeAntisym(a: string, b: string)
    requires LexLe(a, b) && LexLe(b, a)
    ensures a == b
    decreases |a|
  {
    if a != [] && b != [] {
      LexLeAntisym(a[1..], b[1..]);
      assert a == [a[0]] + a[1..] && b == [b[0]] + b[1..];
    }
  }
}
