/** `Array.prototype.sort` with a comparator, as the scheduler and the export
    script call it: a stable sort, here an insertion sort that places each
    element before the first one it is not greater than. `le(a, b)` stands for
    `compare(a, b) <= 0`. */
module Sorting {

  ghost predicate TotalPreorder<T(!new)>(le: (T, T) -> bool) {
    && (forall a, b :: le(a, b) || le(b, a))
    && (forall a, b, c :: le(a, b) && le(b, c) ==> le(a, c))
  }

  ghost predicate SortedBy<T>(s: seq<T>, le: (T, T) -> bool) {
    forall i, j :: 0 <= i < j < |s| ==> le(s[i], s[j])
  }

  function Insert<T>(x: T, s: seq<T>, le: (T, T) -> bool): (r: seq<T>)
    ensures |r| == |s| + 1
    ensures multiset(r) == multiset(s) + multiset{x}
  {
    if s == [] then [x]
    else if le(x, s[0]) then [x] + s
    else
      assert s == [s[0]] + s[1..];
      [s[0]] + Insert(x, s[1..], le)
  }

  function Sort<T>(s: seq<T>, le: (T, T) -> bool): (r: seq<T>)
    ensures |r| == |s|
    ensures multiset(r) == multiset(s)
  {
    if s == [] then []
    else
      assert s == [s[0]] + s[1..];
      Insert(s[0], Sort(s[1..], le), le)
  }

  lemma {:induction false} InsertSorted<T(!new)>(x: T, s: seq<T>, le: (T, T) -> bool)
    requires TotalPreorder(le)
    requires SortedBy(s, le)
    ensures SortedBy(Insert(x, s, le), le)
  {
    if s != [] && !le(x, s[0]) {
      InsertSorted(x, s[1..], le);
      var r := Insert(x, s, le);
      var tail := Insert(x, s[1..], le);
      assert r == [s[0]] + tail;
      assert le(s[0], x);
      forall j | 0 < j < |r|
        ensures le(s[0], r[j])
      {
        assert r[j] in multiset(tail);
        assert r[j] in multiset(s[1..]) + multiset{x};
        if r[j] != x {
          assert r[j] in s[1..];
          var k :| 0 <= k < |s[1..]| && s[1..][k] == r[j];
          assert le(s[0], s[k + 1]);
        }
      }
    }
  }

  /** The sort returns an ordered permutation of its input. */
  lemma {:induction false} SortSorted<T(!new)>(s: seq<T>, le: (T, T) -> bool)
    requires TotalPreorder(le)
    ensures SortedBy(Sort(s, le), le)
    ensures multiset(Sort(s, le)) == multiset(s)
  {
    if s != [] {
      SortSorted(s[1..], le);
      InsertSorted(s[0], Sort(s[1..], le), le);
    }
  }
  /** `a` and `b` compare as equal. */
  predicate Equivalent<T>(le: (T, T) -> bool, a: T, b: T) {
    le(a, b) && le(b, a)
  }

  /** The elements of `s` that compare as equal to `x`, in the order of `s` */
  function ClassOf<T>(s: seq<T>, le: (T, T) -> bool, x: T): seq<T> {
    if s == [] then []
    else (if Equivalent(le, s[0], x) then [s[0]] else []) + ClassOf(s[1..], le, x)
  }

  /** Inserting an element puts it ahead of every element equal to it. */
  lemma {:induction false} InsertStable<T(!new)>(y: T, s: seq<T>, le: (T, T) -> bool, x: T)
    requires TotalPreorder(le)
    ensures ClassOf(Insert(y, s, le), le, x) ==
      (if Equivalent(le, y, x) then [y] else []) + ClassOf(s, le, x)
  {
    var r := Insert(y, s, le);
    if s == [] {
      assert r[1..] == [];
    } else if le(y, s[0]) {
      assert r[1..] == s;
    } else {
      var tail := Insert(y, s[1..], le);
      InsertStable(y, s[1..], le, x);
      assert r[0] == s[0] && r[1..] == tail;
      var head := if Equivalent(le, s[0], x) then [s[0]] else [];
      var mine := if Equivalent(le, y, x) then [y] else [];
      assert ClassOf(r, le, x) == head + ClassOf(tail, le, x);
      assert ClassOf(s, le, x) == head + ClassOf(s[1..], le, x);
      NotBothEquivalent(y, s[0], le, x);
      assert head + (mine + ClassOf(s[1..], le, x)) == mine + (head + ClassOf(s[1..], le, x));
    }
  }

  /** An element that may not precede `z` is not equal to anything `z` is
      equal to. */
  lemma NotBothEquivalent<T(!new)>(y: T, z: T, le: (T, T) -> bool, x: T)
    requires TotalPreorder(le)
    requires !le(y, z)
    ensures !(Equivalent(le, y, x) && Equivalent(le, z, x))
  {
  }

  /** The sort is stable: elements that compare as equal keep their order. */
  lemma {:induction false} SortStable<T(!new)>(s: seq<T>, le: (T, T) -> bool, x: T)
    requires TotalPreorder(le)
    ensures ClassOf(Sort(s, le), le, x) == ClassOf(s, le, x)
  {
    if s != [] {
      SortStable(s[1..], le, x);
      InsertStable(s[0], Sort(s[1..], le), le, x);
    }
  }
}
