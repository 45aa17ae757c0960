/**
 * Row-level operations of the dataframe library the scripts rely on: a frame is a
 * sequence of records, a boolean mask filter keeps rows in order, `drop_duplicates`
 * keeps the first row of each key.
 */
module Frames {

  /** `df[mask]`: the rows satisfying `p`, in their original order. */
  function Filter<T(!new)>(s: seq<T>, p: T -> bool): (r: seq<T>)
    ensures |r| <= |s|
    ensures forall x :: x in r <==> x in s && p(x)
  {
    if s == [] then [] else (if p(s[0]) then [s[0]] else []) + Filter(s[1..], p)
  }

  /** `a` is obtained from `b` by deleting rows, without reordering or changing any. */
  predicate Subseq<T(==)>(a: seq<T>, b: seq<T>)
    decreases |b|
  {
    if a == [] then true
    else if b == [] then false
    else (a[0] == b[0] && Subseq(a[1..], b[1..])) || Subseq(a, b[1..])
  }

  lemma {:induction false} FilterIsSubseq<T(!new)>(s: seq<T>, p: T -> bool)
    ensures Subseq(Filter(s, p), s)
  {
    if s != [] {
      FilterIsSubseq(s[1..], p);
      if p(s[0]) {
        assert Filter(s, p) == [s[0]] + Filter(s[1..], p);
      } else {
        assert Filter(s, p) == Filter(s[1..], p);
        SubseqDropFront(Filter(s, p), s);
      }
    }
  }

  /** Skipping the first row of `b` keeps a subsequence of the rest a subsequence of `b`. */
  lemma SubseqDropFront<T>(a: seq<T>, b: seq<T>)
    requires b != [] && Subseq(a, b[1..])
    ensures Subseq(a, b)
  {
  }

  lemma {:induction false} SubseqTransitive<T>(a: seq<T>, b: seq<T>, c: seq<T>)
    requires Subseq(a, b) && Subseq(b, c)
    ensures Subseq(a, c)
    decreases |c|
  {
    if a != [] {
      assert b != [] && c != [];
      if b[0] == c[0] && Subseq(b[1..], c[1..]) {
        if a[0] == b[0] && Subseq(a[1..], b[1..]) {
          SubseqTransitive(a[1..], b[1..], c[1..]);
        } else {
          SubseqTransitive(a, b[1..], c[1..]);
        }
      } else {
        SubseqTransitive(a, b, c[1..]);
      }
    }
  }

  /** Two successive masks keep exactly the rows the conjoined mask keeps. */
  lemma {:induction false} FilterFilter<T(!new)>(s: seq<T>, p: T -> bool, q: T -> bool)
    ensures Filter(Filter(s, p), q) == Filter(s, x => p(x) && q(x))
  {
    if s != [] {
      FilterFilter(s[1..], p, q);
      assert Filter(s, p) == (if p(s[0]) then [s[0]] else []) + Filter(s[1..], p);
      FilterAppend([s[0]], Filter(s[1..], p), q);
      FilterAppend([], Filter(s[1..], p), q);
    }
  }

  lemma {:induction false} FilterAppend<T(!new)>(a: seq<T>, b: seq<T>, p: T -> bool)
    ensures Filter(a + b, p) == Filter(a, p) + Filter(b, p)
  {
    if a != [] {
      FilterAppend(a[1..], b, p);
      assert (a + b)[1..] == a[1..] + b;
    } else {
      assert a + b == b;
    }
  }

  /** The set of keys of a frame. */
  function Keys<T(==), K>(s: seq<T>, key: T -> K): set<K> {
    set x | x in s :: key(x)
  }

  /**
   * `drop_duplicates(subset=key)` after rows with a key in `seen` were already kept:
   * one row per key, the first one met.
   */
  function DropDuplicatesAfter<T(!new), K(==)>(s: seq<T>, key: T -> K, seen: set<K>): (r: seq<T>)
    ensures forall x :: x in r ==> x in s && key(x) !in seen
    ensures forall i, j :: 0 <= i < j < |r| ==> key(r[i]) != key(r[j])
    ensures Keys(r, key) == Keys(s, key) - seen
  {
    if s == [] then []
    else if key(s[0]) in seen then
      var r := DropDuplicatesAfter(s[1..], key, seen);
      assert Keys(s, key) == {key(s[0])} + Keys(s[1..], key) by {
        assert forall x :: x in s <==> x == s[0] || x in s[1..];
      }
      r
    else
      var rest := DropDuplicatesAfter(s[1..], key, seen + {key(s[0])});
      var r := [s[0]] + rest;
      assert Keys(s, key) == {key(s[0])} + Keys(s[1..], key) by {
        assert forall x :: x in s <==> x == s[0] || x in s[1..];
      }
      assert Keys(r, key) == {key(s[0])} + Keys(rest, key) by {
        assert forall x :: x in r <==> x == s[0] || x in rest;
      }
      r
  }

  /** `drop_duplicates(subset=key)` with pandas' default `keep='first'`. */
  function DropDuplicates<T(!new), K(==)>(s: seq<T>, key: T -> K): (r: seq<T>)
    ensures forall x :: x in r ==> x in s
    ensures forall i, j :: 0 <= i < j < |r| ==> key(r[i]) != key(r[j])
    ensures Keys(r, key) == Keys(s, key)
  {
    DropDuplicatesAfter(s, key, {})
  }

  /** The first row carrying each key is kept (and, keys being unique in the result, no later one). */
  lemma {:induction false} DropDuplicatesKeepsFirst<T(!new), K>(s: seq<T>, key: T -> K, seen: set<K>, i: nat)
    requires i < |s| && key(s[i]) !in seen
    requires forall j :: 0 <= j < i ==> key(s[j]) != key(s[i])
    ensures s[i] in DropDuplicatesAfter(s, key, seen)
  {
    if i == 0 {
    } else if key(s[0]) in seen {
      DropDuplicatesKeepsFirst(s[1..], key, seen, i - 1);
    } else {
      assert key(s[0]) != key(s[i]);
      DropDuplicatesKeepsFirst(s[1..], key, seen + {key(s[0])}, i - 1);
    }
  }

  /** Position of the first row carrying key `k`, or `|s|` when there is none. */
  function FirstKeyIndex<T, K(==)>(s: seq<T>, key: T -> K, k: K): (i: nat)
    ensures i <= |s|
    ensures i < |s| ==> key(s[i]) == k
  {
    if s == [] then 0
    else if key(s[0]) == k then 0
    else 1 + FirstKeyIndex(s[1..], key, k)
  }

  /** No row before the first occurrence of `k` carries `k`. */
  lemma {:induction false} FirstKeyIndexIsFirst<T, K>(s: seq<T>, key: T -> K, k: K, j: nat)
    requires j < FirstKeyIndex(s, key, k)
    ensures key(s[j]) != k
  {
    if j > 0 {
      FirstKeyIndexIsFirst(s[1..], key, k, j - 1);
    }
  }

  /** Every row kept is the first row of `s` carrying its key. */
  lemma {:induction false} DropDuplicatesKeepsOnlyFirst<T(!new), K>(s: seq<T>, key: T -> K, seen: set<K>)
    ensures forall x :: x in DropDuplicatesAfter(s, key, seen) ==>
      FirstKeyIndex(s, key, key(x)) < |s| && s[FirstKeyIndex(s, key, key(x))] == x
  {
    if s != [] {
      var next := if key(s[0]) in seen then seen else seen + {key(s[0])};
      DropDuplicatesKeepsOnlyFirst(s[1..], key, next);
      forall x | x in DropDuplicatesAfter(s, key, seen)
        ensures FirstKeyIndex(s, key, key(x)) < |s| && s[FirstKeyIndex(s, key, key(x))] == x
      {
        if x != s[0] || key(s[0]) in seen {
          assert x in DropDuplicatesAfter(s[1..], key, next);
          assert key(x) != key(s[0]);
          assert FirstKeyIndex(s, key, key(x)) == 1 + FirstKeyIndex(s[1..], key, key(x));
        }
      }
    }
  }

  /** The rows of `r` appear in the order of their keys' first occurrences in `s`. */
  predicate InFirstKeyOrder<T, K(==)>(s: seq<T>, key: T -> K, r: seq<T>) {
    forall i, j :: 0 <= i < j < |r| ==> FirstKeyIndex(s, key, key(r[i])) < FirstKeyIndex(s, key, key(r[j]))
  }

  /** The rows kept appear in the order of their keys' first occurrences. */
  lemma {:induction false} DropDuplicatesOrder<T(!new), K>(s: seq<T>, key: T -> K, seen: set<K>)
    ensures InFirstKeyOrder(s, key, DropDuplicatesAfter(s, key, seen))
  {
    if s != [] {
      var next := if key(s[0]) in seen then seen else seen + {key(s[0])};
      var rest := DropDuplicatesAfter(s[1..], key, next);
      DropDuplicatesOrder(s[1..], key, next);
      assert forall x :: x in rest ==> key(x) != key(s[0]);
      if key(s[0]) in seen {
        assert DropDuplicatesAfter(s, key, seen) == rest;
        OrderShift(s, key, rest);
      } else {
        assert DropDuplicatesAfter(s, key, seen) == [s[0]] + rest;
        OrderShift(s, key, rest);
        OrderCons(s, key, rest);
      }
    }
  }

  /** Rows whose keys are not that of `s[0]` keep their relative order when `s[0]` is put back. */
  lemma OrderShift<T, K>(s: seq<T>, key: T -> K, rest: seq<T>)
    requires s != [] && forall x :: x in rest ==> key(x) != key(s[0])
    requires InFirstKeyOrder(s[1..], key, rest)
    ensures InFirstKeyOrder(s, key, rest)
    ensures forall i :: 0 <= i < |rest| ==> FirstKeyIndex(s, key, key(rest[i])) > 0
  {
    forall i | 0 <= i < |rest|
      ensures FirstKeyIndex(s, key, key(rest[i])) == 1 + FirstKeyIndex(s[1..], key, key(rest[i]))
    {
      assert rest[i] in rest;
    }
  }

  /** The first row of `s`, put in front, comes first in key order. */
  lemma OrderCons<T, K>(s: seq<T>, key: T -> K, rest: seq<T>)
    requires s != [] && InFirstKeyOrder(s, key, rest)
    requires forall i :: 0 <= i < |rest| ==> FirstKeyIndex(s, key, key(rest[i])) > 0
    ensures InFirstKeyOrder(s, key, [s[0]] + rest)
  {
    var r := [s[0]] + rest;
    forall i, j | 0 <= i < j < |r|
      ensures FirstKeyIndex(s, key, key(r[i])) < FirstKeyIndex(s, key, key(r[j]))
    {
      assert r[j] == rest[j - 1];
      if i > 0 {
        assert r[i] == rest[i - 1];
      }
    }
  }

  lemma {:induction false} DropDuplicatesIsSubseq<T(!new), K>(s: seq<T>, key: T -> K, seen: set<K>)
    ensures Subseq(DropDuplicatesAfter(s, key, seen), s)
  {
    if s != [] {
      if key(s[0]) in seen {
        DropDuplicatesIsSubseq(s[1..], key, seen);
        SubseqDropFront(DropDuplicatesAfter(s, key, seen), s);
      } else {
        DropDuplicatesIsSubseq(s[1..], key, seen + {key(s[0])});
      }
    }
  }

  /** Concatenation of a list of frames (`pd.concat(..., ignore_index=True)`). */
  function Flatten<T>(ss: seq<seq<T>>): (r: seq<T>)
    ensures ss == [] ==> r == []
  {
    if ss == [] then [] else ss[0] + Flatten(ss[1..])
  }

  lemma {:induction false} FlattenAppend<T>(ss: seq<seq<T>>, s: seq<T>)
    ensures Flatten(ss + [s]) == Flatten(ss) + s
  {
    if ss != [] {
      assert (ss + [s])[1..] == ss[1..] + [s];
      FlattenAppend(ss[1..], s);
    }
  }

  lemma {:induction false} FlattenLength<T>(ss: seq<seq<T>>)
    ensures |Flatten(ss)| == SumLengths(ss)
  {
    if ss != [] {
      FlattenLength(ss[1..]);
    }
  }

  function SumLengths<T>(ss: seq<seq<T>>): nat {
    if ss == [] then 0 else |ss[0]| + SumLengths(ss[1..])
  }

  /** How many times `x` occurs in `s`. */
  function Count<T(==)>(s: seq<T>, x: T): (n: nat)
    ensures n <= |s|
    ensures n > 0 <==> x in s
  {
    if s == [] then 0 else (if s[0] == x then 1 else 0) + Count(s[1..], x)
  }

  /** Filtering keeps every copy of a row that passes and no copy of one that fails. */
  lemma {:induction false} FilterCount<T(!new)>(s: seq<T>, p: T -> bool, x: T)
    ensures Count(Filter(s, p), x) == if p(x) then Count(s, x) else 0
  {
    if s != [] {
      var head := if p(s[0]) then [s[0]] else [];
      assert Filter(s, p) == head + Filter(s[1..], p);
      CountAppend(head, Filter(s[1..], p), x);
      FilterCount(s[1..], p, x);
      if p(s[0]) {
        assert Count(head, x) == (if s[0] == x then 1 else 0) + Count([], x);
      }
    }
  }

  lemma {:induction false} CountAppend<T>(a: seq<T>, b: seq<T>, x: T)
    ensures Count(a + b, x) == Count(a, x) + Count(b, x)
  {
    if a != [] {
      assert (a + b)[1..] == a[1..] + b;
      CountAppend(a[1..], b, x);
    } else {
      assert a + b == b;
    }
  }

  function Sum(s: seq<nat>): nat {
    if s == [] then 0 else s[0] + Sum(s[1..])
  }

  /** `range(lo, hi)` */
  function Interval(lo: nat, hi: nat): (r: seq<nat>)
    ensures |r| == if lo <= hi then hi - lo else 0
    ensures forall i :: 0 <= i < |r| ==> r[i] == lo + i
    decreases hi - lo
  {
    if lo < hi then [lo] + Interval(lo + 1, hi) else []
  }

  /** `range(lo, hi)` yields every number from `lo` up to `hi - 1` exactly once, and nothing else. */
  lemma {:induction false} IntervalCount(lo: nat, hi: nat, p: nat)
    ensures Count(Interval(lo, hi), p) == if lo <= p < hi then 1 else 0
    decreases hi - lo
  {
    if lo < hi {
      IntervalCount(lo + 1, hi, p);
    }
  }

  /** Rows kept by two masks that no row satisfies together fit in the frame side by side. */
  lemma {:induction false} DisjointFiltersFit<T(!new)>(s: seq<T>, p: T -> bool, q: T -> bool)
    requires forall x :: x in s ==> !(p(x) && q(x))
    ensures |Filter(s, p)| + |Filter(s, q)| <= |s|
  {
    if s != [] {
      DisjointFiltersFit(s[1..], p, q);
    }
  }

  /** The pages fetched at row offsets `1000 * k` for each `k` of `offsets`, in that order. */
  function Pages<T>(fetch: nat -> seq<T>, offsets: seq<nat>): seq<seq<T>> {
    seq(|offsets|, i requires 0 <= i < |offsets| => fetch(PAGE_SIZE * offsets[i]))
  }

  const PAGE_SIZE: nat := 1000

  /** A list of fetched pages, each fetch appending one page of at most 1000 rows. */
  class PageList<T> {
    var pages: seq<seq<T>>

    constructor ()
      ensures pages == []
    {
      pages := [];
    }

    /** Read the page starting at row `offset * 1000` (`OFFSET {offset*1000}`) and append it. */
    method Grab(fetch: nat -> seq<T>, offset: nat)
      modifies this
      ensures pages == old(pages) + [fetch(PAGE_SIZE * offset)]
    {
      pages := pages + [fetch(PAGE_SIZE * offset)];
    }
  }

  /** One `Grab` per offset, in the order the offsets are listed. */
  method GrabPages<T>(fetch: nat -> seq<T>, offsets: seq<nat>, list: PageList<T>)
    modifies list
    ensures list.pages == old(list.pages) + Pages(fetch, offsets)
  {
    for i := 0 to |offsets|
      invariant list.pages == old(list.pages) + Pages(fetch, offsets[..i])
    {
      list.Grab(fetch, offsets[i]);
      assert Pages(fetch, offsets[..i + 1]) == Pages(fetch, offsets[..i]) + [fetch(PAGE_SIZE * offsets[i])];
    }
    assert offsets[..|offsets|] == offsets;
  }
}
