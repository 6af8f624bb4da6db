/** Shared vocabulary: optional values, lookups, and the few facts about filtering and
    sorting sequences that several components rest on. */
module Sequences {

  datatype Option<+T> = None | Some(value: T)

  function Lookup<K, V>(m: map<K, V>, k: K): Option<V> {
    if k in m then Some(m[k]) else None
  }

  /** A map is what its lookups say. */
  lemma SameLookups<K(!new), V>(a: map<K, V>, b: map<K, V>)
    requires forall k :: Lookup(a, k) == Lookup(b, k)
    ensures a == b
  {
    forall k ensures k in a <==> k in b {
      assert Lookup(a, k) == Lookup(b, k);
    }
    forall k | k in a ensures a[k] == b[k] {
      assert Lookup(a, k) == Lookup(b, k);
    }
  }

  function Filter<T>(s: seq<T>, keep: T -> bool): seq<T> {
    if s == [] then []
    else
      var last := |s| - 1;
      Filter(s[..last], keep) + if keep(s[last]) then [s[last]] else []
  }

  lemma FilterStep<T>(s: seq<T>, i: nat, keep: T -> bool)
    requires i < |s|
    ensures Filter(s[..i + 1], keep) == Filter(s[..i], keep) + if keep(s[i]) then [s[i]] else []
  {
    assert s[..i + 1][..i] == s[..i];
  }

  lemma {:induction false} FilterAppend<T>(s: seq<T>, t: seq<T>, keep: T -> bool)
    ensures Filter(s + t, keep) == Filter(s, keep) + Filter(t, keep)
  {
    if t == [] {
      assert s + t == s;
    } else {
      FilterAppend(s, t[..|t| - 1], keep);
      assert (s + t)[..|s + t| - 1] == s + t[..|t| - 1];
    }
  }

  lemma {:induction false} FilterSnoc<T>(s: seq<T>, x: T, keep: T -> bool)
    ensures Filter(s + [x], keep) == Filter(s, keep) + if keep(x) then [x] else []
  {
    assert (s + [x])[..|s|] == s;
  }

  /** Filtering by one test and then another is filtering by both. */
  lemma {:induction false} FilterTwice<T(!new)>(s: seq<T>, both: T -> bool, first: T -> bool, second: T -> bool)
    requires forall x :: both(x) <==> first(x) && second(x)
    ensures Filter(Filter(s, first), second) == Filter(s, both)
  {
    if s != [] {
      var init, last := s[..|s| - 1], s[|s| - 1];
      FilterTwice(init, both, first, second);
      var kept := Filter(init, first);
      FilterSnoc(kept, last, second);
      assert Filter(s, first) == if first(last) then kept + [last] else kept;
      assert Filter(s, both) == if both(last) then Filter(init, both) + [last] else Filter(init, both);
    }
  }

  lemma {:induction false} FilterShorter<T>(s: seq<T>, keep: T -> bool)
    ensures |Filter(s, keep)| <= |s|
  {
    if s != [] { FilterShorter(s[..|s| - 1], keep); }
  }

  lemma {:induction false} FilterAlike<T(!new)>(s: seq<T>, a: T -> bool, b: T -> bool)
    requires forall x :: a(x) == b(x)
    ensures Filter(s, a) == Filter(s, b)
  {
    if s != [] { FilterAlike(s[..|s| - 1], a, b); }
  }

  lemma {:induction false} FilterNone<T>(s: seq<T>, keep: T -> bool)
    requires forall i :: 0 <= i < |s| ==> !keep(s[i])
    ensures Filter(s, keep) == []
  {
    if s != [] { FilterNone(s[..|s| - 1], keep); }
  }

  /** When the accepted elements sit together, filtering cuts out that run. */
  lemma {:induction false} FilterRun<T>(s: seq<T>, from: nat, to: nat, keep: T -> bool)
    requires from <= to <= |s|
    requires forall i :: 0 <= i < |s| ==> (keep(s[i]) <==> from <= i < to)
    ensures Filter(s, keep) == s[from..to]
  {
    if s != [] {
      var last := |s| - 1;
      var init := s[..last];
      if to <= last {
        FilterRun(init, from, to, keep);
        assert init[from..to] == s[from..to];
      } else if from <= last {
        FilterRun(init, from, last, keep);
        assert s[from..to] == init[from..last] + [s[last]];
      } else {
        FilterRun(init, last, last, keep);
      }
    }
  }

  /** Dropping the last element drops one occurrence. */
  lemma LastContents<T>(s: seq<T>)
    requires s != []
    ensures multiset(s) == multiset(s[..|s| - 1]) + multiset{s[|s| - 1]}
  {
    assert s == s[..|s| - 1] + [s[|s| - 1]];
  }

  lemma HeadContents<T>(s: seq<T>)
    requires s != []
    ensures multiset(s) == multiset(s[1..]) + multiset{s[0]}
    ensures multiset(s[1..]) == multiset(s) - multiset{s[0]}
  {
    assert s == [s[0]] + s[1..];
  }

  /** Filtering keeps exactly the occurrences the predicate accepts. */
  lemma {:induction false} FilterCount<T>(s: seq<T>, keep: T -> bool, x: T)
    ensures multiset(Filter(s, keep))[x] == if keep(x) then multiset(s)[x] else 0
  {
    if s != [] {
      FilterCount(s[..|s| - 1], keep, x);
      LastContents(s);
    }
  }

  /** Filtering does not depend on order, as far as the contents go. */
  lemma {:induction false} FilterSameContents<T(!new)>(s: seq<T>, t: seq<T>, keep: T -> bool)
    requires multiset(s) == multiset(t)
    ensures multiset(Filter(s, keep)) == multiset(Filter(t, keep))
  {
    forall x ensures multiset(Filter(s, keep))[x] == multiset(Filter(t, keep))[x] {
      FilterCount(s, keep, x);
      FilterCount(t, keep, x);
    }
  }

  /** Where the first accepted element is, or the length. */
  function FirstIndex<T>(s: seq<T>, accept: T -> bool): (at: nat)
    ensures at <= |s|
    ensures at < |s| ==> accept(s[at])
    ensures forall i :: 0 <= i < at ==> !accept(s[i])
  {
    if s == [] || accept(s[0]) then 0 else 1 + FirstIndex(s[1..], accept)
  }

  /** Inserts `x` before the first element that it may precede, equal ones included. */
  function InsertSorted<T>(x: T, s: seq<T>, le: (T, T) -> bool): seq<T> {
    if s == [] || le(x, s[0]) then [x] + s else [s[0]] + InsertSorted(x, s[1..], le)
  }

  /** The stable sort that the JavaScript runtime provides: equal elements keep
      their order. */
  function SortBy<T>(s: seq<T>, le: (T, T) -> bool): seq<T> {
    if s == [] then [] else InsertSorted(s[0], SortBy(s[1..], le), le)
  }

  ghost predicate TotalPreorder<T(!new)>(le: (T, T) -> bool) {
    && (forall x, y :: le(x, y) || le(y, x))
    && (forall x, y, z :: le(x, y) && le(y, z) ==> le(x, z))
  }

  ghost predicate Sorted<T>(s: seq<T>, le: (T, T) -> bool) {
    forall i, j :: 0 <= i < j < |s| ==> le(s[i], s[j])
  }

  lemma {:induction false} InsertSortedContents<T>(x: T, s: seq<T>, le: (T, T) -> bool)
    ensures multiset(InsertSorted(x, s, le)) == multiset(s) + multiset{x}
  {
    if s == [] || le(x, s[0]) {
    } else {
      InsertSortedContents(x, s[1..], le);
      HeadContents(s);
    }
  }

  lemma {:induction false} SortByContents<T>(s: seq<T>, le: (T, T) -> bool)
    ensures multiset(SortBy(s, le)) == multiset(s)
    ensures |SortBy(s, le)| == |s|
  {
    if s == [] {
    } else {
      SortByContents(s[1..], le);
      InsertSortedContents(s[0], SortBy(s[1..], le), le);
      HeadContents(s);
    }
    assert |multiset(SortBy(s, le))| == |multiset(s)|;
  }

  lemma {:induction false} InsertSortedSorted<T(!new)>(x: T, s: seq<T>, le: (T, T) -> bool)
    requires TotalPreorder(le) && Sorted(s, le)
    ensures Sorted(InsertSorted(x, s, le), le)
  {
    if s == [] || le(x, s[0]) {
    } else {
      InsertSortedSorted(x, s[1..], le);
      InsertSortedContents(x, s[1..], le);
      var rest := InsertSorted(x, s[1..], le);
      forall j | 0 <= j < |rest| ensures le(s[0], rest[j]) {
        assert rest[j] in multiset(rest);
      }
    }
  }

  lemma {:induction false} SortBySorted<T(!new)>(s: seq<T>, le: (T, T) -> bool)
    requires TotalPreorder(le)
    ensures Sorted(SortBy(s, le), le)
  {
    if s == [] {
    } else {
      SortBySorted(s[1..], le);
      InsertSortedSorted(s[0], SortBy(s[1..], le), le);
    }
  }

  lemma {:induction false} FilterCons<T>(x: T, s: seq<T>, keep: T -> bool)
    ensures Filter([x] + s, keep) == (if keep(x) then [x] else []) + Filter(s, keep)
  {
    if s == [] {
      FilterSnoc([], x, keep);
    } else {
      var init, last := s[..|s| - 1], s[|s| - 1];
      FilterCons(x, init, keep);
      assert [x] + s == [x] + init + [last];
      FilterSnoc([x] + init, last, keep);
    }
  }

  lemma {:induction false} InsertSortedStable<T(!new)>(x: T, s: seq<T>, le: (T, T) -> bool, keep: T -> bool)
    requires forall a, b :: keep(a) && keep(b) ==> le(a, b)
    ensures Filter(InsertSorted(x, s, le), keep) == (if keep(x) then [x] else []) + Filter(s, keep)
  {
    FilterCons(x, s, keep);
    if s == [] || le(x, s[0]) {
    } else {
      InsertSortedStable(x, s[1..], le, keep);
      FilterCons(s[0], InsertSorted(x, s[1..], le), keep);
      FilterCons(s[0], s[1..], keep);
      assert [s[0]] + s[1..] == s;
    }
  }

  /** Sorting is stable: elements that the order does not tell apart keep theirs. */
  lemma {:induction false} SortByStable<T(!new)>(s: seq<T>, le: (T, T) -> bool, keep: T -> bool)
    requires forall a, b :: keep(a) && keep(b) ==> le(a, b)
    ensures Filter(SortBy(s, le), keep) == Filter(s, keep)
  {
    if s == [] {
    } else {
      SortByStable(s[1..], le, keep);
      InsertSortedStable(s[0], SortBy(s[1..], le), le, keep);
      FilterCons(s[0], s[1..], keep);
      assert [s[0]] + s[1..] == s;
    }
  }

  lemma SortedTail<T>(s: seq<T>, le: (T, T) -> bool)
    requires s != [] && Sorted(s, le)
    ensures Sorted(s[1..], le)
  {
  }

  /** Two sorted arrangements of the same contents are the same sequence when the
      order tells all elements apart. */
  lemma {:induction false} SortedUnique<T(!new)>(s: seq<T>, t: seq<T>, le: (T, T) -> bool)
    requires TotalPreorder(le)
    requires forall x, y :: le(x, y) && le(y, x) ==> x == y
    requires Sorted(s, le) && Sorted(t, le) && multiset(s) == multiset(t)
    ensures s == t
  {
    assert |multiset(s)| == |multiset(t)|;
    if s == [] {
    } else {
      assert s[0] in multiset(t) && t[0] in multiset(s);
      assert le(s[0], t[0]) && le(t[0], s[0]);
      HeadContents(s);
      HeadContents(t);
      SortedTail(s, le);
      SortedTail(t, le);
      assert s[0] == t[0];
      SortedUnique(s[1..], t[1..], le);
    }
  }

  function Map<T, U>(s: seq<T>, f: T -> U): (r: seq<U>)
    ensures |r| == |s| && forall i :: 0 <= i < |s| ==> r[i] == f(s[i])
  {
    seq(|s|, i requires 0 <= i < |s| => f(s[i]))
  }

  lemma SpliceContents<T>(s: seq<T>, pos: nat)
    requires pos < |s|
    ensures multiset(s[..pos] + s[pos + 1..]) == multiset(s) - multiset{s[pos]}
    ensures multiset(s) == multiset(s[..pos] + s[pos + 1..]) + multiset{s[pos]}
  {
    assert s == s[..pos] + [s[pos]] + s[pos + 1..];
  }

  ghost function Hits<T, U>(f: T -> U, u: U): T -> bool {
    (x: T) => f(x) == u
  }

  lemma {:induction false} MapCount<T, U>(s: seq<T>, f: T -> U, u: U)
    ensures multiset(Map(s, f))[u] == |Filter(s, Hits(f, u))|
  {
    if s == [] {
    } else {
      var init := s[..|s| - 1];
      MapCount(init, f, u);
      LastContents(Map(s, f));
      assert Map(s, f)[..|s| - 1] == Map(init, f);
    }
  }

  /** Mapping does not depend on order, as far as the contents go. */
  lemma MapSameContents<T(!new), U(!new)>(s: seq<T>, t: seq<T>, f: T -> U)
    requires multiset(s) == multiset(t)
    ensures multiset(Map(s, f)) == multiset(Map(t, f))
  {
    forall u ensures multiset(Map(s, f))[u] == multiset(Map(t, f))[u] {
      MapCount(s, f, u);
      MapCount(t, f, u);
      FilterSameContents(s, t, Hits(f, u));
      assert |multiset(Filter(s, Hits(f, u)))| == |multiset(Filter(t, Hits(f, u)))|;
    }
  }

  /** The part of `s` that `slice(offset, offset + limit)` returns. */
  function Page<T>(s: seq<T>, offset: nat, limit: nat): seq<T> {
    if offset >= |s| then [] else if offset + limit >= |s| then s[offset..] else s[offset..offset + limit]
  }

  /** Of what lies past the offset, the first so many. */
  lemma PageIs<T>(s: seq<T>, offset: nat, limit: nat)
    ensures IsPage(s, Page(s, offset, limit), offset, limit)
  {
  }

  function Lesser(a: nat, b: nat): (m: nat)
    ensures m <= a && m <= b && (m == a || m == b)
  {
    if a < b then a else b
  }

  function Joined<T>(pages: seq<seq<T>>): seq<T> {
    if pages == [] then [] else Joined(pages[..|pages| - 1]) + pages[|pages| - 1]
  }

  /** What a page of `n` from `from` on holds. */
  ghost predicate IsPage<T>(s: seq<T>, page: seq<T>, from: nat, n: nat) {
    && |page| == Lesser(n, if from < |s| then |s| - from else 0)
    && forall i :: 0 <= i < |page| ==> page[i] == s[from + i]
  }

  /** Pages of `n` at the offsets 0, n, 2n and so on. */
  ghost predicate Paged<T>(s: seq<T>, pages: seq<seq<T>>, n: nat) {
    forall k :: 0 <= k < |pages| ==> IsPage(s, pages[k], k * n, n)
  }

  lemma PageNext<T>(s: seq<T>, page: seq<T>, from: nat, n: nat)
    requires IsPage(s, page, from, n)
    ensures s[..Lesser(from, |s|)] + page == s[..Lesser(from + n, |s|)]
  {
    if from < |s| { assert page == s[from..Lesser(from + n, |s|)]; }
  }

  /** Joined together they are the beginning of the whole, and all of it once there are
      enough. */
  lemma {:induction false} PagesJoin<T>(s: seq<T>, pages: seq<seq<T>>, n: nat)
    requires Paged(s, pages, n)
    ensures Joined(pages) == s[..Lesser(|pages| * n, |s|)]
    ensures |pages| * n >= |s| ==> Joined(pages) == s
  {
    hide IsPage;
    if pages != [] {
      var k := |pages| - 1;
      PagesJoin(s, pages[..k], n);
      assert |pages| * n == k * n + n;
      PageNext(s, pages[k], k * n, n);
    }
  }
}
