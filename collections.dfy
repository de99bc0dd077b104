/** The array operations every page repeats: `filter`, `find`, `map` that touches
    only the matching records, and 1-based page slicing with `Math.ceil` page counts. */
module Collections {
  import opened Wrappers

  /** `s.filter(p)`. */
  function Filter<T>(s: seq<T>, p: T -> bool): (r: seq<T>)
    ensures |r| <= |s|
    ensures forall i :: 0 <= i < |r| ==> r[i] in s && p(r[i])
    ensures forall i :: 0 <= i < |s| && p(s[i]) ==> s[i] in r
    decreases |s|
  {
    if |s| == 0 then []
    else if p(s[0]) then [s[0]] + Filter(s[1..], p)
    else Filter(s[1..], p)
  }

  /** Filtering works piecewise, so it keeps the kept elements in their original order. */
  lemma {:induction false} FilterConcat<T>(a: seq<T>, b: seq<T>, p: T -> bool)
    ensures Filter(a + b, p) == Filter(a, p) + Filter(b, p)
    decreases |a|
  {
    if |a| > 0 {
      var head := if p(a[0]) then [a[0]] else [];
      var rest := a[1..];
      assert a + b == [a[0]] + (rest + b);
      assert a == [a[0]] + rest;
      FilterConcat(rest, b, p);
      FilterCons(a[0], rest + b, p);
      FilterCons(a[0], rest, p);
      calc {
        Filter(a + b, p);
        head + Filter(rest + b, p);
        head + (Filter(rest, p) + Filter(b, p));
        (head + Filter(rest, p)) + Filter(b, p);
        Filter(a, p) + Filter(b, p);
      }
    } else {
      assert a + b == b;
      EmptyAppend(Filter(b, p));
    }
  }

  /** Filtering keeps everything exactly when every element passes. */
  lemma {:induction false} FilterAll<T>(s: seq<T>, p: T -> bool)
    requires forall i :: 0 <= i < |s| ==> p(s[i])
    ensures Filter(s, p) == s
    decreases |s|
  {
    if |s| > 0 {
      FilterAll(s[1..], p);
      assert s == [s[0]] + s[1..];
    }
  }

  /** Filtering keeps nothing when no element passes. */
  lemma {:induction false} FilterNone<T>(s: seq<T>, p: T -> bool)
    requires forall i :: 0 <= i < |s| ==> !p(s[i])
    ensures Filter(s, p) == []
    decreases |s|
  {
    if |s| > 0 {
      FilterNone(s[1..], p);
    }
  }

  /** Filtering twice with the same test is filtering once. */
  lemma {:induction false} FilterIdempotent<T>(s: seq<T>, p: T -> bool)
    ensures Filter(Filter(s, p), p) == Filter(s, p)
  {
    var r := Filter(s, p);
    forall i | 0 <= i < |r| ensures p(r[i]) {
      assert r[i] in r;
    }
    FilterAll(r, p);
  }

  /** Filtering keeps the surviving elements in their original order, so a relation that
      holds between every earlier and later element still holds afterwards. */
  lemma {:induction false} FilterPairwise<T>(s: seq<T>, p: T -> bool, rel: (T, T) -> bool)
    requires forall i, j :: 0 <= i < j < |s| ==> rel(s[i], s[j])
    ensures forall i, j :: 0 <= i < j < |Filter(s, p)| ==> rel(Filter(s, p)[i], Filter(s, p)[j])
    decreases |s|
  {
    if |s| > 0 {
      var tail := s[1..];
      assert forall i, j :: 0 <= i < j < |tail| ==> rel(tail[i], tail[j]) by {
        forall i, j | 0 <= i < j < |tail| ensures rel(tail[i], tail[j]) {
          assert tail[i] == s[i + 1] && tail[j] == s[j + 1];
        }
      }
      FilterPairwise(tail, p, rel);
      if p(s[0]) {
        var rt := Filter(tail, p);
        var r := [s[0]] + rt;
        forall i, j | 0 <= i < j < |r| ensures rel(r[i], r[j]) {
          if i == 0 {
            assert r[j] == rt[j - 1] && rt[j - 1] in tail;
            var k :| 0 <= k < |tail| && tail[k] == rt[j - 1];
            assert s[k + 1] == r[j];
            assert rel(s[0], s[k + 1]);
            assert r[0] == s[0];
          } else {
            assert r[i] == rt[i - 1] && r[j] == rt[j - 1];
            assert 0 <= i - 1 < j - 1 < |rt|;
            assert rel(rt[i - 1], rt[j - 1]);
          }
        }
        assert Filter(s, p) == r;
      } else {
        assert Filter(s, p) == Filter(tail, p);
      }
    }
  }

  /** When exactly the element at `k` fails the test, filtering removes that one element
      and keeps the rest in order. */
  lemma FilterDropsOne<T>(s: seq<T>, k: nat, p: T -> bool)
    requires k < |s| && !p(s[k])
    requires forall i :: 0 <= i < |s| && i != k ==> p(s[i])
    ensures Filter(s, p) == s[..k] + s[k + 1..]
  {
    var front, back := s[..k], s[k + 1..];
    forall i | 0 <= i < |front| ensures p(front[i]) {
      assert front[i] == s[i];
    }
    forall i | 0 <= i < |back| ensures p(back[i]) {
      assert back[i] == s[k + 1 + i];
    }
    assert s == front + [s[k]] + back;
    FilterAround(front, s[k], back, p);
  }

  lemma FilterAround<T>(front: seq<T>, x: T, back: seq<T>, p: T -> bool)
    requires !p(x)
    requires forall i :: 0 <= i < |front| ==> p(front[i])
    requires forall i :: 0 <= i < |back| ==> p(back[i])
    ensures Filter(front + [x] + back, p) == front + back
  {
    var mid := front + [x];
    calc {
      Filter(mid + back, p);
      { FilterConcat(mid, back, p); }
      Filter(mid, p) + Filter(back, p);
      { FilterConcat(front, [x], p); }
      Filter(front, p) + Filter([x], p) + Filter(back, p);
      { FilterAll(front, p); FilterNone([x], p); FilterAll(back, p); }
      front + [] + back;
      { AppendEmpty(front); }
      front + back;
    }
  }

  lemma AppendEmpty<T>(a: seq<T>)
    ensures a + [] == a
  {
  }

  lemma FilterCons<T>(x: T, s: seq<T>, p: T -> bool)
    ensures Filter([x] + s, p) == (if p(x) then [x] else []) + Filter(s, p)
  {
    assert ([x] + s)[1..] == s;
  }

  /** Every element's key is at least that of every later element. */
  predicate Descending<T>(s: seq<T>, key: T -> int) {
    forall i, j :: 0 <= i < j < |s| ==> key(s[i]) >= key(s[j])
  }

  /** Places `x` before the first element whose key is not larger than its own. */
  function InsertDescending<T>(x: T, s: seq<T>, key: T -> int): (r: seq<T>)
    requires Descending(s, key)
    ensures Descending(r, key)
    ensures multiset(r) == multiset(s) + multiset{x}
    decreases |s|
  {
    if |s| == 0 || key(x) >= key(s[0]) then [x] + s
    else
      var rest := InsertDescending(x, s[1..], key);
      HeadAboveRest(s, x, rest, key);
      [s[0]] + rest
  }

  lemma HeadAboveRest<T>(s: seq<T>, x: T, rest: seq<T>, key: T -> int)
    requires |s| > 0 && Descending(s, key) && key(s[0]) > key(x)
    requires Descending(rest, key)
    requires multiset(rest) == multiset(s[1..]) + multiset{x}
    ensures Descending([s[0]] + rest, key)
    ensures multiset([s[0]] + rest) == multiset(s) + multiset{x}
  {
    var r := [s[0]] + rest;
    forall j | 0 <= j < |rest| ensures key(s[0]) >= key(rest[j]) {
      assert rest[j] in multiset(rest);
      if rest[j] != x {
        assert rest[j] in multiset(s[1..]);
        var k :| 0 <= k < |s[1..]| && s[1..][k] == rest[j];
        assert s[k + 1] == rest[j];
      }
    }
    forall i, j | 0 <= i < j < |r| ensures key(r[i]) >= key(r[j]) {
      assert r[j] == rest[j - 1];
      if i > 0 {
        assert r[i] == rest[i - 1];
      }
    }
    assert s == [s[0]] + s[1..];
  }

  /** `[...s].sort((a, b) => key(b) - key(a))`: largest key first, and a rearrangement of
      its input. */
  function SortDescending<T>(s: seq<T>, key: T -> int): (r: seq<T>)
    ensures Descending(r, key)
    ensures multiset(r) == multiset(s)
    decreases |s|
  {
    if |s| == 0 then []
    else
      assert s == [s[0]] + s[1..];
      InsertDescending(s[0], SortDescending(s[1..], key), key)
  }

  /** The test `x => id(x) === k` on a record's string id. */
  function IdIs<T>(id: T -> string, k: string): T -> bool {
    (x: T) => id(x) == k
  }

  /** The test `x => id(x) !== k`. */
  function IdIsNot<T>(id: T -> string, k: string): T -> bool {
    (x: T) => id(x) != k
  }

  /** No two elements share an id. */
  predicate UniqueBy<T>(s: seq<T>, id: T -> string) {
    forall i, j :: 0 <= i < j < |s| ==> id(s[i]) != id(s[j])
  }

  /** The test "has key `k`". */
  function KeyIs<T>(key: T -> int, k: int): T -> bool {
    (x: T) => key(x) == k
  }

  /** Inserting passes only elements with larger keys, so among the elements with its key
      `x` ends up first. */
  lemma {:induction false} InsertStable<T>(x: T, s: seq<T>, key: T -> int, k: int)
    requires Descending(s, key)
    ensures Filter(InsertDescending(x, s, key), KeyIs(key, k)) ==
            (if key(x) == k then [x] else []) + Filter(s, KeyIs(key, k))
    decreases |s|
  {
    var p := KeyIs(key, k);
    if |s| == 0 || key(x) >= key(s[0]) {
      FilterCons(x, s, p);
    } else {
      var rest := InsertDescending(x, s[1..], key);
      var tail := Filter(s[1..], p);
      InsertStable(x, s[1..], key, k);
      FilterCons(s[0], rest, p);
      FilterCons(s[0], s[1..], p);
      assert s == [s[0]] + s[1..];
      if key(x) == k {
        assert !p(s[0]);
        calc {
          Filter([s[0]] + rest, p);
          [] + Filter(rest, p);
          { EmptyAppend(Filter(rest, p)); }
          [x] + tail;
          { EmptyAppend(tail); }
          [x] + ([] + tail);
        }
      } else {
        var head := if p(s[0]) then [s[0]] else [];
        calc {
          Filter([s[0]] + rest, p);
          head + Filter(rest, p);
          head + ([] + tail);
          { EmptyAppend(tail); }
          head + tail;
          { EmptyAppend(head + tail); }
          [] + (head + tail);
        }
      }
    }
  }

  lemma EmptyAppend<T>(a: seq<T>)
    ensures [] + a == a
  {
  }

  /** The sort is stable: the elements that share a key keep their relative order. */
  lemma {:induction false} SortStable<T>(s: seq<T>, key: T -> int, k: int)
    ensures Filter(SortDescending(s, key), KeyIs(key, k)) == Filter(s, KeyIs(key, k))
    decreases |s|
  {
    if |s| > 0 {
      SortStable(s[1..], key, k);
      InsertStable(s[0], SortDescending(s[1..], key), key, k);
      FilterCons(s[0], s[1..], KeyIs(key, k));
      assert s == [s[0]] + s[1..];
    }
  }

  /** A list already in order is left as it is. */
  lemma {:induction false} SortKeepsSorted<T>(s: seq<T>, key: T -> int)
    requires Descending(s, key)
    ensures SortDescending(s, key) == s
    decreases |s|
  {
    if |s| > 0 {
      SortKeepsSorted(s[1..], key);
      assert s == [s[0]] + s[1..];
    }
  }

  /** Number of elements that pass `p`: `s.filter(p).length`. */
  function Count<T>(s: seq<T>, p: T -> bool): (n: nat)
    ensures n <= |s|
  {
    |Filter(s, p)|
  }

  /** Every element passes exactly when none is filtered out. */
  lemma {:induction false} CountAll<T>(s: seq<T>, p: T -> bool)
    ensures Count(s, p) == |s| <==> forall i :: 0 <= i < |s| ==> p(s[i])
    decreases |s|
  {
    if |s| > 0 {
      CountAll(s[1..], p);
      assert forall i :: 1 <= i < |s| ==> s[i] == s[1..][i - 1];
    }
  }

  /** When every element passes exactly one of three tests, the three counts add up to
      the length. */
  lemma {:induction false} CountPartition3<T>(s: seq<T>, p: T -> bool, q: T -> bool, r: T -> bool)
    requires forall i :: 0 <= i < |s| ==>
      (if p(s[i]) then 1 else 0) + (if q(s[i]) then 1 else 0) + (if r(s[i]) then 1 else 0) == 1
    ensures Count(s, p) + Count(s, q) + Count(s, r) == |s|
    decreases |s|
  {
    if |s| > 0 {
      assert forall i :: 0 <= i < |s| - 1 ==> s[1..][i] == s[i + 1];
      CountPartition3(s[1..], p, q, r);
    }
  }

  /** The first index whose element passes `p`, if any. */
  function FirstIndex<T>(s: seq<T>, p: T -> bool): (r: Option<nat>)
    ensures r.None? <==> forall i :: 0 <= i < |s| ==> !p(s[i])
    ensures r.Some? ==> r.value < |s| && p(s[r.value])
    ensures r.Some? ==> forall j :: 0 <= j < r.value ==> !p(s[j])
    decreases |s|
  {
    if |s| == 0 then None
    else if p(s[0]) then Some(0)
    else
      match FirstIndex(s[1..], p)
      case None => None
      case Some(k) => Some(k + 1)
  }

  /** `s.find(p)`: the first element that passes, or nothing. */
  function Find<T>(s: seq<T>, p: T -> bool): (r: Option<T>)
    ensures r.None? <==> forall i :: 0 <= i < |s| ==> !p(s[i])
    ensures r.Some? ==> r.value in s && p(r.value)
    ensures r.Some? ==> FirstIndex(s, p).Some? && r.value == s[FirstIndex(s, p).value]
  {
    match FirstIndex(s, p)
    case None => None
    case Some(k) => Some(s[k])
  }

  /** `s.map(x => p(x) ? f(x) : x)`: every element that passes `p` is rewritten by `f`. */
  function MapWhere<T>(s: seq<T>, p: T -> bool, f: T -> T): (r: seq<T>)
    ensures |r| == |s|
    ensures forall i :: 0 <= i < |s| ==> r[i] == if p(s[i]) then f(s[i]) else s[i]
  {
    seq(|s|, i requires 0 <= i < |s| => if p(s[i]) then f(s[i]) else s[i])
  }

  /** `s.slice(start, end)` with JavaScript's clamping: negative bounds count from the
      end, bounds past the end stop at the end, and a start at or after the end gives []. */
  function Slice<T>(s: seq<T>, start: int, end: int): (r: seq<T>)
    ensures |r| <= |s|
    ensures 0 <= start <= end <= |s| ==> r == s[start..end]
    ensures 0 <= start <= |s| <= end ==> r == s[start..]
    ensures start >= |s| || (0 <= end <= start) ==> r == []
  {
    var lo := Clamp(start, |s|);
    var hi := Clamp(end, |s|);
    if lo < hi then s[lo..hi] else []
  }

  function Clamp(i: int, n: nat): (r: nat)
    ensures r <= n
  {
    if i < 0 then (if n + i < 0 then 0 else n + i) else if i > n then n else i
  }

  /** `Math.ceil(n / size)`: the number of pages of `size` rows that hold `n` rows. */
  function TotalPages(n: nat, size: int): (t: nat)
    requires size >= 1
    ensures t * size >= n
    ensures t > 0 ==> (t - 1) * size < n
  {
    (n + size - 1) / size
  }

  /** `(page - 1) * size`: where page `page` starts. */
  function StartIndex(page: int, size: int): (r: int)
    ensures page >= 1 && size >= 0 ==> r >= 0
    ensures r + size == page * size
  {
    (page - 1) * size
  }

  /** `s.slice(startIndex, startIndex + size)` for the 1-based page `page`. */
  function PageSlice<T>(s: seq<T>, page: int, size: int): (r: seq<T>)
    requires page >= 1 && size >= 1
    ensures |r| <= size
    ensures StartIndex(page, size) >= |s| ==> r == []
    ensures StartIndex(page, size) < |s| ==>
      r == s[StartIndex(page, size)..if StartIndex(page, size) + size <= |s| then StartIndex(page, size) + size else |s|]
  {
    MulNonNegative(page - 1, size);
    SliceFrom(s, StartIndex(page, size), size)
  }

  /** `s.slice(start, start + size)` for a start that is not negative. */
  function SliceFrom<T>(s: seq<T>, start: nat, size: nat): (r: seq<T>)
    ensures |r| <= size
    ensures start >= |s| ==> r == []
    ensures start < |s| ==> r == s[start..if start + size <= |s| then start + size else |s|]
  {
    Slice(s, start, start + size)
  }

  lemma MulNonNegative(a: int, b: int)
    requires a >= 0 && b >= 0
    ensures a * b >= 0
  {
  }

  /** The rows of pages 1 to `count`, one page after the other. */
  function PagesUpTo<T>(s: seq<T>, size: int, count: nat): seq<T>
    requires size >= 1
  {
    if count == 0 then [] else PagesUpTo(s, size, count - 1) + PageSlice(s, count, size)
  }

  lemma {:induction false} PagesUpToPrefix<T>(s: seq<T>, size: int, count: nat)
    requires size >= 1
    ensures PagesUpTo(s, size, count) == s[..if count * size <= |s| then count * size else |s|]
  {
    if count > 0 {
      PagesUpToPrefix(s, size, count - 1);
      assert StartIndex(count, size) == (count - 1) * size;
      assert count * size == (count - 1) * size + size;
      MulNonNegative(count - 1, size);
    }
  }

  /** The pages `1..TotalPages` partition the list: read one after the other they give back
      every row exactly once and in order. */
  lemma PagesPartition<T>(s: seq<T>, size: int)
    requires size >= 1
    ensures PagesUpTo(s, size, TotalPages(|s|, size)) == s
  {
    PagesUpToPrefix(s, size, TotalPages(|s|, size));
  }

  /** Every page up to the last is full; the last holds the remainder; later pages are
      empty. */
  lemma PageSizes<T>(s: seq<T>, page: int, size: int)
    requires page >= 1 && size >= 1
    ensures page < TotalPages(|s|, size) ==> |PageSlice(s, page, size)| == size
    ensures page == TotalPages(|s|, size) ==> |PageSlice(s, page, size)| == |s| - StartIndex(page, size)
    ensures page > TotalPages(|s|, size) ==> PageSlice(s, page, size) == []
  {
    PageBounds(page, size, TotalPages(|s|, size), |s|);
    MulNonNegative(page - 1, size);
    SliceFromSizes(s, StartIndex(page, size), size);
  }

  lemma SliceFromSizes<T>(s: seq<T>, start: nat, size: nat)
    ensures start + size <= |s| ==> |SliceFrom(s, start, size)| == size
    ensures start < |s| <= start + size ==> |SliceFrom(s, start, size)| == |s| - start
    ensures start >= |s| ==> SliceFrom(s, start, size) == []
  {
  }

  /** Where page `page` starts, measured against `n` rows held by `t` pages. */
  lemma PageBounds(page: int, size: int, t: nat, n: nat)
    requires page >= 1 && size >= 1
    requires t * size >= n && (t > 0 ==> (t - 1) * size < n)
    ensures page < t ==> StartIndex(page, size) + size <= n
    ensures page == t ==> StartIndex(page, size) < n <= StartIndex(page, size) + size
    ensures page > t ==> StartIndex(page, size) >= n
  {
    var st := StartIndex(page, size);
    assert st + size == page * size;
    if page < t {
      MulMono(page, t - 1, size);
    } else if page > t {
      MulMono(t, page - 1, size);
    }
  }

  lemma MulMono(a: int, b: int, c: int)
    requires 0 <= a <= b && c >= 0
    ensures a * c <= b * c
  {
  }

  /** The "Showing from to to of n results" figures:
      `Math.min(startIndex + 1, n)` and `Math.min(startIndex + size, n)`. */
  datatype Range = Range(from: int, to: int)

  function ShownRange(startIndex: int, size: int, n: nat): (r: Range)
    requires startIndex >= 0 && size >= 1 && n > 0
    ensures 1 <= r.from <= r.to <= n
    ensures startIndex < n ==> r.from == startIndex + 1
  {
    Range(if startIndex + 1 < n then startIndex + 1 else n,
          if startIndex + size < n then startIndex + size else n)
  }

  /** On a page that has rows, the range shown counts exactly the rows on the page. */
  lemma ShownRangeMatchesPage<T>(s: seq<T>, page: int, size: int)
    requires page >= 1 && size >= 1
    requires StartIndex(page, size) < |s|
    ensures var r := ShownRange(StartIndex(page, size), size, |s|);
      r.to - r.from + 1 == |PageSlice(s, page, size)|
  {
  }

  /** `disabled={currentPage === 1}`. */
  predicate PrevDisabled(page: int) {
    page == 1
  }

  /** `disabled={currentPage === totalPages || totalPages === 0}`. */
  predicate NextDisabled(page: int, totalPages: int) {
    page == totalPages || totalPages == 0
  }

  /** The page after a click on the previous-page button. */
  function AfterPrevious(page: int): (r: int)
    ensures PrevDisabled(page) ==> r == page
    ensures !PrevDisabled(page) ==> r == page - 1
  {
    if PrevDisabled(page) then page else page - 1
  }

  /** The page after a click on the next-page button. */
  function AfterNext(page: int, totalPages: int): (r: int)
    ensures NextDisabled(page, totalPages) ==> r == page
    ensures !NextDisabled(page, totalPages) ==> r == page + 1
  {
    if NextDisabled(page, totalPages) then page else page + 1
  }

  /** From a page in range the buttons never leave the range; clicking previous then next
      from any page after the first returns to it. */
  lemma PagerInRange(page: int, totalPages: nat)
    requires 1 <= page <= totalPages
    ensures 1 <= AfterPrevious(page) <= totalPages
    ensures 1 <= AfterNext(page, totalPages) <= totalPages
    ensures page > 1 ==> AfterNext(AfterPrevious(page), totalPages) == page
  {
  }

  /** Past the last page (the list shrank under a later filter) the next button stays
      enabled, so the page number keeps growing. */
  lemma NextPastTheEnd(page: int, totalPages: nat)
    requires page > totalPages > 0
    ensures AfterNext(page, totalPages) == page + 1
  {
  }
}
