/**
 Pages of a scan and their order (internal/repository/repository.go:173-174, 253-307).
 */
module Paging {
  import opened Text
  import opened Models
  import opened Store
  import opened Listing

  /** What the discard counter lets through; a negative offset discards nothing. */
  function From<T>(s: seq<T>, offset: int): seq<T> {
    if offset <= 0 then s else if offset >= |s| then [] else s[offset..]
  }

  /** What the collect counter takes: a limit of 0 still yields one record, and a negative limit is none. */
  function Quota(limit: int): int { if limit == 0 then 1 else limit }

  function First<T>(s: seq<T>, limit: int): seq<T> {
    if limit < 0 || Quota(limit) >= |s| then s else s[..Quota(limit)]
  }

  function Page<T>(s: seq<T>, limit: int, offset: int): seq<T> { First(From(s, offset), limit) }

  /** The first n pages, one after the other. */
  function Pages<T>(s: seq<T>, limit: int, n: nat): seq<T> {
    if n == 0 then [] else Pages(s, limit, n - 1) + Page(s, limit, (n - 1) * limit)
  }

  /** How much of the scan the first n pages cover. */
  function Cut<T>(s: seq<T>, limit: int, n: nat): (c: nat)
    requires limit > 0
    ensures c <= |s|
  {
    if n * limit >= |s| then |s| else n * limit
  }

  lemma PageIsSlice<T>(s: seq<T>, limit: int, n: nat)
    requires limit > 0
    ensures Cut(s, limit, n) <= Cut(s, limit, n + 1)
    ensures Page(s, limit, n * limit) == s[Cut(s, limit, n)..Cut(s, limit, n + 1)]
  {
    assert (n + 1) * limit == n * limit + limit;
    assert n * limit >= 0;
  }

  /** Pages at offsets 0, L, 2L, ... leave no gap and repeat nothing; enough of them give the whole scan. */
  lemma {:induction false} PagesTile<T>(s: seq<T>, limit: int, n: nat)
    requires limit > 0
    ensures Pages(s, limit, n) == s[..Cut(s, limit, n)]
    ensures n >= |s| ==> Pages(s, limit, n) == s
  {
    CutAtEnd(s, limit, n);
    if n > 0 {
      var c, d := Cut(s, limit, n - 1), Cut(s, limit, n);
      PagesTile(s, limit, n - 1);
      PageIsSlice(s, limit, n - 1);
      assert s[..c] + s[c..d] == s[..d];
    }
    assert s[..|s|] == s;
  }

  /** What a page is, for every limit and offset: a negative offset skips nothing, a negative limit is none, and
      a limit of 0 still lets one record through. */
  lemma PageIs<T>(s: seq<T>, limit: int, offset: int)
    ensures var skip := if offset <= 0 then 0 else if offset >= |s| then |s| else offset;
            var rest := |s| - skip;
            var n := if limit < 0 || limit >= rest then rest else if limit == 0 then 1 else limit;
            |Page(s, limit, offset)| == n && forall i | 0 <= i < n :: Page(s, limit, offset)[i] == s[skip + i]
  {
  }

  lemma CutAtEnd<T>(s: seq<T>, limit: int, n: nat)
    requires limit > 0
    ensures n == 0 ==> Cut(s, limit, n) == 0
    ensures n >= |s| ==> Cut(s, limit, n) == |s|
  {
    assert n <= n * limit;
  }

  // ---- Order within a page ----

  predicate Earlier(a: Instant, b: Instant) {
    b.At? && (a.Zero? || a.ns < b.ns)
  }

  /** The comparison that `sort.Slice` is given. */
  predicate SortsBefore(o: Options, a: Download, b: Download) {
    match o.orderBy
    case ByCreated => if o.desc then Earlier(b.createdAt, a.createdAt) else Earlier(a.createdAt, b.createdAt)
    case ByPriority =>
      if a.priority == b.priority
      then if o.desc then Earlier(b.createdAt, a.createdAt) else Earlier(a.createdAt, b.createdAt)
      else if o.desc then a.priority > b.priority else a.priority < b.priority
    case AsScanned => false
  }

  ghost predicate InOrder(o: Options, s: seq<Download>) {
    forall i, j | 0 <= i < j < |s| :: !SortsBefore(o, s[j], s[i])
  }

  /** What a caller sees of the order: the fields of any two downloads of a page. */
  ghost predicate AsAsked(o: Options, r: seq<Download>) {
    forall i, j | 0 <= i < j < |r| :: MayFollow(o, r[i], r[j])
  }

  predicate MayFollow(o: Options, a: Download, b: Download) {
    match o.orderBy
    case ByCreated => InTime(o.desc, a.createdAt, b.createdAt)
    case ByPriority =>
      || (if o.desc then a.priority > b.priority else a.priority < b.priority)
      || (a.priority == b.priority && InTime(o.desc, a.createdAt, b.createdAt))
    case AsScanned => true
  }

  /** The newer one first when descending, the older one first otherwise; no time is older than all. */
  predicate InTime(desc: bool, first: Instant, second: Instant) {
    if desc then second.Zero? || (first.At? && first.ns >= second.ns)
    else first.Zero? || (second.At? && first.ns <= second.ns)
  }

  /** That is what sorting by the comparison comes to. */
  lemma InOrderIff(o: Options, r: seq<Download>)
    ensures InOrder(o, r) <==> AsAsked(o, r)
  {
    assert forall i, j | 0 <= i < j < |r| :: !SortsBefore(o, r[j], r[i]) <==> MayFollow(o, r[i], r[j]);
  }

  /** The comparison is a strict weak order, as `sort.Slice` demands. */
  lemma SortsBeforeWeakOrder(o: Options, a: Download, b: Download, c: Download)
    ensures !(SortsBefore(o, a, b) && SortsBefore(o, b, a))
    ensures !SortsBefore(o, b, a) && !SortsBefore(o, c, b) ==> !SortsBefore(o, c, a)
  {
  }

  function Insert(o: Options, d: Download, s: seq<Download>): seq<Download> {
    if s == [] then [d]
    else if SortsBefore(o, s[0], d) then [s[0]] + Insert(o, d, s[1..])
    else [d] + s
  }

  lemma InOrderCons(o: Options, d: Download, s: seq<Download>)
    requires InOrder(o, s) && forall x | x in s :: !SortsBefore(o, x, d)
    ensures InOrder(o, [d] + s)
  {
  }

  lemma {:induction false} InsertKeepsOrder(o: Options, d: Download, s: seq<Download>)
    requires InOrder(o, s)
    ensures multiset(Insert(o, d, s)) == multiset(s) + multiset{d} && InOrder(o, Insert(o, d, s))
  {
    if s != [] {
      assert s == [s[0]] + s[1..];
      if SortsBefore(o, s[0], d) {
        var rest := Insert(o, d, s[1..]);
        InsertKeepsOrder(o, d, s[1..]);
        InsertMembers(rest, d, s[1..]);
        SortsBeforeWeakOrder(o, s[0], d, d);
        InOrderCons(o, s[0], rest);
      } else {
        forall x | x in s ensures !SortsBefore(o, x, d) { SortsBeforeWeakOrder(o, d, s[0], x); }
        InOrderCons(o, d, s);
      }
    }
  }

  lemma InsertMembers(r: seq<Download>, d: Download, s: seq<Download>)
    requires multiset(r) == multiset(s) + multiset{d}
    ensures forall x | x in r :: x == d || x in s
  {
    forall x | x in r ensures x == d || x in s { assert x in multiset(r); }
  }

  function InsertionSort(o: Options, s: seq<Download>): seq<Download> {
    if s == [] then [] else Insert(o, s[|s| - 1], InsertionSort(o, s[..|s| - 1]))
  }

  lemma {:induction false} InsertionSortSorts(o: Options, s: seq<Download>)
    ensures multiset(InsertionSort(o, s)) == multiset(s) && InOrder(o, InsertionSort(o, s))
  {
    if s != [] {
      var n := |s| - 1;
      assert s == s[..n] + [s[n]];
      InsertionSortSorts(o, s[..n]);
      InsertKeepsOrder(o, s[n], InsertionSort(o, s[..n]));
    }
  }

  /** `sort.Slice`, of which only this is relied on: some arrangement of the page that is in order. */
  method SortSlice(s: seq<Download>, o: Options) returns (r: seq<Download>)
    ensures multiset(r) == multiset(s) && InOrder(o, r) && AsAsked(o, r)
    ensures o.orderBy.AsScanned? ==> r == s
  {
    if o.orderBy.AsScanned? {
      r := s;
    } else {
      InsertionSortSorts(o, s);
      r := InsertionSort(o, s);
    }
    InOrderIff(o, r);
  }

  // ---- Order across pages ----

  /** A scan is already in creation order. */
  lemma ScanInCreationOrder(o: Options, s: seq<Download>)
    requires o.orderBy.ByCreated?
    requires if o.desc then exists t :: s == Reverse(t) && Chronological(t) else Chronological(s)
    ensures InOrder(o, s)
  {
  }

  lemma OrderedAcross(o: Options, s: seq<Download>, c: nat, e: nat, a: seq<Download>, b: seq<Download>)
    requires InOrder(o, s) && c <= e <= |s|
    requires multiset(a) == multiset(s[..c]) && multiset(b) == multiset(s[c..e])
    requires InOrder(o, a) && InOrder(o, b)
    ensures InOrder(o, a + b) && multiset(a + b) == multiset(s[..e])
  {
    forall x, y | x in a && y in b ensures !SortsBefore(o, y, x) {
      assert x in multiset(s[..c]) && y in multiset(s[c..e]);
      var i :| 0 <= i < c && s[i] == x;
      var j :| c <= j < e && s[j] == y;
    }
    assert s[..e] == s[..c] + s[c..e];
  }

  function Concat<T>(rs: seq<seq<T>>): seq<T> {
    if rs == [] then [] else Concat(rs[..|rs| - 1]) + rs[|rs| - 1]
  }

  /** Each page is rearranged by an unstable sort, yet the pages of a listing by creation time follow
      one another in order. */
  lemma {:induction false} CreatedPagesGloballyOrdered(o: Options, s: seq<Download>, limit: int, rs: seq<seq<Download>>)
    requires limit > 0 && InOrder(o, s)
    requires forall i | 0 <= i < |rs| :: InOrder(o, rs[i]) && multiset(rs[i]) == multiset(Page(s, limit, i * limit))
    ensures InOrder(o, Concat(rs)) && multiset(Concat(rs)) == multiset(Pages(s, limit, |rs|))
  {
    if rs != [] {
      var n := |rs| - 1;
      CreatedPagesGloballyOrdered(o, s, limit, rs[..n]);
      PagesTile(s, limit, n);
      PagesTile(s, limit, n + 1);
      PageIsSlice(s, limit, n);
      OrderedAcross(o, s, Cut(s, limit, n), Cut(s, limit, n + 1), Concat(rs[..n]), rs[n]);
    }
  }

  /** A scan with the default order is in creation order, in the direction asked for. */
  lemma FullScanInOrder(kv: KV, o: Options)
    requires Consistent(kv) && o.orderBy.ByCreated?
    ensures InOrder(o, FullScan(kv, o)) && AsAsked(o, FullScan(kv, o))
  {
    InOrderIff(o, FullScan(kv, o));
    if Answerable(o) {
      AccessPathIndependence(kv, o);
      ScanInCreationOrder(o, FullScan(kv, o));
    } else {
      UnanswerableFindsNothing(kv, o);
    }
  }

  /** The pages that listings by creation time return at offsets 0, L, 2L, ... of an unchanged store join
      to an ordered list of what was found; enough pages give all of it. */
  lemma ListedPagesGloballyOrdered(kv: KV, o: Options, limit: int, rs: seq<seq<Download>>)
    requires Consistent(kv) && o.orderBy.ByCreated? && limit > 0
    requires forall i | 0 <= i < |rs| ::
               AsAsked(o, rs[i]) && multiset(rs[i]) == multiset(Page(FullScan(kv, o), limit, i * limit))
    ensures AsAsked(o, Concat(rs)) && multiset(Concat(rs)) == multiset(Pages(FullScan(kv, o), limit, |rs|))
    ensures |rs| >= |FullScan(kv, o)| ==> multiset(Concat(rs)) == multiset(FullScan(kv, o))
  {
    FullScanInOrder(kv, o);
    forall i | 0 <= i < |rs| ensures InOrder(o, rs[i]) { InOrderIff(o, rs[i]); }
    InOrderIff(o, Concat(rs));
    CreatedPagesGloballyOrdered(o, FullScan(kv, o), limit, rs);
    PagesTile(FullScan(kv, o), limit, |rs|);
  }
}
