/** The merged audit feed (audit-gateway.controller.ts): a bounded window from each log, concatenated,
    stably sorted, and sliced into pages. */
module AuditFeed {
  import opened Prelude

  /** `micros` is the stored, valid creation time; `service` numbers the log the row came from. */
  datatype Row = Row(micros: int, id: int, service: nat, body: string)

  /** The creation time as a Date holds it: whole milliseconds. */
  function At(r: Row): int {
    r.micros / 1000
  }

  datatype Key = Key(at: int, id: int)

  function KeyOf(r: Row): Key {
    Key(At(r), r.id)
  }

  /** The comparator: newest first, larger id first among equals. */
  function ByNewest(a: Row, b: Row): int {
    if At(b) - At(a) != 0 then At(b) - At(a) else b.id - a.id
  }

  ghost predicate Sorted(xs: seq<Row>) {
    forall i, j :: 0 <= i < j < |xs| ==> ByNewest(xs[i], xs[j]) <= 0
  }

  // ---- Stable sorting, section 23.1.3.30 of ECMA-262 ----------------------------------------------

  /** The rows with a given key, in order. */
  ghost function Filter(xs: seq<Row>, k: Key): seq<Row> {
    if xs == [] then [] else (if KeyOf(xs[0]) == k then [xs[0]] else []) + Filter(xs[1..], k)
  }

  /** `ys` is `xs` sorted, rows that compare equal keeping their order. */
  ghost predicate IsStableSort(xs: seq<Row>, ys: seq<Row>) {
    Sorted(ys) && forall k :: Filter(ys, k) == Filter(xs, k)
  }

  function Insert(x: Row, ys: seq<Row>): seq<Row> {
    if ys == [] || ByNewest(x, ys[0]) <= 0 then [x] + ys else [ys[0]] + Insert(x, ys[1..])
  }

  function StableSort(xs: seq<Row>): seq<Row> {
    if xs == [] then [] else Insert(xs[0], StableSort(xs[1..]))
  }

  lemma {:induction false} FilterAppend(xs: seq<Row>, ys: seq<Row>, k: Key)
    ensures Filter(xs + ys, k) == Filter(xs, k) + Filter(ys, k)
  {
    if xs == [] {
      assert xs + ys == ys;
    } else {
      assert (xs + ys)[1..] == xs[1..] + ys;
      FilterAppend(xs[1..], ys, k);
    }
  }

  lemma {:induction false} FilterFindsMember(xs: seq<Row>, i: nat)
    requires i < |xs|
    ensures Filter(xs, KeyOf(xs[i])) != []
  {
    if i > 0 {
      FilterFindsMember(xs[1..], i - 1);
    }
  }

  lemma {:induction false} FilterHasKey(xs: seq<Row>, k: Key) returns (i: nat)
    requires Filter(xs, k) != []
    ensures i < |xs| && KeyOf(xs[i]) == k
  {
    if KeyOf(xs[0]) == k {
      i := 0;
    } else {
      i := FilterHasKey(xs[1..], k);
      i := i + 1;
    }
  }

  lemma FilterTail(xs: seq<Row>, k: Key)
    requires xs != []
    ensures Filter(xs[1..], k) == if KeyOf(xs[0]) == k then Filter(xs, k)[1..] else Filter(xs, k)
  {
  }

  lemma {:induction false} FilterNone(xs: seq<Row>, k: Key)
    requires forall i :: 0 <= i < |xs| ==> KeyOf(xs[i]) != k
    ensures Filter(xs, k) == []
  {
    if xs != [] {
      FilterNone(xs[1..], k);
    }
  }

  /** Sorted sequences with the same rows under every key, in the same order, are the same. */
  lemma {:induction false} StableSortIsUnique(ys: seq<Row>, zs: seq<Row>)
    requires Sorted(ys) && Sorted(zs) && forall k :: Filter(ys, k) == Filter(zs, k)
    ensures ys == zs
  {
    if ys == [] {
      if zs != [] {
        FilterFindsMember(zs, 0);
      }
    } else {
      FilterFindsMember(ys, 0);
      var i := FilterHasKey(zs, KeyOf(ys[0]));
      FilterFindsMember(zs, 0);
      var j := FilterHasKey(ys, KeyOf(zs[0]));
      assert KeyOf(ys[0]) == KeyOf(zs[0]);
      assert ys[0] == Filter(ys, KeyOf(ys[0]))[0] == zs[0];
      forall k ensures Filter(ys[1..], k) == Filter(zs[1..], k) {
        FilterTail(ys, k);
        FilterTail(zs, k);
      }
      StableSortIsUnique(ys[1..], zs[1..]);
    }
  }

  // ---- Merging -----------------------------------------------------------------------------------

  /** Merge two sorted sequences, the left one first among equals. */
  function Merge(a: seq<Row>, b: seq<Row>): seq<Row>
    decreases |a| + |b|
  {
    if a == [] then b
    else if b == [] then a
    else if ByNewest(a[0], b[0]) <= 0 then [a[0]] + Merge(a[1..], b)
    else [b[0]] + Merge(a, b[1..])
  }

  /** No row of `xs` sorts before `x`. */
  ghost predicate Bounds(x: Row, xs: seq<Row>) {
    forall i :: 0 <= i < |xs| ==> ByNewest(x, xs[i]) <= 0
  }

  lemma SortedCons(x: Row, xs: seq<Row>)
    requires Sorted(xs) && Bounds(x, xs)
    ensures Sorted([x] + xs)
  {
  }

  lemma {:induction false} MergeBounds(x: Row, a: seq<Row>, b: seq<Row>)
    requires Bounds(x, a) && Bounds(x, b)
    ensures Bounds(x, Merge(a, b))
    decreases |a| + |b|
  {
    if a != [] && b != [] {
      if ByNewest(a[0], b[0]) <= 0 {
        MergeBounds(x, a[1..], b);
      } else {
        MergeBounds(x, a, b[1..]);
      }
    }
  }

  lemma {:induction false} MergeSorts(a: seq<Row>, b: seq<Row>)
    requires Sorted(a) && Sorted(b)
    ensures Sorted(Merge(a, b))
    decreases |a| + |b|
  {
    if a != [] && b != [] {
      if ByNewest(a[0], b[0]) <= 0 {
        MergeSorts(a[1..], b);
        MergeBounds(a[0], a[1..], b);
        SortedCons(a[0], Merge(a[1..], b));
      } else {
        MergeSorts(a, b[1..]);
        MergeBounds(b[0], a, b[1..]);
        SortedCons(b[0], Merge(a, b[1..]));
      }
    }
  }

  /** A row that sorts strictly after `b` under every row of `a` has no equal in `a`. */
  lemma NoEqualLater(a: seq<Row>, b: Row)
    requires Sorted(a) && a != [] && ByNewest(a[0], b) > 0
    ensures Filter(a, KeyOf(b)) == []
  {
    forall i | 0 <= i < |a| ensures KeyOf(a[i]) != KeyOf(b) {
      assert i == 0 || ByNewest(a[0], a[i]) <= 0;
    }
    FilterNone(a, KeyOf(b));
  }

  lemma {:induction false} MergeFilter(a: seq<Row>, b: seq<Row>, k: Key)
    requires Sorted(a) && Sorted(b)
    ensures Filter(Merge(a, b), k) == Filter(a, k) + Filter(b, k)
    decreases |a| + |b|
  {
    if a != [] && b != [] {
      if ByNewest(a[0], b[0]) <= 0 {
        MergeFilter(a[1..], b, k);
        assert Merge(a, b)[1..] == Merge(a[1..], b);
      } else {
        MergeFilter(a, b[1..], k);
        assert Merge(a, b)[1..] == Merge(a, b[1..]);
        if KeyOf(b[0]) == k {
          NoEqualLater(a, b[0]);
        }
      }
    }
  }

  lemma {:induction false} InsertIsMerge(x: Row, ys: seq<Row>)
    ensures Insert(x, ys) == Merge([x], ys)
  {
    if ys != [] && ByNewest(x, ys[0]) > 0 {
      InsertIsMerge(x, ys[1..]);
    }
  }

  lemma {:induction false} StableSortSorts(xs: seq<Row>)
    ensures IsStableSort(xs, StableSort(xs))
  {
    if xs != [] {
      StableSortSorts(xs[1..]);
      InsertIsMerge(xs[0], StableSort(xs[1..]));
      PutBackFirst(xs, StableSort(xs[1..]));
    }
  }

  lemma PutBackFirst(xs: seq<Row>, rest: seq<Row>)
    requires xs != [] && IsStableSort(xs[1..], rest)
    ensures IsStableSort(xs, Merge([xs[0]], rest))
  {
    MergeSorts([xs[0]], rest);
    forall k ensures Filter(Merge([xs[0]], rest), k) == Filter(xs, k) {
      MergeFilter([xs[0]], rest, k);
      assert Filter([xs[0]], k) == if KeyOf(xs[0]) == k then [xs[0]] else [];
    }
  }

  /** Sorting a sorted sequence followed by anything is merging it with the sorted rest. */
  lemma SortAppendIsMerge(a: seq<Row>, rest: seq<Row>)
    requires Sorted(a)
    ensures StableSort(a + rest) == Merge(a, StableSort(rest))
  {
    StableSortSorts(rest);
    StableSortSorts(a + rest);
    MergeSorts(a, StableSort(rest));
    forall k ensures Filter(StableSort(a + rest), k) == Filter(Merge(a, StableSort(rest)), k) {
      MergeFilter(a, StableSort(rest), k);
      FilterAppend(a, rest, k);
    }
    StableSortIsUnique(StableSort(a + rest), Merge(a, StableSort(rest)));
  }

  // ---- Windows -----------------------------------------------------------------------------------

  function Take(n: nat, xs: seq<Row>): seq<Row> {
    if n <= |xs| then xs[..n] else xs
  }

  /** The first `n` rows of a merge need only the first `n` of each side. */
  lemma {:induction false} TakeMerge(n: nat, a: seq<Row>, b: seq<Row>)
    ensures Take(n, Merge(a, b)) == Take(n, Merge(Take(n, a), Take(n, b)))
    decreases n, 1
  {
    if n > 0 && a != [] && b != [] {
      if ByNewest(a[0], b[0]) <= 0 {
        TakeMergeLeft(n, a, b);
      } else {
        TakeMergeRight(n, a, b);
      }
    }
  }

  lemma MergeStep(a: seq<Row>, b: seq<Row>)
    requires a != [] && b != []
    ensures Merge(a, b) == if ByNewest(a[0], b[0]) <= 0 then [a[0]] + Merge(a[1..], b) else [b[0]] + Merge(a, b[1..])
  {
  }

  lemma TakeTake(m: nat, n: nat, xs: seq<Row>)
    requires m <= n
    ensures Take(m, Take(n, xs)) == Take(m, xs)
  {
  }

  lemma TakeTail(n: nat, xs: seq<Row>)
    requires n > 0 && xs != []
    ensures Take(n, xs) != [] && Take(n, xs)[0] == xs[0] && Take(n, xs)[1..] == Take(n - 1, xs[1..])
  {
  }

  lemma {:induction false} TakeMergeLeft(n: nat, a: seq<Row>, b: seq<Row>)
    requires n > 0 && a != [] && b != [] && ByNewest(a[0], b[0]) <= 0
    ensures Take(n, Merge(a, b)) == Take(n, Merge(Take(n, a), Take(n, b)))
    decreases n, 0
  {
    hide Take, ByNewest, Merge;
    TakeTail(n, a);
    TakeTail(n, b);
    MergeStep(a, b);
    MergeStep(Take(n, a), Take(n, b));
    TakeHead(n, a[0], Merge(a[1..], b));
    TakeHead(n, a[0], Merge(Take(n - 1, a[1..]), Take(n, b)));
    TakeMerge(n - 1, a[1..], b);
    TakeMerge(n - 1, Take(n - 1, a[1..]), Take(n, b));
    TakeTake(n - 1, n - 1, a[1..]);
    TakeTake(n - 1, n, b);
  }

  lemma {:induction false} TakeMergeRight(n: nat, a: seq<Row>, b: seq<Row>)
    requires n > 0 && a != [] && b != [] && ByNewest(a[0], b[0]) > 0
    ensures Take(n, Merge(a, b)) == Take(n, Merge(Take(n, a), Take(n, b)))
    decreases n, 0
  {
    hide Take, ByNewest, Merge;
    TakeTail(n, a);
    TakeTail(n, b);
    MergeStep(a, b);
    MergeStep(Take(n, a), Take(n, b));
    TakeHead(n, b[0], Merge(a, b[1..]));
    TakeHead(n, b[0], Merge(Take(n, a), Take(n - 1, b[1..])));
    TakeMerge(n - 1, a, b[1..]);
    TakeMerge(n - 1, Take(n, a), Take(n - 1, b[1..]));
    TakeTake(n - 1, n, a);
    TakeTake(n - 1, n - 1, b[1..]);
  }

  lemma TakeHead(n: nat, x: Row, xs: seq<Row>)
    requires n > 0
    ensures Take(n, [x] + xs) == [x] + Take(n - 1, xs)
  {
  }

  function Concat(logs: seq<seq<Row>>): seq<Row> {
    if logs == [] then [] else logs[0] + Concat(logs[1..])
  }

  function Windows(n: nat, logs: seq<seq<Row>>): seq<seq<Row>> {
    if logs == [] then [] else [Take(n, logs[0])] + Windows(n, logs[1..])
  }

  ghost predicate AllSorted(logs: seq<seq<Row>>) {
    forall i :: 0 <= i < |logs| ==> Sorted(logs[i])
  }

  /** The newest `n` rows over all logs are the newest `n` of the logs' newest `n`. */
  lemma {:induction false} WindowsSuffice(n: nat, logs: seq<seq<Row>>)
    requires AllSorted(logs)
    ensures Take(n, StableSort(Concat(logs))) == Take(n, StableSort(Concat(Windows(n, logs))))
  {
    if logs != [] {
      var a, rest := logs[0], logs[1..];
      var all, few := StableSort(Concat(rest)), StableSort(Concat(Windows(n, rest)));
      WindowsSuffice(n, rest);
      SortAppendIsMerge(a, Concat(rest));
      assert Sorted(Take(n, a));
      SortAppendIsMerge(Take(n, a), Concat(Windows(n, rest)));
      assert Windows(n, logs)[0] == Take(n, a) && Windows(n, logs)[1..] == Windows(n, rest);
      TakeMerge(n, a, all);
      TakeMerge(n, Take(n, a), few);
      assert Take(n, Take(n, a)) == Take(n, a);
    }
  }

  // ---- The page ----------------------------------------------------------------------------------

  const WINDOW_CAP := 500

  function Min(a: int, b: int): int {
    if a < b then a else b
  }

  /** A page number is at least 1; absent or non-positive means 1. */
  function PageOf(page: Option<int>): (p: int)
    ensures p >= 1
  {
    if page.Some? && page.value > 0 then page.value else 1
  }

  /** A limit is between 1 and 100; absent or non-positive means 20. */
  function LimitOf(limit: Option<int>): (l: int)
    ensures 1 <= l <= 100
  {
    if limit.Some? && limit.value > 0 then Min(limit.value, 100) else 20
  }

  /** Array.prototype.slice with non-negative bounds. */
  function Slice(xs: seq<Row>, from: nat, to: nat): seq<Row>
    requires from <= to
  {
    Take(to, xs)[Min(from, |Take(to, xs)|)..]
  }

  function Offset(p: int, l: int): (o: int)
    requires p >= 1 && l >= 1
    ensures 0 <= o && o + l == p * l
  {
    MulStep(p, l);
    (p - 1) * l
  }

  lemma MulStep(p: int, l: int)
    requires p >= 1 && l >= 1
    ensures (p - 1) * l >= 0 && (p - 1) * l + l == p * l
  {
  }

  /** One page of the feed: each leg answers with the newest rows of its log, up to the window. */
  function FeedPage(logs: seq<seq<Row>>, page: Option<int>, limit: Option<int>): seq<Row> {
    var p, l := PageOf(page), LimitOf(limit);
    var from := Offset(p, l);
    Slice(StableSort(Concat(Windows(Min(WINDOW_CAP, from + l), logs))), from, from + l)
  }

  /** The same page of the whole history. */
  function TruePage(logs: seq<seq<Row>>, page: Option<int>, limit: Option<int>): seq<Row> {
    var p, l := PageOf(page), LimitOf(limit);
    Slice(StableSort(Concat(logs)), Offset(p, l), Offset(p, l) + l)
  }

  // ---- The legs' own order ---------------------------------------------------------------------------

  /** A leg lists its log by creation time in microseconds and then id, both descending; ids are its
      primary key. */
  ghost predicate LegOrder(log: seq<Row>) {
    forall i, j :: 0 <= i < j < |log| ==>
      log[i].id != log[j].id
      && (log[i].micros > log[j].micros || (log[i].micros == log[j].micros && log[i].id > log[j].id))
  }

  /** The legs are concatenated in a fixed order of the services, and each names its service. */
  ghost predicate Legs(logs: seq<seq<Row>>) {
    && (forall i :: 0 <= i < |logs| ==> LegOrder(logs[i]))
    && (forall i, j, r, s :: 0 <= i < j < |logs| && r in logs[i] && s in logs[j] ==> r.service < s.service)
  }

  /** No row beyond the cut sorts before one within it; the order on either side is free. */
  ghost predicate CleanCut(n: nat, log: seq<Row>) {
    forall i, j :: 0 <= i < n <= j < |log| ==> ByNewest(log[i], log[j]) <= 0
  }

  ghost predicate AllClean(n: nat, logs: seq<seq<Row>>) {
    forall i :: 0 <= i < |logs| ==> CleanCut(n, logs[i])
  }

  // ---- Clean cuts are enough -------------------------------------------------------------------------

  lemma {:induction false} InsertMembers(x: Row, ys: seq<Row>)
    ensures |Insert(x, ys)| == |ys| + 1
    ensures forall r :: r in Insert(x, ys) <==> r == x || r in ys
  {
    if ys != [] && ByNewest(x, ys[0]) > 0 {
      InsertMembers(x, ys[1..]);
      assert ys == [ys[0]] + ys[1..];
    }
  }

  lemma {:induction false} SortMembers(xs: seq<Row>)
    ensures |StableSort(xs)| == |xs|
    ensures forall r :: r in StableSort(xs) <==> r in xs
  {
    if xs != [] {
      SortMembers(xs[1..]);
      InsertMembers(xs[0], StableSort(xs[1..]));
      assert xs == [xs[0]] + xs[1..];
    }
  }

  lemma SortedAppend(a: seq<Row>, b: seq<Row>)
    requires Sorted(a) && Sorted(b) && forall r, s :: r in a && s in b ==> ByNewest(r, s) <= 0
    ensures Sorted(a + b)
  {
    forall i, j | 0 <= i < j < |a + b| ensures ByNewest((a + b)[i], (a + b)[j]) <= 0 {
      if i < |a| <= j {
        assert a[i] in a && b[j - |a|] in b;
      }
    }
  }

  lemma CutIsBetween(n: nat, log: seq<Row>, r: Row, s: Row)
    requires CleanCut(n, log) && n <= |log| && r in log[..n] && s in log[n..]
    ensures ByNewest(r, s) <= 0
  {
    var i :| 0 <= i < n && log[i] == r;
    var j :| 0 <= j < |log| - n && log[n..][j] == s;
    assert log[n + j] == s;
  }

  /** A clean cut is a cut of the sorted log too. */
  lemma CutSorts(n: nat, log: seq<Row>)
    requires CleanCut(n, log) && n <= |log|
    ensures StableSort(log) == StableSort(log[..n]) + StableSort(log[n..])
    ensures Take(n, StableSort(log)) == StableSort(log[..n])
  {
    hide CleanCut, StableSort, Sorted, Filter, ByNewest;
    var a, b := StableSort(log[..n]), StableSort(log[n..]);
    StableSortSorts(log);
    StableSortSorts(log[..n]);
    StableSortSorts(log[n..]);
    SortMembers(log[..n]);
    SortMembers(log[n..]);
    forall r, s | r in a && s in b ensures ByNewest(r, s) <= 0 {
      CutIsBetween(n, log, r, s);
    }
    SortedAppend(a, b);
    forall k ensures Filter(a + b, k) == Filter(StableSort(log), k) {
      FilterAppend(a, b, k);
      FilterAppend(log[..n], log[n..], k);
      assert log[..n] + log[n..] == log;
    }
    StableSortIsUnique(StableSort(log), a + b);
  }

  function SortEach(logs: seq<seq<Row>>): seq<seq<Row>> {
    if logs == [] then [] else [StableSort(logs[0])] + SortEach(logs[1..])
  }

  lemma {:induction false} SortEachSorts(logs: seq<seq<Row>>)
    ensures AllSorted(SortEach(logs))
    ensures forall k :: Filter(Concat(SortEach(logs)), k) == Filter(Concat(logs), k)
  {
    if logs != [] {
      SortEachSorts(logs[1..]);
      StableSortSorts(logs[0]);
      assert SortEach(logs)[1..] == SortEach(logs[1..]);
      forall k ensures Filter(Concat(SortEach(logs)), k) == Filter(Concat(logs), k) {
        FilterAppend(StableSort(logs[0]), Concat(SortEach(logs[1..])), k);
        FilterAppend(logs[0], Concat(logs[1..]), k);
      }
    }
  }

  /** Sorting the legs one by one first changes nothing. */
  lemma SortEachFirst(logs: seq<seq<Row>>)
    ensures StableSort(Concat(SortEach(logs))) == StableSort(Concat(logs))
  {
    SortEachSorts(logs);
    StableSortSorts(Concat(SortEach(logs)));
    StableSortSorts(Concat(logs));
    StableSortIsUnique(StableSort(Concat(SortEach(logs))), StableSort(Concat(logs)));
  }

  lemma {:induction false} WindowsOfSorted(n: nat, logs: seq<seq<Row>>)
    requires AllClean(n, logs)
    ensures Windows(n, SortEach(logs)) == SortEach(Windows(n, logs))
  {
    if logs != [] {
      WindowsOfSorted(n, logs[1..]);
      SortMembers(logs[0]);
      if n <= |logs[0]| {
        CutSorts(n, logs[0]);
      }
      assert SortEach(logs)[1..] == SortEach(logs[1..]);
      assert Windows(n, logs)[1..] == Windows(n, logs[1..]);
    }
  }

  /** However the legs are ordered: the newest `n` rows over all logs are the newest `n` of the windows,
      as long as every leg is cut cleanly. */
  lemma CleanCutsSuffice(n: nat, logs: seq<seq<Row>>)
    requires AllClean(n, logs)
    ensures Take(n, StableSort(Concat(logs))) == Take(n, StableSort(Concat(Windows(n, logs))))
  {
    SortEachSorts(logs);
    SortEachFirst(logs);
    SortEachFirst(Windows(n, logs));
    WindowsOfSorted(n, logs);
    WindowsSuffice(n, SortEach(logs));
  }

  /** Within the cap the windowed page is the page of the whole history, for every set of logs and with
      ties across them, if the legs are cut cleanly. */
  lemma FeedIsExact(logs: seq<seq<Row>>, page: Option<int>, limit: Option<int>)
    requires AllClean(PageOf(page) * LimitOf(limit), logs) && PageOf(page) * LimitOf(limit) <= WINDOW_CAP
    ensures FeedPage(logs, page, limit) == TruePage(logs, page, limit)
  {
    CleanCutsSuffice(PageOf(page) * LimitOf(limit), logs);
  }

  /** The same for any implementation of the sort that is stable. */
  lemma AnyStableSortWillDo(logs: seq<seq<Row>>, page: Option<int>, limit: Option<int>,
                            merged: seq<Row>, whole: seq<Row>)
    requires AllClean(PageOf(page) * LimitOf(limit), logs) && PageOf(page) * LimitOf(limit) <= WINDOW_CAP
    requires IsStableSort(Concat(Windows(PageOf(page) * LimitOf(limit), logs)), merged)
    requires IsStableSort(Concat(logs), whole)
    ensures var from := Offset(PageOf(page), LimitOf(limit));
            Slice(merged, from, from + LimitOf(limit)) == Slice(whole, from, from + LimitOf(limit))
  {
    hide StableSort, Concat, Windows, Slice, Sorted, AllClean, Filter;
    var window := PageOf(page) * LimitOf(limit);
    StableSortSorts(Concat(Windows(window, logs)));
    StableSortSorts(Concat(logs));
    StableSortIsUnique(merged, StableSort(Concat(Windows(window, logs))));
    StableSortIsUnique(whole, StableSort(Concat(logs)));
    FeedIsExact(logs, page, limit);
  }

  // ---- The sort of the legs is strict ----------------------------------------------------------------

  /** Newest first, then larger id, then the earlier service: what the stable sort comes to on legs. */
  predicate Precedes(a: Row, b: Row) {
    ByNewest(a, b) < 0 || (ByNewest(a, b) == 0 && a.service < b.service)
  }

  ghost predicate Strict(xs: seq<Row>) {
    forall i, j :: 0 <= i < j < |xs| ==> Precedes(xs[i], xs[j])
  }

  lemma StrictTail(xs: seq<Row>)
    requires Strict(xs) && xs != []
    ensures Strict(xs[1..]) && xs[0] !in xs[1..] && forall r :: r in xs[1..] ==> Precedes(xs[0], r)
    ensures forall r :: r in xs <==> r == xs[0] || r in xs[1..]
  {
    assert xs == [xs[0]] + xs[1..];
  }

  lemma StrictCons(x: Row, xs: seq<Row>)
    requires Strict(xs) && forall r :: r in xs ==> Precedes(x, r)
    ensures Strict([x] + xs)
  {
    forall j | 0 <= j < |xs| ensures Precedes(x, xs[j]) {
      assert xs[j] in xs;
    }
  }

  lemma {:induction false} MergeMembers(a: seq<Row>, b: seq<Row>)
    ensures forall r :: r in Merge(a, b) <==> r in a || r in b
    decreases |a| + |b|
  {
    if a != [] && b != [] {
      assert a == [a[0]] + a[1..] && b == [b[0]] + b[1..];
      if ByNewest(a[0], b[0]) <= 0 {
        MergeMembers(a[1..], b);
      } else {
        MergeMembers(a, b[1..]);
      }
    }
  }

  /** Merging two strictly ordered sequences, the left one of earlier services. */
  lemma {:induction false} MergeStrict(a: seq<Row>, b: seq<Row>)
    requires Strict(a) && Strict(b) && forall r, s :: r in a && s in b ==> r.service < s.service
    ensures Strict(Merge(a, b))
    decreases |a| + |b|
  {
    if a != [] && b != [] {
      StrictTail(a);
      StrictTail(b);
      if ByNewest(a[0], b[0]) <= 0 {
        MergeStrict(a[1..], b);
        MergeMembers(a[1..], b);
        StrictCons(a[0], Merge(a[1..], b));
      } else {
        MergeStrict(a, b[1..]);
        MergeMembers(a, b[1..]);
        StrictCons(b[0], Merge(a, b[1..]));
      }
    }
  }

  lemma {:induction false} LegSortsStrictly(log: seq<Row>)
    requires forall i, j :: 0 <= i < j < |log| ==> log[i].id != log[j].id
    ensures Strict(StableSort(log))
  {
    if log != [] {
      var rest := StableSort(log[1..]);
      LegSortsStrictly(log[1..]);
      SortMembers(log[1..]);
      forall r | r in rest ensures r.id != log[0].id {
        var i :| 0 <= i < |log[1..]| && log[1..][i] == r;
        assert log[i + 1] == r;
      }
      InsertStrict(log[0], rest);
    }
  }

  lemma {:induction false} InsertStrict(x: Row, ys: seq<Row>)
    requires Strict(ys) && forall r :: r in ys ==> r.id != x.id
    ensures Strict(Insert(x, ys))
  {
    if ys == [] {
    } else {
      StrictTail(ys);
      if ByNewest(x, ys[0]) <= 0 {
        StrictCons(x, ys);
      } else {
        InsertStrict(x, ys[1..]);
        InsertMembers(x, ys[1..]);
        StrictCons(ys[0], Insert(x, ys[1..]));
      }
    }
  }

  /** Sorting an append is merging the two sorted parts. */
  lemma SortOfAppend(a: seq<Row>, rest: seq<Row>)
    ensures StableSort(a + rest) == Merge(StableSort(a), StableSort(rest))
  {
    StableSortSorts(a);
    SortAppendIsMerge(StableSort(a), rest);
    StableSortSorts(a + rest);
    StableSortSorts(StableSort(a) + rest);
    forall k ensures Filter(StableSort(a + rest), k) == Filter(StableSort(StableSort(a) + rest), k) {
      FilterAppend(a, rest, k);
      FilterAppend(StableSort(a), rest, k);
    }
    StableSortIsUnique(StableSort(a + rest), StableSort(StableSort(a) + rest));
  }

  lemma {:induction false} ConcatMembers(logs: seq<seq<Row>>)
    ensures forall r :: r in Concat(logs) <==> exists i :: 0 <= i < |logs| && r in logs[i]
  {
    if logs != [] {
      ConcatMembers(logs[1..]);
      forall r ensures r in Concat(logs) <==> exists i :: 0 <= i < |logs| && r in logs[i] {
        if r in Concat(logs[1..]) {
          var i :| 0 <= i < |logs[1..]| && r in logs[1..][i];
          assert r in logs[i + 1];
        }
        if i :| 0 <= i < |logs| && r in logs[i] {
          assert i > 0 ==> r in logs[1..][i - 1];
        }
      }
    }
  }

  lemma {:induction false} LegsSortStrictly(logs: seq<seq<Row>>)
    requires Legs(logs)
    ensures Strict(StableSort(Concat(logs)))
  {
    if logs != [] {
      var rest := logs[1..];
      assert Legs(rest) by {
        assert forall i :: 0 <= i < |rest| ==> rest[i] == logs[i + 1];
      }
      LegsSortStrictly(rest);
      LegSortsStrictly(logs[0]);
      SortOfAppend(logs[0], Concat(rest));
      SortMembers(logs[0]);
      SortMembers(Concat(rest));
      ConcatMembers(rest);
      forall r, s | r in StableSort(logs[0]) && s in StableSort(Concat(rest)) ensures r.service < s.service {
        var i :| 0 <= i < |rest| && s in rest[i];
        assert s in logs[i + 1];
      }
      MergeStrict(StableSort(logs[0]), StableSort(Concat(rest)));
    }
  }

  lemma {:induction false} WindowsAt(n: nat, logs: seq<seq<Row>>)
    ensures |Windows(n, logs)| == |logs| && forall i :: 0 <= i < |logs| ==> Windows(n, logs)[i] == Take(n, logs[i])
  {
    if logs != [] {
      WindowsAt(n, logs[1..]);
      assert Windows(n, logs) == [Take(n, logs[0])] + Windows(n, logs[1..]);
    }
  }

  lemma WindowsAreLegs(n: nat, logs: seq<seq<Row>>)
    requires Legs(logs)
    ensures Legs(Windows(n, logs))
  {
    var w := Windows(n, logs);
    WindowsAt(n, logs);
    forall i, r | 0 <= i < |w| && r in w[i] ensures r in logs[i] {
    }
    forall i | 0 <= i < |w| ensures LegOrder(w[i]) {
      assert LegOrder(logs[i]);
    }
  }

  lemma {:induction false} WindowsSize(n: nat, logs: seq<seq<Row>>)
    ensures |Concat(Windows(n, logs))| <= |Concat(logs)|
    ensures |Concat(Windows(n, logs))| == |Concat(logs)| ==> Windows(n, logs) == logs
  {
    if logs != [] {
      var w, rest := Windows(n, logs), logs[1..];
      WindowsSize(n, rest);
      assert w == [Take(n, logs[0])] + Windows(n, rest) && w[1..] == Windows(n, rest);
      assert |Concat(w)| == |Take(n, logs[0])| + |Concat(Windows(n, rest))|;
      assert |Concat(logs)| == |logs[0]| + |Concat(rest)|;
      assert |Take(n, logs[0])| == |logs[0]| ==> Take(n, logs[0]) == logs[0];
      assert logs == [logs[0]] + rest;
    }
  }

  // ---- Exactly when a page is right ------------------------------------------------------------------

  /** A strictly ordered sequence and one with more rows agree on the first `n` places, if none of the
      further rows precedes the `n`-th of the smaller one. */
  lemma {:induction false} PrefixAgrees(few: seq<Row>, all: seq<Row>, n: nat)
    requires Strict(few) && Strict(all) && 0 < n <= |few|
    requires (forall r :: r in few ==> r in all) && forall r :: r in all && r !in few ==> !Precedes(r, few[n - 1])
    ensures n <= |all| && few[..n] == all[..n]
    decreases n
  {
    assert few[0] in few && few[0] in all;
    SameHead(few, all, n);
    StrictTail(few);
    StrictTail(all);
    if n > 1 {
      forall r | r in few[1..] ensures r in all[1..] {
      }
      PrefixAgrees(few[1..], all[1..], n - 1);
      assert few[..n] == [few[0]] + few[1..][..n - 1] && all[..n] == [all[0]] + all[1..][..n - 1];
    }
  }

  lemma SameHead(few: seq<Row>, all: seq<Row>, n: nat)
    requires Strict(few) && Strict(all) && 0 < n <= |few| && all != []
    requires (forall r :: r in few ==> r in all) && forall r :: r in all && r !in few ==> !Precedes(r, few[n - 1])
    ensures few[0] == all[0]
  {
    assert few[0] in all && all[0] in all;
    var k :| 0 <= k < |all| && all[k] == few[0];
    if k > 0 {
      assert Precedes(all[0], few[0]);
      assert n > 1 ==> Precedes(few[0], few[n - 1]);
      assert Precedes(all[0], few[n - 1]);
      FirstIsLeast(few, all[0]);
    }
  }

  lemma FirstIsLeast(xs: seq<Row>, r: Row)
    requires Strict(xs) && r in xs
    ensures !Precedes(r, xs[0])
  {
    var i :| 0 <= i < |xs| && xs[i] == r;
    if i > 0 {
      assert Precedes(xs[0], xs[i]);
    }
  }

  function Rows(xs: seq<Row>): set<Row> {
    set r | r in xs
  }

  /** If the `n`-th rows are the same, no further row precedes it: there are as many before it in either
      sequence. */
  lemma NoneSqueezedIn(few: seq<Row>, all: seq<Row>, n: nat, r: Row)
    requires Strict(few) && Strict(all) && 0 < n <= |few| && n <= |all| && few[n - 1] == all[n - 1]
    requires (forall q :: q in few ==> q in all) && r in all && r !in few
    ensures !Precedes(r, few[n - 1])
  {
    var before, before' := Rows(few[..n - 1]), Rows(all[..n - 1]);
    forall q | q in before ensures q in before' && q in few {
      var i :| 0 <= i < n - 1 && few[i] == q;
      assert few[i] in few && few[i] in all && Precedes(few[i], few[n - 1]);
      EarlierIsBefore(all, n - 1, q);
    }
    StrictSize(few[..n - 1]);
    StrictSize(all[..n - 1]);
    SameSize(before, before');
    EarlierIsBefore(all, n - 1, r);
  }

  lemma EarlierIsBefore(xs: seq<Row>, n: nat, r: Row)
    requires Strict(xs) && n < |xs| && r in xs
    ensures Precedes(r, xs[n]) ==> r in xs[..n]
  {
    var i :| 0 <= i < |xs| && xs[i] == r;
    if i > n {
      assert Precedes(xs[n], xs[i]);
    } else if i < n {
      assert xs[..n][i] == r;
    }
  }

  lemma {:induction false} StrictSize(xs: seq<Row>)
    requires Strict(xs)
    ensures |Rows(xs)| == |xs|
  {
    if xs != [] {
      StrictTail(xs);
      StrictSize(xs[1..]);
      assert Rows(xs) == Rows(xs[1..]) + {xs[0]};
    }
  }

  lemma SameSize(a: set<Row>, b: set<Row>)
    requires a <= b && |a| == |b|
    ensures a == b
  {
    assert b == a + (b - a);
  }

  /** With windows of `w` rows, for a page from `from` to `to`: what was fetched fills the page and no row
      left out precedes the page's last one; or nothing was left out; or the page lies beyond the whole
      history. */
  ghost predicate NothingMissed(w: nat, logs: seq<seq<Row>>, from: nat, to: nat)
    requires from < to
  {
    var windows := Windows(w, logs);
    var shown := StableSort(Concat(windows));
    if |shown| >= to then forall r :: r in Concat(logs) && r !in Concat(windows) ==> !Precedes(r, shown[to - 1])
    else windows == logs || |Concat(logs)| <= from
  }

  lemma RightIffNothingMissed(w: nat, logs: seq<seq<Row>>, from: nat, to: nat)
    requires Legs(logs) && from < to
    ensures Slice(StableSort(Concat(Windows(w, logs))), from, to) == Slice(StableSort(Concat(logs)), from, to)
       <==> NothingMissed(w, logs, from, to)
  {
    var few, all := StableSort(Concat(Windows(w, logs))), StableSort(Concat(logs));
    WindowsSize(w, logs);
    SortMembers(Concat(Windows(w, logs)));
    SortMembers(Concat(logs));
    hide StableSort, Concat, Windows, Slice, Strict, Precedes, Legs;
    if |few| >= to {
      WindowsAreLegs(w, logs);
      LegsSortStrictly(Windows(w, logs));
      LegsSortStrictly(logs);
      WindowRowsAreRows(w, logs);
      FullPage(few, all, from, to);
    } else {
      ShortPage(few, all, from, to);
    }
  }

  /** For the logs of any legs and any page, within the cap or past it: the page is right if and only if
      nothing was missed. */
  lemma FeedIsExactIff(logs: seq<seq<Row>>, page: Option<int>, limit: Option<int>)
    requires Legs(logs)
    ensures var from := Offset(PageOf(page), LimitOf(limit));
            var to := from + LimitOf(limit);
            FeedPage(logs, page, limit) == TruePage(logs, page, limit) <==> NothingMissed(Min(WINDOW_CAP, to), logs, from, to)
  {
    hide StableSort, Concat, Windows, Slice, NothingMissed, Legs;
    var from := Offset(PageOf(page), LimitOf(limit));
    var to := from + LimitOf(limit);
    RightIffNothingMissed(Min(WINDOW_CAP, to), logs, from, to);
  }

  lemma WindowRowsAreRows(n: nat, logs: seq<seq<Row>>)
    ensures forall r :: r in Concat(Windows(n, logs)) ==> r in Concat(logs)
  {
    WindowsAt(n, logs);
    ConcatMembers(logs);
    ConcatMembers(Windows(n, logs));
    forall r | r in Concat(Windows(n, logs)) ensures r in Concat(logs) {
      var i :| 0 <= i < |logs| && r in Windows(n, logs)[i];
      assert r in logs[i];
    }
  }

  lemma FullPage(few: seq<Row>, all: seq<Row>, from: nat, to: nat)
    requires from < to && Strict(few) && Strict(all) && to <= |few| <= |all| && forall r :: r in few ==> r in all
    ensures Slice(few, from, to) == Slice(all, from, to)
       <==> forall r :: r in all && r !in few ==> !Precedes(r, few[to - 1])
  {
    hide Strict, Precedes;
    if Slice(few, from, to) == Slice(all, from, to) {
      var last := to - from - 1;
      assert few[to - 1] == Slice(few, from, to)[last] == Slice(all, from, to)[last] == all[to - 1];
      forall r | r in all && r !in few ensures !Precedes(r, few[to - 1]) {
        NoneSqueezedIn(few, all, to, r);
      }
    }
    if forall r :: r in all && r !in few ==> !Precedes(r, few[to - 1]) {
      PrefixAgrees(few, all, to);
    }
  }

  lemma ShortPage(few: seq<Row>, all: seq<Row>, from: nat, to: nat)
    requires from < to && |few| < to && |few| <= |all|
    ensures |few| < |all| && from < |all| ==> Slice(few, from, to) != Slice(all, from, to)
    ensures |all| <= from ==> Slice(few, from, to) == Slice(all, from, to)
  {
    SliceSize(few, from, to);
    SliceSize(all, from, to);
    if |few| < |all| && from < |all| {
      assert |Slice(few, from, to)| < |Slice(all, from, to)|;
    }
  }

  lemma SliceSize(xs: seq<Row>, from: nat, to: nat)
    requires from <= to
    ensures |Slice(xs, from, to)| == if |xs| <= from then 0 else Min(to, |xs|) - from
  {
  }

  /** One service alone, within the cap: its page is right if and only if its log is cut cleanly. */
  lemma OneLegIsExactIff(log: seq<Row>, page: Option<int>, limit: Option<int>)
    requires LegOrder(log) && PageOf(page) * LimitOf(limit) <= WINDOW_CAP
    ensures FeedPage([log], page, limit) == TruePage([log], page, limit) <==> CleanCut(PageOf(page) * LimitOf(limit), log)
  {
    hide FeedPage, TruePage, NothingMissed, LegOrder, CleanCut;
    var from := Offset(PageOf(page), LimitOf(limit));
    var to := from + LimitOf(limit);
    OneLegOfLegs(log);
    FeedIsExactIff([log], page, limit);
    OneLegMissesNothing(log, from, to);
  }

  lemma OneLegOfLegs(log: seq<Row>)
    requires LegOrder(log)
    ensures Legs([log])
  {
  }

  lemma OneLegMissesNothing(log: seq<Row>, from: nat, to: nat)
    requires LegOrder(log) && from < to
    ensures NothingMissed(to, [log], from, to) <==> CleanCut(to, log)
  {
    OneWindow(to, log);
    SingleLog(log);
    SingleLog(Take(to, log));
    SortMembers(Take(to, log));
    hide StableSort, Windows, Concat, Precedes, LegOrder;
    if to <= |log| {
      LastOfWindow(to, log);
    }
  }

  lemma OneWindow(n: nat, log: seq<Row>)
    ensures Windows(n, [log]) == [Take(n, log)]
  {
    assert [log][1..] == [];
    assert Windows(n, [log][1..]) == [];
  }

  lemma SingleLog(log: seq<Row>)
    ensures Concat([log]) == log
  {
    assert [log][1..] == [];
    assert Concat([log][1..]) == [];
  }

  /** The rows beyond a window do not precede its last row exactly when they precede none of its rows. */
  lemma LastOfWindow(n: nat, log: seq<Row>)
    requires LegOrder(log) && 0 < n <= |log|
    ensures |StableSort(log[..n])| == n
    ensures (forall r :: r in log && r !in log[..n] ==> !Precedes(r, StableSort(log[..n])[n - 1])) <==> CleanCut(n, log)
  {
    var shown := StableSort(log[..n]);
    SortMembers(log[..n]);
    StableSortSorts(log[..n]);
    var z := shown[n - 1];
    assert z in shown;
    hide StableSort, ByNewest, LegOrder, CleanCut, Precedes;
    if CleanCut(n, log) {
      forall r | r in log && r !in log[..n] ensures !Precedes(r, z) {
        assert log == log[..n] + log[n..];
        CutIsBetween(n, log, z, r);
        DifferentIds(n, log, z, r);
        NotBoth(z, r);
      }
    }
    if forall r :: r in log && r !in log[..n] ==> !Precedes(r, z) {
      forall i, j | 0 <= i < n <= j < |log| ensures ByNewest(log[i], log[j]) <= 0 {
        LaterIsNotWithin(n, log, j);
        assert log[..n][i] in log[..n];
        LastIsLast(shown, log[i]);
        DifferentIds(n, log, z, log[j]);
        Between(log[i], z, log[j]);
      }
      AllBetween(n, log);
    }
  }

  lemma AllBetween(n: nat, log: seq<Row>)
    requires forall i, j :: 0 <= i < n <= j < |log| ==> ByNewest(log[i], log[j]) <= 0
    ensures CleanCut(n, log)
  {
  }

  lemma NotBoth(a: Row, b: Row)
    requires ByNewest(a, b) <= 0 && a.id != b.id
    ensures !Precedes(b, a)
  {
  }

  lemma LastIsLast(xs: seq<Row>, r: Row)
    requires Sorted(xs) && r in xs
    ensures ByNewest(r, xs[|xs| - 1]) <= 0
  {
    var m :| 0 <= m < |xs| && xs[m] == r;
    assert m < |xs| - 1 ==> ByNewest(xs[m], xs[|xs| - 1]) <= 0;
  }

  lemma DifferentIds(n: nat, log: seq<Row>, z: Row, r: Row)
    requires LegOrder(log) && n <= |log| && z in log[..n] && r in log && r !in log[..n]
    ensures z.id != r.id
  {
    assert log == log[..n] + log[n..];
    var k :| 0 <= k < n && log[k] == z;
    var j :| 0 <= j < |log| - n && log[n..][j] == r;
    assert log[k].id != log[n + j].id;
  }
  lemma Between(a: Row, z: Row, b: Row)
    requires ByNewest(a, z) <= 0 && !Precedes(b, z) && z.id != b.id
    ensures ByNewest(a, b) <= 0
  {
  }

  lemma LaterIsNotWithin(n: nat, log: seq<Row>, j: nat)
    requires LegOrder(log) && n <= j < |log|
    ensures log[j] in log && log[j] !in log[..n]
  {
    forall i | 0 <= i < n ensures log[..n][i] != log[j] {
      assert log[i].id != log[j].id;
    }
  }

  /** Within one millisecond, the later of two rows has the larger id. */
  ghost predicate IdsFollowMicros(log: seq<Row>) {
    forall i, j :: 0 <= i < |log| && 0 <= j < |log| && log[i].micros / 1000 == log[j].micros / 1000
                   && log[i].micros > log[j].micros
      ==> log[i].id > log[j].id
  }

  /** A leg is cut cleanly wherever the window ends, so every page of it is right, exactly when ids follow
      the microseconds. */
  lemma AlwaysCleanIff(log: seq<Row>)
    requires LegOrder(log)
    ensures (forall n: nat :: CleanCut(n, log)) <==> IdsFollowMicros(log)
  {
    if IdsFollowMicros(log) {
      forall i, j | 0 <= i < j < |log| ensures ByNewest(log[i], log[j]) <= 0 {
      }
    }
    if forall n: nat :: CleanCut(n, log) {
      forall i, j | 0 <= i < |log| && 0 <= j < |log| && log[i].micros / 1000 == log[j].micros / 1000
                    && log[i].micros > log[j].micros
        ensures log[i].id > log[j].id
      {
        assert i < j;
        assert CleanCut(i + 1, log);
        assert ByNewest(log[i], log[j]) <= 0 && log[i].id != log[j].id;
      }
    }
  }

  /** A witness: two rows of one millisecond whose microseconds run against their ids. The leg lists the
      later one first, the comparator wants the larger id first, and the first page shows the wrong row. */
  lemma MicrosecondsAgainstIds(a: Row, b: Row)
    requires a == Row(1_700, 1, 0, "") && b == Row(1_200, 2, 0, "")
    ensures Legs([[a, b]]) && !CleanCut(1, [a, b])
    ensures FeedPage([[a, b]], Some(1), Some(1)) == [a] && TruePage([[a, b]], Some(1), Some(1)) == [b]
  {
    SingleLog([a, b]);
    SingleLog([a]);
    OneWindow(1, [a, b]);
    assert Take(1, [a, b]) == [a];
    SortPair(a, b);
    assert Offset(1, 1) == 0;
    assert Slice([a], 0, 1) == [a] && Slice([b, a], 0, 1) == [b];
    assert ByNewest([a, b][0], [a, b][1]) > 0;
  }

  lemma SortPair(a: Row, b: Row)
    requires ByNewest(a, b) > 0
    ensures StableSort([a]) == [a] && StableSort([a, b]) == [b, a]
  {
    assert [a][1..] == [] && [b][1..] == [] && [a, b][1..] == [b];
    assert StableSort([b]) == [b];
    assert Insert(a, [b]) == [b] + Insert(a, []);
  }

  // ---- Times are always right -------------------------------------------------------------------------

  function Times(xs: seq<Row>): (times: seq<int>)
    ensures |times| == |xs|
  {
    seq(|xs|, i requires 0 <= i < |xs| => At(xs[i]))
  }

  /** A row with nothing but its time. */
  function Bare(r: Row): Row {
    Row(At(r) * 1000, 0, 0, "")
  }

  function BareAll(xs: seq<Row>): (bare: seq<Row>)
    ensures |bare| == |xs|
  {
    seq(|xs|, i requires 0 <= i < |xs| => Bare(xs[i]))
  }

  function BareLogs(logs: seq<seq<Row>>): seq<seq<Row>> {
    if logs == [] then [] else [BareAll(logs[0])] + BareLogs(logs[1..])
  }

  lemma {:induction false} BareConcat(logs: seq<seq<Row>>)
    ensures BareAll(Concat(logs)) == Concat(BareLogs(logs))
  {
    hide BareAll, Bare;
    if logs == [] {
      assert |BareAll([])| == 0;
    } else {
      BareConcat(logs[1..]);
      BareAppend(logs[0], Concat(logs[1..]));
      assert BareLogs(logs)[1..] == BareLogs(logs[1..]);
    }
  }

  lemma BareAppend(xs: seq<Row>, ys: seq<Row>)
    ensures BareAll(xs + ys) == BareAll(xs) + BareAll(ys)
  {
  }

  lemma {:induction false} BareWindows(n: nat, logs: seq<seq<Row>>)
    ensures BareLogs(Windows(n, logs)) == Windows(n, BareLogs(logs))
  {
    if logs != [] {
      BareWindows(n, logs[1..]);
      assert BareLogs(logs)[1..] == BareLogs(logs[1..]);
      assert Windows(n, logs)[1..] == Windows(n, logs[1..]);
      assert BareAll(Take(n, logs[0])) == Take(n, BareAll(logs[0]));
    }
  }

  /** By time alone, sorting does not see the ids. */
  lemma {:induction false} BareInsert(x: Row, ys: seq<Row>)
    requires Sorted(ys)
    ensures BareAll(Insert(x, ys)) == Insert(Bare(x), BareAll(ys))
  {
    if ys != [] {
      var rest := ys[1..];
      BareInsert(x, rest);
      assert BareAll(ys)[1..] == BareAll(rest);
      assert BareAll([x] + ys) == [Bare(x)] + BareAll(ys);
      assert BareAll([ys[0]] + Insert(x, rest)) == [Bare(ys[0])] + BareAll(Insert(x, rest));
      if ByNewest(x, ys[0]) > 0 && At(x) == At(ys[0]) {
        assert rest != [] ==> ByNewest(ys[0], ys[1]) <= 0;
        assert BareAll(ys) == [Bare(x)] + BareAll(rest);
      }
    }
  }

  lemma {:induction false} BareSort(xs: seq<Row>)
    ensures BareAll(StableSort(xs)) == StableSort(BareAll(xs))
  {
    if xs != [] {
      BareSort(xs[1..]);
      StableSortSorts(xs[1..]);
      BareInsert(xs[0], StableSort(xs[1..]));
      assert BareAll(xs)[1..] == BareAll(xs[1..]);
    }
  }

  lemma BareSlice(xs: seq<Row>, from: nat, to: nat)
    requires from <= to
    ensures BareAll(Slice(xs, from, to)) == Slice(BareAll(xs), from, to)
  {
    assert BareAll(Take(to, xs)) == Take(to, BareAll(xs));
  }

  lemma {:induction false} BareLogsSorted(logs: seq<seq<Row>>)
    requires forall i :: 0 <= i < |logs| ==> LegOrder(logs[i])
    ensures AllSorted(BareLogs(logs))
  {
    if logs != [] {
      BareLogsSorted(logs[1..]);
    }
  }

  lemma SortedIsClean(n: nat, logs: seq<seq<Row>>)
    requires AllSorted(logs)
    ensures AllClean(n, logs)
  {
  }

  /** Even where a cut is not clean, the page has a row of the right millisecond in every place: only rows
      of one millisecond can stand for each other. */
  lemma FeedTimesAreExact(logs: seq<seq<Row>>, page: Option<int>, limit: Option<int>)
    requires forall i :: 0 <= i < |logs| ==> LegOrder(logs[i])
    requires PageOf(page) * LimitOf(limit) <= WINDOW_CAP
    ensures Times(FeedPage(logs, page, limit)) == Times(TruePage(logs, page, limit))
  {
    var l := LimitOf(limit);
    var from := Offset(PageOf(page), l);
    var windows := Windows(from + l, logs);
    BareLogsSorted(logs);
    SortedIsClean(from + l, BareLogs(logs));
    FeedIsExact(BareLogs(logs), page, limit);
    BareWindows(from + l, logs);
    BareConcat(windows);
    BareConcat(logs);
    BareSort(Concat(windows));
    BareSort(Concat(logs));
    BareSlice(StableSort(Concat(windows)), from, from + l);
    BareSlice(StableSort(Concat(logs)), from, from + l);
    assert BareAll(FeedPage(logs, page, limit)) == BareAll(TruePage(logs, page, limit));
    SameBareSameTimes(FeedPage(logs, page, limit), TruePage(logs, page, limit));
  }

  lemma SameBareSameTimes(xs: seq<Row>, ys: seq<Row>)
    requires BareAll(xs) == BareAll(ys)
    ensures Times(xs) == Times(ys)
  {
    forall i | 0 <= i < |xs| ensures At(xs[i]) == At(ys[i]) {
      assert BareAll(xs)[i] == BareAll(ys)[i];
    }
  }

  // ---- The pages in numbers --------------------------------------------------------------------------

  /** The whole history: every row of every log once, newest millisecond first and larger ids first within
      one. */
  ghost function History(logs: seq<seq<Row>>): seq<Row> {
    StableSort(Concat(logs))
  }

  lemma HistoryIsNewestFirst(logs: seq<seq<Row>>, i: nat, j: nat)
    requires i < j < |History(logs)|
    ensures var a, b := History(logs)[i], History(logs)[j];
            a.micros / 1000 > b.micros / 1000 || (a.micros / 1000 == b.micros / 1000 && a.id >= b.id)
  {
    StableSortSorts(Concat(logs));
  }

  lemma {:induction false} SortKeepsRows(xs: seq<Row>)
    ensures multiset(StableSort(xs)) == multiset(xs)
  {
    if xs != [] {
      SortKeepsRows(xs[1..]);
      InsertKeepsRows(xs[0], StableSort(xs[1..]));
      assert xs == [xs[0]] + xs[1..];
    }
  }

  lemma {:induction false} InsertKeepsRows(x: Row, ys: seq<Row>)
    ensures multiset(Insert(x, ys)) == multiset(ys) + multiset{x}
  {
    if ys != [] && ByNewest(x, ys[0]) > 0 {
      InsertKeepsRows(x, ys[1..]);
      assert ys == [ys[0]] + ys[1..];
    }
  }

  /** The history has each row as often as the logs together. */
  lemma HistoryHoldsEveryRow(logs: seq<seq<Row>>, row: Row)
    ensures multiset(History(logs))[row] == CountIn(logs, row)
  {
    SortKeepsRows(Concat(logs));
    ConcatCounts(logs, row);
  }

  ghost function CountIn(logs: seq<seq<Row>>, row: Row): nat {
    if logs == [] then 0 else multiset(logs[0])[row] + CountIn(logs[1..], row)
  }

  lemma {:induction false} ConcatCounts(logs: seq<seq<Row>>, row: Row)
    ensures multiset(Concat(logs))[row] == CountIn(logs, row)
  {
    if logs != [] {
      ConcatCounts(logs[1..], row);
    }
  }

  /** With pages of `l` rows within the first 500, row `i` of page `p` is row `(p - 1) * l + i` of the
      history, and the page is as long as the history allows. */
  lemma PageByNumber(logs: seq<seq<Row>>, p: int, l: int)
    requires p >= 1 && 1 <= l <= 100 && p * l <= 500 && AllClean(p * l, logs)
    ensures var shown, all, from := FeedPage(logs, Some(p), Some(l)), History(logs), (p - 1) * l;
            && from >= 0
            && |shown| == (if |all| <= from then 0 else if |all| < from + l then |all| - from else l)
            && forall i :: 0 <= i < |shown| ==> shown[i] == all[from + i]
  {
    FeedIsExact(logs, Some(p), Some(l));
    MulStep(p, l);
    SliceByNumber(History(logs), (p - 1) * l, (p - 1) * l + l);
  }

  lemma SliceByNumber(xs: seq<Row>, from: nat, to: nat)
    requires from <= to
    ensures |Slice(xs, from, to)| == if |xs| <= from then 0 else if |xs| < to then |xs| - from else to - from
    ensures forall i :: 0 <= i < |Slice(xs, from, to)| ==> Slice(xs, from, to)[i] == xs[from + i]
  {
  }

  /** Pages 1 to `n`, one after the other. */
  ghost function FirstPages(logs: seq<seq<Row>>, n: nat, l: int): seq<Row> {
    if n == 0 then [] else FirstPages(logs, n - 1, l) + FeedPage(logs, Some(n), Some(l))
  }

  /** Consecutive pages tile the history: together the first `n` pages are its first `n * l` rows. */
  lemma {:induction false} PagesTile(logs: seq<seq<Row>>, n: nat, l: int)
    requires 1 <= l <= 100 && n * l <= 500 && forall p :: 1 <= p <= n ==> AllClean(p * l, logs)
    ensures FirstPages(logs, n, l) == if n * l <= |History(logs)| then History(logs)[..n * l] else History(logs)
  {
    if n > 0 {
      var all, before := History(logs), (n - 1) * l;
      MulStep(n, l);
      PagesTile(logs, n - 1, l);
      PageByNumber(logs, n, l);
      TileStep(all, FirstPages(logs, n - 1, l), FeedPage(logs, Some(n), Some(l)), before, l);
    }
  }

  lemma TileStep(all: seq<Row>, done: seq<Row>, page: seq<Row>, from: nat, l: nat)
    requires done == if from <= |all| then all[..from] else all
    requires |page| == if |all| <= from then 0 else if |all| < from + l then |all| - from else l
    requires forall i :: 0 <= i < |page| ==> page[i] == all[from + i]
    ensures done + page == if from + l <= |all| then all[..from + l] else all
  {
  }

  /** An absent or non-positive page is the first; an absent or non-positive limit is 20; a limit above 100
      is 100. */
  lemma DefaultsByNumber(logs: seq<seq<Row>>, page: Option<int>, limit: Option<int>)
    ensures page == None || page.value <= 0 ==> FeedPage(logs, page, limit) == FeedPage(logs, Some(1), limit)
    ensures limit == None || limit.value <= 0 ==> FeedPage(logs, page, limit) == FeedPage(logs, page, Some(20))
    ensures limit != None && limit.value > 100 ==> FeedPage(logs, page, limit) == FeedPage(logs, page, Some(100))
  {
  }

  /** And 500 is the most: for a page that ends later there are cleanly cut logs whose rows at its end are
      missing. */
  lemma LatePageIsShort(legs: nat, p: int, l: int) returns (logs: seq<seq<Row>>)
    requires legs > 0 && p >= 1 && 1 <= l <= 100 && p * l > 500
    ensures |logs| == legs && Legs(logs) && AllClean(500, logs)
    ensures |History(logs)| >= p * l && |FeedPage(logs, Some(p), Some(l))| < l
  {
    logs := PastTheCap(legs, Some(p), Some(l));
    MulStep(p, l);
    var windows := Windows(500, logs);
    SortMembers(Concat(windows));
    SortMembers(Concat(logs));
    SliceByNumber(StableSort(Concat(windows)), (p - 1) * l, (p - 1) * l + l);
  }

  // ---- Exactly when the window is enough ------------------------------------------------------------

  /** Right for all contents of the legs that the windows cut cleanly. */
  ghost predicate ExactForAll(legs: nat, page: Option<int>, limit: Option<int>) {
    forall logs: seq<seq<Row>> ::
      |logs| == legs && Legs(logs) && AllClean(Min(WINDOW_CAP, PageOf(page) * LimitOf(limit)), logs) ==>
        FeedPage(logs, page, limit) == TruePage(logs, page, limit)
  }

  /** `n` rows, newest first. */
  function Descending(n: nat): seq<Row> {
    seq(n, i => Row(-1000 * i, -i, 0, ""))
  }

  lemma DescendingIsSorted(n: nat)
    ensures Sorted(Descending(n)) && LegOrder(Descending(n))
  {
  }

  /** The first leg holds `log`, the others nothing. */
  function LoneLog(log: seq<Row>, legs: nat): seq<seq<Row>>
    decreases legs
  {
    if legs == 0 then [] else [log] + LoneLog([], legs - 1)
  }

  lemma {:induction false} EmptyLegs(n: nat, legs: nat)
    ensures |LoneLog([], legs)| == legs && forall i :: 0 <= i < legs ==> LoneLog([], legs)[i] == []
    ensures Concat(LoneLog([], legs)) == [] && Concat(Windows(n, LoneLog([], legs))) == []
  {
    if legs > 0 {
      var logs := LoneLog([], legs);
      assert logs[1..] == LoneLog([], legs - 1);
      EmptyLegs(n, legs - 1);
      assert Windows(n, logs)[1..] == Windows(n, logs[1..]);
    }
  }

  lemma EmptyLeg(n: nat)
    ensures LegOrder([]) && CleanCut(n, [])
  {
  }

  lemma SortedCut(n: nat, log: seq<Row>)
    requires Sorted(log)
    ensures CleanCut(n, log)
  {
  }

  lemma WindowsOfLone(n: nat, log: seq<Row>, legs: nat)
    requires legs > 0
    ensures Concat(Windows(n, LoneLog(log, legs))) == Take(n, log)
  {
    var logs, rest := LoneLog(log, legs), LoneLog([], legs - 1);
    EmptyLegs(n, legs - 1);
    assert logs[0] == log && logs[1..] == rest;
    assert Windows(n, logs) == [Take(n, log)] + Windows(n, rest) && Windows(n, logs)[1..] == Windows(n, rest);
  }

  lemma LoneLogFacts(n: nat, log: seq<Row>, legs: nat)
    requires legs > 0 && LegOrder(log) && Sorted(log)
    ensures var logs := LoneLog(log, legs);
            && |logs| == legs && Legs(logs) && AllClean(n, logs)
            && |Concat(logs)| == |log| && |Concat(Windows(n, logs))| == |Take(n, log)|
  {
    hide LegOrder, Sorted, CleanCut;
    var logs, rest := LoneLog(log, legs), LoneLog([], legs - 1);
    EmptyLegs(n, legs - 1);
    assert logs[0] == log && logs[1..] == rest;
    WindowsOfLone(n, log, legs);
    SortedCut(n, log);
    EmptyLeg(n);
    forall i | 0 < i < |logs| ensures logs[i] == [] {
      assert logs[i] == rest[i - 1];
    }
  }

  /** One log with a row for every place up to the end of the page, the other legs empty: past the cap
      the page comes out short. */
  lemma PastTheCap(legs: nat, page: Option<int>, limit: Option<int>) returns (logs: seq<seq<Row>>)
    requires legs > 0 && PageOf(page) * LimitOf(limit) > WINDOW_CAP
    ensures |logs| == legs && Legs(logs) && AllClean(WINDOW_CAP, logs)
    ensures |Concat(Windows(WINDOW_CAP, logs))| == WINDOW_CAP && |Concat(logs)| == PageOf(page) * LimitOf(limit)
    ensures FeedPage(logs, page, limit) != TruePage(logs, page, limit)
  {
    var l := LimitOf(limit);
    var n := Offset(PageOf(page), l) + l;
    var big := Descending(n);
    logs := LoneLog(big, legs);
    DescendingIsSorted(n);
    LoneLogFacts(WINDOW_CAP, big, legs);
    WindowsSize(WINDOW_CAP, logs);
    SortMembers(Concat(Windows(WINDOW_CAP, logs)));
    FeedIsExactIff(logs, page, limit);
  }

  /** The feed is exact for every cleanly cut content of the logs if and only if the page ends within the
      cap. */
  lemma ExactIffWithinCap(legs: nat, page: Option<int>, limit: Option<int>)
    requires legs > 0
    ensures ExactForAll(legs, page, limit) <==> PageOf(page) * LimitOf(limit) <= WINDOW_CAP
  {
    if PageOf(page) * LimitOf(limit) <= WINDOW_CAP {
      forall logs: seq<seq<Row>> | |logs| == legs && Legs(logs) && AllClean(PageOf(page) * LimitOf(limit), logs)
        ensures FeedPage(logs, page, limit) == TruePage(logs, page, limit)
      {
        FeedIsExact(logs, page, limit);
      }
    } else {
      var logs := PastTheCap(legs, page, limit);
    }
  }
}
