/** Reading the hierarchy: the recursive subtree query, the rows by level and by parent, and the
    breadth-first listing. */
module BranchQueries {
  import opened Prelude
  import opened BranchTable
  import opened BranchWalks
  import opened BranchRules

  function LiveIds(t: Table): set<Id> {
    set x | x in t && Live(t, x)
  }

  // ---- The recursive query -----------------------------------------------------------------------

  /** `x` is in the `k`-th round of the recursive query started from the live ones among `roots`. */
  ghost predicate InRound(t: Table, roots: seq<Id>, x: Id, k: nat) {
    exists r :: r in roots && Live(t, r) && Below(t, r, x, k)
  }

  ghost predicate InSubtrees(t: Table, roots: seq<Id>, x: Id) {
    exists k: nat :: InRound(t, roots, x, k)
  }

  /** A set that holds the live roots and, with a row, its live children. */
  ghost predicate ClosedFrom(t: Table, roots: seq<Id>, s: set<Id>) {
    && (forall r :: r in roots && Live(t, r) ==> r in s)
    && (forall p, c :: p in s && ChildOf(t, c, p) ==> c in s)
  }

  lemma NextRound(t: Table, roots: seq<Id>, c: Id, k: nat)
    ensures InRound(t, roots, c, k + 1) <==> Live(t, c) && t[c].parent.Some? && InRound(t, roots, t[c].parent.value, k)
  {
    if InRound(t, roots, c, k + 1) {
      var r :| r in roots && Live(t, r) && Below(t, r, c, k + 1);
      assert Below(t, r, t[c].parent.value, k);
    }
    if Live(t, c) && t[c].parent.Some? && InRound(t, roots, t[c].parent.value, k) {
      var r :| r in roots && Live(t, r) && Below(t, r, t[c].parent.value, k);
      assert Below(t, r, c, k + 1);
    }
  }

  lemma {:induction false} EmptyRoundEnds(t: Table, roots: seq<Id>, i: nat, k: nat, x: Id)
    requires forall y :: !InRound(t, roots, y, i)
    requires k >= i
    ensures !InRound(t, roots, x, k)
    decreases k
  {
    if k > i {
      NextRound(t, roots, x, k - 1);
      if Live(t, x) && t[x].parent.Some? {
        EmptyRoundEnds(t, roots, i, k - 1, t[x].parent.value);
      }
    }
  }

  ghost predicate WithinDepth(t: Table, root: Id, x: Id, k: nat) {
    exists j: nat :: j <= k && Below(t, root, x, j)
  }

  /** The rows on the way from a root off every cycle down to `x`, one for each step. */
  lemma {:induction false} PathTo(t: Table, root: Id, x: Id, k: nat) returns (path: set<Id>)
    requires OffCycle(t, root) && Below(t, root, x, k)
    ensures path <= t.Keys && |path| == k
    ensures forall y :: y in path ==> WithinDepth(t, root, y, k)
    decreases k
  {
    path := {};
    if k > 0 {
      var above := PathTo(t, root, t[x].parent.value, k - 1);
      if WithinDepth(t, root, x, k - 1) {
        var j: nat :| j <= k - 1 && Below(t, root, x, j);
        BelowUnique(t, root, x, j, k);
      }
      path := above + {x};
    }
  }

  ghost predicate RootsOffCycles(t: Table, roots: seq<Id>) {
    forall r :: r in roots && Live(t, r) ==> OffCycle(t, r)
  }

  /** A round that holds a row is no deeper than the table is long. */
  lemma RoundIsBounded(t: Table, roots: seq<Id>, working: seq<Id>, k: nat)
    requires RootsOffCycles(t, roots) && IsRound(t, roots, working, k) && |working| > 0
    ensures k <= |t.Keys|
  {
    var x := working[0];
    assert x in working;
    var r :| r in roots && Live(t, r) && Below(t, r, x, k);
    var path := PathTo(t, r, x, k);
    SubsetIsSmaller(path, t.Keys);
  }

  lemma SubsetIsSmaller<T>(a: set<T>, b: set<T>)
    requires a <= b
    ensures |a| <= |b|
  {
    assert b == a + (b - a);
  }

  /** WITH RECURSIVE ... UNION ALL: each round joins the previous round's rows with their children,
      duplicates kept. The rounds run out when no root is on a cycle. */
  method CollectDescendantIds(t: Table, roots: seq<Id>) returns (ids: set<Id>)
    requires RootsOffCycles(t, roots)
    ensures forall x :: x in ids <==> InSubtrees(t, roots, x)
  {
    var working := LiveRoots(t, roots);
    ids := set x | x in working;
    ghost var k: nat := 0;
    while |working| > 0
      invariant IsRound(t, roots, working, k) && AreRounds(t, roots, ids, k)
      decreases |t.Keys| - k, |working|
    {
      RoundIsBounded(t, roots, working, k);
      var next := JoinChildren(t, working);
      RoundStep(t, roots, working, next, ids, k);
      ids := ids + (set x | x in next);
      working, k := next, k + 1;
    }
    RoundsRunOut(t, roots, ids, k);
  }

  /** `working` holds the rows of round `k`, with repetitions. */
  ghost predicate IsRound(t: Table, roots: seq<Id>, working: seq<Id>, k: nat) {
    forall x :: x in working <==> InRound(t, roots, x, k)
  }

  ghost predicate UpToRound(t: Table, roots: seq<Id>, x: Id, k: nat) {
    exists j: nat :: j <= k && InRound(t, roots, x, j)
  }

  ghost predicate AreRounds(t: Table, roots: seq<Id>, ids: set<Id>, k: nat) {
    forall x :: x in ids <==> UpToRound(t, roots, x, k)
  }

  method LiveRoots(t: Table, roots: seq<Id>) returns (working: seq<Id>)
    ensures IsRound(t, roots, working, 0)
    ensures AreRounds(t, roots, (set x | x in working), 0)
  {
    working := [];
    for i := 0 to |roots|
      invariant forall x :: x in working <==> x in roots[..i] && Live(t, x)
    {
      assert roots[..i + 1] == roots[..i] + [roots[i]];
      if Live(t, roots[i]) {
        working := working + [roots[i]];
      }
    }
    assert roots[..|roots|] == roots;
    forall x ensures x in working <==> InRound(t, roots, x, 0) {
      if x in working {
        assert Below(t, x, x, 0);
      }
    }
    forall x ensures InRound(t, roots, x, 0) <==> UpToRound(t, roots, x, 0) {
    }
  }

  lemma RoundStep(t: Table, roots: seq<Id>, working: seq<Id>, next: seq<Id>, ids: set<Id>, k: nat)
    requires IsRound(t, roots, working, k) && AreRounds(t, roots, ids, k)
    requires forall c :: c in next <==> Live(t, c) && t[c].parent.Some? && t[c].parent.value in working
    ensures IsRound(t, roots, next, k + 1)
    ensures AreRounds(t, roots, ids + (set x | x in next), k + 1)
  {
    forall c ensures c in next <==> InRound(t, roots, c, k + 1) {
      NextRound(t, roots, c, k);
    }
    forall x ensures UpToRound(t, roots, x, k + 1) <==> UpToRound(t, roots, x, k) || InRound(t, roots, x, k + 1) {
    }
  }

  lemma RoundsRunOut(t: Table, roots: seq<Id>, ids: set<Id>, k: nat)
    requires IsRound(t, roots, [], k) && AreRounds(t, roots, ids, k)
    ensures forall x :: x in ids <==> InSubtrees(t, roots, x)
  {
    assert forall y :: y !in [] ==> !InRound(t, roots, y, k);
    forall x ensures UpToRound(t, roots, x, k) <==> InSubtrees(t, roots, x) {
      if InSubtrees(t, roots, x) {
        var j: nat :| InRound(t, roots, x, j);
        if j > k {
          EmptyRoundEnds(t, roots, k, j, x);
        }
      }
    }
  }

  method JoinChildren(t: Table, working: seq<Id>) returns (next: seq<Id>)
    ensures forall c :: c in next <==> Live(t, c) && t[c].parent.Some? && t[c].parent.value in working
  {
    next := [];
    for i := 0 to |working|
      invariant forall c :: c in next <==> Live(t, c) && t[c].parent.Some? && t[c].parent.value in working[..i]
    {
      assert working[..i + 1] == working[..i] + [working[i]];
      var kids := InSomeOrder(Children(t, working[i]));
      assert forall c :: c in kids <==> c in Children(t, working[i]);
      next := next + kids;
    }
    assert working[..|working|] == working;
  }

  /** The query's answer is the least set closed under live children that holds the live roots. */
  lemma SubtreesAreLeastFixedPoint(t: Table, roots: seq<Id>, ids: set<Id>)
    requires forall x :: x in ids <==> InSubtrees(t, roots, x)
    ensures ClosedFrom(t, roots, ids)
    ensures forall s :: ClosedFrom(t, roots, s) ==> ids <= s
  {
    forall r | r in roots && Live(t, r) ensures r in ids {
      assert Below(t, r, r, 0);
      assert InRound(t, roots, r, 0);
    }
    forall p, c | p in ids && ChildOf(t, c, p) ensures c in ids {
      var k: nat :| InRound(t, roots, p, k);
      NextRound(t, roots, c, k);
    }
    forall s, x | ClosedFrom(t, roots, s) && x in ids ensures x in s {
      var k: nat :| InRound(t, roots, x, k);
      RoundInClosed(t, roots, s, x, k);
    }
  }

  lemma {:induction false} RoundInClosed(t: Table, roots: seq<Id>, s: set<Id>, x: Id, k: nat)
    requires ClosedFrom(t, roots, s) && InRound(t, roots, x, k)
    ensures x in s
    decreases k
  {
    if k > 0 {
      NextRound(t, roots, x, k - 1);
      RoundInClosed(t, roots, s, t[x].parent.value, k - 1);
      assert ChildOf(t, x, t[x].parent.value);
    }
  }

  // ---- Ordered listings --------------------------------------------------------------------------

  /** ORDER BY level, createdAt; rows equal in both come in any order. */
  predicate NotAfter(t: Table, x: Id, y: Id)
    requires x in t && y in t
  {
    t[x].level < t[y].level || (t[x].level == t[y].level && t[x].createdAt <= t[y].createdAt)
  }

  ghost predicate Ordered(t: Table, q: seq<Id>) {
    && (forall x :: x in q ==> x in t)
    && forall i, j :: 0 <= i < j < |q| ==> NotAfter(t, q[i], q[j])
  }

  method FindLiveOrdered(t: Table) returns (q: seq<Id>)
    ensures Lists(q, LiveIds(t)) && Ordered(t, q)
    ensures forall i, j :: 0 <= i < j < |q| ==>
              t[q[i]].level < t[q[j]].level || (t[q[i]].level == t[q[j]].level && t[q[i]].createdAt <= t[q[j]].createdAt)
  {
    var rest := InSomeOrder(LiveIds(t));
    q := [];
    for i := 0 to |rest|
      invariant Ordered(t, q) && Distinct(q)
      invariant forall x :: x in q <==> x in rest[..i]
    {
      var x := rest[i];
      assert rest[..i + 1] == rest[..i] + [x];
      assert x !in rest[..i];
      assert x in LiveIds(t);
      var at := 0;
      while at < |q| && NotAfter(t, q[at], x)
        invariant at <= |q|
        invariant forall j :: 0 <= j < at ==> NotAfter(t, q[j], x)
      {
        at := at + 1;
      }
      InsertElements(q, at, x);
      InsertKeepsOrder(t, q, at, x);
      q := Insert(q, at, x);
    }
    assert rest[..|rest|] == rest;
  }

  function Insert(q: seq<Id>, at: nat, x: Id): seq<Id>
    requires at <= |q|
  {
    q[..at] + [x] + q[at..]
  }

  lemma InsertElements(q: seq<Id>, at: nat, x: Id)
    requires at <= |q| && Distinct(q) && x !in q
    ensures Distinct(Insert(q, at, x))
    ensures forall y :: y in Insert(q, at, x) <==> y in q || y == x
  {
    assert q == q[..at] + q[at..];
    var r := Insert(q, at, x);
    forall i, j | 0 <= i < j < |r| ensures r[i] != r[j] {
      assert i != at ==> r[i] == q[if i < at then i else i - 1];
      assert j != at ==> r[j] == q[if j < at then j else j - 1];
    }
  }

  lemma InsertKeepsOrder(t: Table, q: seq<Id>, at: nat, x: Id)
    requires Ordered(t, q) && x in t && at <= |q|
    requires forall j :: 0 <= j < at ==> NotAfter(t, q[j], x)
    requires at < |q| ==> !NotAfter(t, q[at], x)
    ensures Ordered(t, Insert(q, at, x))
  {
    var r := Insert(q, at, x);
    forall i | 0 <= i < |r| ensures r[i] == (if i < at then q[i] else if i == at then x else q[i - 1]) && r[i] in t {
      assert i != at ==> r[i] in q;
    }
    forall i, j | 0 <= i < j < |r| ensures NotAfter(t, r[i], r[j]) {
      if i == at {
        assert NotAfter(t, x, q[at]);
        assert q[at] == r[j] || NotAfter(t, q[at], r[j]);
      }
    }
  }

  /** The rows of `q` hanging under `p`, in the order of `q`. */
  function ChildRows(t: Table, q: seq<Id>, p: Id): seq<Id> {
    if q == [] then []
    else
      var last := q[|q| - 1];
      ChildRows(t, q[..|q| - 1], p) + (if last in t && t[last].parent == Some(p) then [last] else [])
  }

  /** Filtering the live rows by parent yields each live child once. */
  lemma {:induction false} ChildRowsLists(t: Table, q: seq<Id>, p: Id)
    requires Distinct(q) && forall x :: x in q ==> Live(t, x)
    ensures Distinct(ChildRows(t, q, p))
    ensures forall x :: x in ChildRows(t, q, p) <==> x in q && ChildOf(t, x, p)
    decreases |q|
  {
    if q != [] {
      var init, last := q[..|q| - 1], q[|q| - 1];
      assert q == init + [last];
      ChildRowsLists(t, init, p);
      assert forall i :: 0 <= i < |init| ==> q[i] == init[i];
      assert last !in init && last in q;
      AppendDistinct(ChildRows(t, init, p), if t[last].parent == Some(p) then [last] else []);
    }
  }

  /** What grouping the rows by parent leaves under the key `p`. */
  function Group(groups: map<Id, seq<Id>>, p: Id): seq<Id> {
    if p in groups then groups[p] else []
  }

  method GroupByParent(t: Table, q: seq<Id>) returns (groups: map<Id, seq<Id>>)
    requires forall x :: x in q ==> x in t
    ensures forall p :: Group(groups, p) == ChildRows(t, q, p)
  {
    groups := map[];
    for i := 0 to |q|
      invariant forall p :: Group(groups, p) == ChildRows(t, q[..i], p)
    {
      assert q[..i + 1][..i] == q[..i];
      if t[q[i]].parent.Some? {
        var p := t[q[i]].parent.value;
        groups := groups[p := Group(groups, p) + [q[i]]];
      }
    }
    assert q[..|q|] == q;
  }

  // ---- Breadth-first listing ---------------------------------------------------------------------

  function Level(t: Table, x: Id): int {
    if x in t then t[x].level else 0
  }

  /** Rows in the order they were met, by level; the queue is what is left of it from `head` on. */
  ghost predicate LevelOrder(t: Table, order: seq<Id>, head: nat) {
    && (forall i, j :: 0 <= i < j < |order| ==> Level(t, order[i]) <= Level(t, order[j]))
    && (head < |order| ==> forall j :: 0 <= j < |order| ==> Level(t, order[j]) <= Level(t, order[head]) + 1)
  }

  lemma LevelOrderStep(t: Table, order: seq<Id>, head: nat, kids: seq<Id>)
    requires IsTree(t) && LevelOrder(t, order, head) && head < |order|
    requires forall c :: c in kids ==> ChildOf(t, c, order[head])
    ensures LevelOrder(t, order + kids, head + 1)
  {
    forall j | 0 <= j < |kids| ensures Level(t, kids[j]) == Level(t, order[head]) + 1 {
      assert kids[j] in kids;
    }
  }

  /** Lists the subtree of a live branch without the branch itself. */
  method FindBranchDescendants(t: Table, id: Id) returns (r: Result<seq<Id>, Error>)
    requires Live(t, id) ==> OffCycle(t, id)
    ensures r.Err? <==> !Live(t, id)
    ensures r.Err? ==> r.error == NotFound
    ensures r.Ok? ==> ListsSubtree(t, id, r.value)
  {
    if !Live(t, id) {
      return Err(NotFound);
    }
    var rows := FindLiveOrdered(t);
    var groups := GroupByParent(t, rows);
    var descendants, queue := [], [id];
    ghost var depth: map<Id, nat>, done: set<Id>, order, head: nat := map[id := 0], {}, [id], 0;
    WalkStart(t, id);
    while |queue| > 0
      invariant Walking(t, id, depth, done, order, queue, head, descendants)
      decreases t.Keys + {id} - done
    {
      var current := queue[0];
      var kids := Group(groups, current);
      GroupIsChildren(t, rows, current);
      WalkStep(t, id, depth, done, order, queue, head, descendants, current, kids);
      descendants, queue := descendants + kids, queue[1..] + kids;
      order, depth, done, head := order + kids, WithKids(depth, current, kids), done + {current}, head + 1;
    }
    ListingDone(t, id, depth, done, order, queue, head, descendants);
    return Ok(descendants);
  }

  lemma TailOfAppend(a: seq<Id>, b: seq<Id>)
    requires |a| > 0
    ensures (a + b)[1..] == a[1..] + b && (a + b)[0] == a[0]
  {
  }

  ghost predicate Walking(t: Table, id: Id, depth: map<Id, nat>, done: set<Id>, order: seq<Id>, queue: seq<Id>, head: nat,
                          descendants: seq<Id>) {
    && Frontier(t, id, depth, done, queue)
    && Listing(t, depth, order, queue, head)
    && |order| > 0 && order[0] == id && descendants == order[1..]
  }

  lemma WalkStart(t: Table, id: Id)
    requires Live(t, id)
    ensures Walking(t, id, map[id := 0], {}, [id], [id], 0, [])
  {
    FrontierStart(t, id);
  }

  lemma WalkStep(t: Table, id: Id, depth: map<Id, nat>, done: set<Id>, order: seq<Id>, queue: seq<Id>, head: nat,
                 descendants: seq<Id>, p: Id, kids: seq<Id>)
    requires OffCycle(t, id) && |queue| > 0 && p == queue[0]
    requires Walking(t, id, depth, done, order, queue, head, descendants)
    requires Lists(kids, Children(t, p))
    ensures p in depth && p in t.Keys + {id} && p !in done
    ensures Walking(t, id, WithKids(depth, p, kids), done + {p}, order + kids, queue[1..] + kids, head + 1, descendants + kids)
  {
    TailOfAppend(order, kids);
    ListingStep(t, id, depth, done, order, queue, head, p, kids);
  }

  lemma GroupIsChildren(t: Table, rows: seq<Id>, p: Id)
    requires Lists(rows, LiveIds(t))
    ensures Lists(ChildRows(t, rows, p), Children(t, p))
  {
    ChildRowsLists(t, rows, p);
    forall x ensures x in ChildRows(t, rows, p) <==> x in Children(t, p) {
      assert x in rows <==> x in LiveIds(t);
    }
  }

  ghost predicate Listing(t: Table, depth: map<Id, nat>, order: seq<Id>, queue: seq<Id>, head: nat) {
    && head <= |order|
    && (IsTree(t) ==> LevelOrder(t, order, head))
    && queue == order[head..]
    && Distinct(order)
    && forall x :: x in depth <==> x in order
  }

  lemma ListingStep(t: Table, id: Id, depth: map<Id, nat>, done: set<Id>, order: seq<Id>, queue: seq<Id>, head: nat, p: Id, kids: seq<Id>)
    requires OffCycle(t, id) && |queue| > 0 && p == queue[0]
    requires Frontier(t, id, depth, done, queue) && Listing(t, depth, order, queue, head)
    requires Lists(kids, Children(t, p))
    ensures p in depth && p in t.Keys + {id} && p !in done
    ensures Frontier(t, id, WithKids(depth, p, kids), done + {p}, queue[1..] + kids)
    ensures Listing(t, WithKids(depth, p, kids), order + kids, queue[1..] + kids, head + 1)
  {
    assert p in queue;
    FrontierBounded(t, id, depth, done, queue);
    FrontierStep(t, id, depth, done, queue, kids);
    assert p == order[head];
    forall c | c in kids ensures ChildOf(t, c, p) {
      assert c in Children(t, p);
    }
    ListingAppend(t, depth, order, queue, head, p, kids);
  }

  lemma ListingAppend(t: Table, depth: map<Id, nat>, order: seq<Id>, queue: seq<Id>, head: nat, p: Id, kids: seq<Id>)
    requires Listing(t, depth, order, queue, head)
    requires head < |order| && p == order[head] && p in depth && Distinct(kids)
    requires forall c :: c in kids ==> c !in depth && ChildOf(t, c, p)
    ensures Listing(t, WithKids(depth, p, kids), order + kids, queue[1..] + kids, head + 1)
  {
    if IsTree(t) {
      LevelOrderStep(t, order, head, kids);
    }
    AppendDistinct(order, kids);
    assert queue[1..] + kids == (order + kids)[head + 1..];
  }

  lemma AppendDistinct(a: seq<Id>, b: seq<Id>)
    requires Distinct(a) && Distinct(b) && forall x :: x in b ==> x !in a
    ensures Distinct(a + b)
  {
    var s := a + b;
    forall i, j | 0 <= i < j < |s| ensures s[i] != s[j] {
      if i < |a| <= j {
        assert b[j - |a|] in b && a[i] in a;
      }
    }
  }

  /** Every proper descendant of `id` once and, on a tree, no level after a deeper one. */
  ghost predicate ListsSubtree(t: Table, id: Id, listed: seq<Id>) {
    && Distinct(listed)
    && (forall x :: x in listed <==> Under(t, id, x))
    && (IsTree(t) ==> forall i, j :: 0 <= i < j < |listed| ==> Level(t, listed[i]) <= Level(t, listed[j]))
  }

  lemma ListingDone(t: Table, id: Id, depth: map<Id, nat>, done: set<Id>, order: seq<Id>, queue: seq<Id>, head: nat,
                    descendants: seq<Id>)
    requires Walking(t, id, depth, done, order, queue, head, descendants) && OffCycle(t, id) && queue == []
    ensures ListsSubtree(t, id, descendants)
  {
    FrontierIsUnder(t, id, depth, done);
    forall x ensures x in order[1..] <==> x in order && x != id {
      if x in order[1..] {
        var i :| 0 <= i < |order| - 1 && order[1..][i] == x;
        assert order[i + 1] == x;
      }
    }
  }

  /** The breadth-first list and the recursive query agree: the query's answer is the list plus its root. */
  lemma ListingIsQuery(t: Table, id: Id, listed: seq<Id>, ids: set<Id>)
    requires Live(t, id)
    requires ListsSubtree(t, id, listed)
    requires forall x :: x in ids <==> InSubtrees(t, [id], x)
    ensures ids == {id} + set x | x in listed
  {
    forall x ensures x in ids <==> x == id || x in listed {
      if x in ids {
        var k: nat :| InRound(t, [id], x, k);
        assert Below(t, id, x, k);
      }
      if x == id {
        assert Below(t, id, id, 0);
        assert InRound(t, [id], id, 0);
      }
      if x in listed {
        var k := DepthUnder(t, id, x);
        assert InRound(t, [id], x, k);
      }
    }
  }
}
