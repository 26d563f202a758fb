/** The nested tree view of the branches (findBranchTree). */
module BranchTree {
  import opened Prelude
  import opened BranchTable
  import opened BranchWalks
  import opened BranchQueries

  predicate Orphan(t: Table, x: Id) {
    Live(t, x) && (t[x].parent.None? || !Live(t, t[x].parent.value))
  }

  /** The rows without a live parent, in the order of `q`. */
  function RootRows(t: Table, q: seq<Id>): seq<Id> {
    if q == [] then []
    else
      var last := q[|q| - 1];
      RootRows(t, q[..|q| - 1])
        + (if Orphan(t, last) then [last] else [])
  }

  lemma {:induction false} RootRowsLists(t: Table, q: seq<Id>)
    requires Distinct(q) && forall x :: x in q ==> Live(t, x)
    ensures Distinct(RootRows(t, q))
    ensures forall x :: x in RootRows(t, q) <==> x in q && Orphan(t, x)
    decreases |q|
  {
    if q != [] {
      var init, last := q[..|q| - 1], q[|q| - 1];
      assert q == init + [last];
      RootRowsLists(t, init);
      assert forall i :: 0 <= i < |init| ==> q[i] == init[i];
      assert last !in init && last in q;
      AppendDistinct(RootRows(t, init), RootRows(t, q)[|RootRows(t, init)|..]);
    }
  }

  /** Each live row has a list, and it holds the row's live children, each once. */
  ghost predicate GoodLists(t: Table, kids: map<Id, seq<Id>>) {
    kids.Keys == LiveIds(t) && forall p :: p in kids ==> Lists(kids[p], Children(t, p))
  }

  /** Every live row sits in exactly one list: the roots if it has no live parent, else its parent's. */
  ghost predicate PlacedOnce(t: Table, roots: seq<Id>, kids: map<Id, seq<Id>>) {
    && Distinct(roots)
    && (forall x :: x in roots <==> Orphan(t, x))
    && GoodLists(t, kids)
  }

  /** Two passes over the ordered rows: make an empty node for each, then push each node onto its
      parent's list, or onto the root list when the parent is absent or deleted. */
  method FindBranchTree(t: Table) returns (roots: seq<Id>, kids: map<Id, seq<Id>>)
    ensures PlacedOnce(t, roots, kids)
  {
    var rows := FindLiveOrdered(t);
    kids := map x | x in t && Live(t, x) :: [];
    roots := [];
    for i := 0 to |rows|
      invariant roots == RootRows(t, rows[..i])
      invariant kids.Keys == LiveIds(t)
      invariant forall p :: p in kids ==> kids[p] == ChildRows(t, rows[..i], p)
    {
      var x := rows[i];
      assert rows[..i + 1][..i] == rows[..i];
      assert x in LiveIds(t);
      match t[x].parent {
        case None => roots := roots + [x];
        case Some(p) =>
          if p in kids {
            kids := kids[p := kids[p] + [x]];
          } else {
            roots := roots + [x];
          }
      }
    }
    assert rows[..|rows|] == rows;
    RootRowsLists(t, rows);
    forall p | p in kids ensures Lists(kids[p], Children(t, p)) {
      GroupIsChildren(t, rows, p);
    }
    forall x | Live(t, x) ensures x in rows {
      assert x in LiveIds(t);
    }
  }

  lemma FirstTwoDiffer(q: seq<Id>)
    requires Distinct(q)
    ensures |q| > 1 ==> q[0] != q[1]
  {
  }

  /** On a tree the root list is the HQ alone, and no edge is lost to the missing-parent fallback. */
  lemma TreeRoots(t: Table, roots: seq<Id>, kids: map<Id, seq<Id>>)
    requires IsTree(t) && PlacedOnce(t, roots, kids)
    ensures (forall x :: !Live(t, x)) ==> roots == []
    ensures (exists x :: Live(t, x)) ==> |roots| == 1 && LiveHq(t, roots[0])
    ensures forall x :: Live(t, x) && t[x].parent.Some? ==> x !in roots && x in kids[t[x].parent.value]
  {
    assert |roots| > 0 ==> roots[0] in roots;
    if x :| Live(t, x) {
      var h := TreeReachesHq(t, x);
      assert h in roots;
    }
    forall i | 0 <= i < |roots| ensures LiveHq(t, roots[i]) {
      assert roots[i] in roots;
    }
    FirstTwoDiffer(roots);
    forall x | Live(t, x) && t[x].parent.Some? ensures x in kids[t[x].parent.value] {
      var p := t[x].parent.value;
      assert p in LiveIds(t) && x in Children(t, p);
    }
  }

  // ---- The nested value and its flattening -------------------------------------------------------

  datatype Node = Node(id: Id, children: seq<Node>)

  /** The live rows at or below `x`. */
  ghost function Subtree(t: Table, x: Id): set<Id> {
    set y | y in t && Live(t, y) && OnChain(t, x, y)
  }

  /** The node of a row off every cycle, with its child lists followed all the way down. */
  ghost function Nested(t: Table, kids: map<Id, seq<Id>>, x: Id): Node
    requires Live(t, x) && OffCycle(t, x) && GoodLists(t, kids)
    decreases |Subtree(t, x)|
  {
    ChildrenAreSmaller(t, x);
    assert x in LiveIds(t);
    ListedAreMembers(kids[x], Children(t, x));
    Node(x, seq(|kids[x]|, i requires 0 <= i < |kids[x]| => Nested(t, kids, kids[x][i])))
  }

  lemma ListedAreMembers(q: seq<Id>, s: set<Id>)
    requires Lists(q, s)
    ensures forall i :: 0 <= i < |q| ==> q[i] in s
  {
    forall i | 0 <= i < |q| ensures q[i] in s {
      assert q[i] in q;
    }
  }

  lemma SmallerSet<T>(a: set<T>, b: set<T>)
    requires a < b
    ensures |a| < |b|
  {
    assert b == a + (b - a);
  }

  lemma ChildIsSmaller(t: Table, x: Id, c: Id)
    requires Live(t, x) && OffCycle(t, x) && ChildOf(t, c, x)
    ensures OffCycle(t, c) && |Subtree(t, c)| < |Subtree(t, x)|
  {
    ChildOffCycle(t, x, c);
    assert Below(t, x, x, 0) && Below(t, x, c, 1);
    forall y | y in Subtree(t, c) ensures y in Subtree(t, x) && y != x {
      ChildSubtreeExcludes(t, x, c, y);
      var k: nat :| Below(t, c, y, k);
      BelowTrans(t, x, c, y, 1, k);
    }
    assert x in Subtree(t, x);
    SmallerSet(Subtree(t, c), Subtree(t, x));
  }

  lemma ChildrenAreSmaller(t: Table, x: Id)
    requires Live(t, x) && OffCycle(t, x)
    ensures forall c :: c in Children(t, x) ==> Live(t, c) && OffCycle(t, c) && |Subtree(t, c)| < |Subtree(t, x)|
  {
    forall c | c in Children(t, x) ensures OffCycle(t, c) && |Subtree(t, c)| < |Subtree(t, x)| {
      ChildIsSmaller(t, x, c);
    }
  }

  function Flatten(n: Node): seq<Id>
    decreases n
  {
    [n.id] + FlattenAll(n.children)
  }

  function FlattenAll(ns: seq<Node>): seq<Id>
    decreases ns
  {
    if ns == [] then [] else Flatten(ns[0]) + FlattenAll(ns[1..])
  }

  lemma {:induction false} FirstStepDown(t: Table, x: Id, y: Id, k: nat) returns (c: Id)
    requires k > 0 && Below(t, x, y, k)
    ensures ChildOf(t, c, x) && Below(t, c, y, k - 1)
    decreases k
  {
    if k == 1 {
      c := y;
    } else {
      c := FirstStepDown(t, x, t[y].parent.value, k - 1);
    }
  }

  /** A subtree is its root and the subtrees of its children. */
  lemma SubtreeSplits(t: Table, x: Id, y: Id)
    ensures OnChain(t, x, y) <==> y == x || exists c :: c in Children(t, x) && OnChain(t, c, y)
  {
    assert Below(t, x, x, 0);
    if OnChain(t, x, y) && y != x {
      var k: nat :| Below(t, x, y, k);
      var c := FirstStepDown(t, x, y, k);
      assert c in Children(t, x);
    }
    if c :| c in Children(t, x) && OnChain(t, c, y) {
      var k: nat :| Below(t, c, y, k);
      assert Below(t, x, c, 1);
      BelowTrans(t, x, c, y, 1, k);
    }
  }

  /** Subtrees of different children share nothing. */
  lemma SubtreesDisjoint(t: Table, x: Id, b: Id, c: Id, y: Id)
    requires OffCycle(t, x) && ChildOf(t, b, x) && ChildOf(t, c, x)
    requires OnChain(t, b, y) && OnChain(t, c, y)
    ensures b == c
  {
    var j: nat :| Below(t, b, y, j);
    var k: nat :| Below(t, c, y, k);
    if j >= k {
      SiblingsApart(t, x, b, c, y, j, k);
    } else {
      SiblingsApart(t, x, c, b, y, k, j);
    }
  }

  lemma SiblingsApart(t: Table, x: Id, b: Id, c: Id, y: Id, j: nat, k: nat)
    requires OffCycle(t, x) && ChildOf(t, b, x) && ChildOf(t, c, x)
    requires Below(t, b, y, j) && Below(t, c, y, k) && j >= k
    ensures b == c
  {
    BelowOnOneLine(t, b, c, y, j, k);
    if j > k {
      assert Below(t, b, x, j - k - 1);
      assert Below(t, x, x, 0) && Below(t, x, b, 1);
      BelowTrans(t, x, b, x, 1, j - k - 1);
      assert Under(t, x, x);
    }
  }

  lemma ChildSubtreeExcludes(t: Table, x: Id, c: Id, y: Id)
    requires OffCycle(t, x) && ChildOf(t, c, x) && OnChain(t, c, y)
    ensures y != x
  {
    if y == x {
      var k: nat :| Below(t, c, x, k);
      assert Below(t, x, x, 0) && Below(t, x, c, 1);
      BelowTrans(t, x, c, x, 1, k);
      assert Under(t, x, x);
    }
  }

  /** Flattening the node of `x` lists its subtree, each row once. */
  lemma {:induction false} FlattenListsSubtree(t: Table, kids: map<Id, seq<Id>>, x: Id)
    requires Live(t, x) && OffCycle(t, x) && GoodLists(t, kids)
    ensures Distinct(Flatten(Nested(t, kids, x)))
    ensures forall y :: y in Flatten(Nested(t, kids, x)) <==> OnChain(t, x, y)
    decreases |Subtree(t, x)|, 1, 0
  {
    var node := Nested(t, kids, x);
    assert x in LiveIds(t);
    ChildrenAreSmaller(t, x);
    FlattenListsChildren(t, kids, x, 0);
    assert node.children[0..] == node.children;
    var below := FlattenAll(node.children);
    forall y ensures y in below <==> y != x && OnChain(t, x, y) {
      SubtreeSplits(t, x, y);
      if y in below {
        var i :| 0 <= i < |kids[x]| && OnChain(t, kids[x][i], y);
        assert kids[x][i] in Children(t, x);
        ChildSubtreeExcludes(t, x, kids[x][i], y);
      }
      if y != x && OnChain(t, x, y) {
        var c :| c in Children(t, x) && OnChain(t, c, y);
        assert c in kids[x];
      }
    }
    AppendDistinct([x], below);
    forall y ensures y in Flatten(node) <==> OnChain(t, x, y) {
      SubtreeSplits(t, x, y);
    }
  }

  /** The same for the children of `x` from index `i` on. */
  lemma {:induction false} FlattenListsChildren(t: Table, kids: map<Id, seq<Id>>, x: Id, i: nat)
    requires Live(t, x) && OffCycle(t, x) && GoodLists(t, kids) && x in kids && i <= |kids[x]|
    ensures var forest := FlattenAll(Nested(t, kids, x).children[i..]);
            && Distinct(forest)
            && forall y :: y in forest <==> exists j :: i <= j < |kids[x]| && OnChain(t, kids[x][j], y)
    decreases |Subtree(t, x)|, 0, |kids[x]| - i
  {
    var ns := Nested(t, kids, x).children;
    if i < |kids[x]| {
      var c := kids[x][i];
      assert c in Children(t, x);
      ChildIsSmaller(t, x, c);
      FlattenListsSubtree(t, kids, c);
      FlattenListsChildren(t, kids, x, i + 1);
      assert ns[i..] == [ns[i]] + ns[i + 1..];
      var first, rest := Flatten(ns[i]), FlattenAll(ns[i + 1..]);
      forall y | y in rest ensures y !in first {
        var j :| i + 1 <= j < |kids[x]| && OnChain(t, kids[x][j], y);
        assert kids[x][j] in Children(t, x);
        if OnChain(t, c, y) {
          SubtreesDisjoint(t, x, c, kids[x][j], y);
        }
      }
      AppendDistinct(first, rest);
    }
  }

  // ---- From the root list down ---------------------------------------------------------------------

  /** No live row is above a row without a live parent. */
  lemma OrphanHasNoneAbove(t: Table, a: Id, r: Id)
    requires Orphan(t, r) && Live(t, a)
    ensures forall k: nat :: Below(t, a, r, k) ==> k == 0
  {
  }

  lemma OrphanOffCycle(t: Table, r: Id)
    requires Orphan(t, r)
    ensures OffCycle(t, r)
  {
    OrphanHasNoneAbove(t, r, r);
  }

  ghost function Forest(t: Table, kids: map<Id, seq<Id>>, roots: seq<Id>): seq<Node>
    requires GoodLists(t, kids) && forall x :: x in roots ==> Orphan(t, x)
  {
    seq(|roots|, i requires 0 <= i < |roots| =>
          assert roots[i] in roots; OrphanOffCycle(t, roots[i]); Nested(t, kids, roots[i]))
  }

  lemma RootSubtreesDisjoint(t: Table, r: Id, s: Id, y: Id)
    requires Orphan(t, r) && Orphan(t, s) && OnChain(t, r, y) && OnChain(t, s, y)
    ensures r == s
  {
    OrphanHasNoneAbove(t, r, s);
    OrphanHasNoneAbove(t, s, r);
    var j: nat :| Below(t, r, y, j);
    var k: nat :| Below(t, s, y, k);
    if j >= k {
      BelowOnOneLine(t, r, s, y, j, k);
    } else {
      BelowOnOneLine(t, s, r, y, k, j);
    }
  }

  lemma {:induction false} FlattenListsRoots(t: Table, kids: map<Id, seq<Id>>, roots: seq<Id>, i: nat)
    requires GoodLists(t, kids) && Distinct(roots) && (forall x :: x in roots ==> Orphan(t, x)) && i <= |roots|
    ensures var forest := FlattenAll(Forest(t, kids, roots)[i..]);
            && Distinct(forest)
            && forall y :: y in forest <==> exists j :: i <= j < |roots| && OnChain(t, roots[j], y)
    decreases |roots| - i
  {
    if i < |roots| {
      var ns := Forest(t, kids, roots);
      assert roots[i] in roots;
      OrphanOffCycle(t, roots[i]);
      FlattenListsSubtree(t, kids, roots[i]);
      FlattenListsRoots(t, kids, roots, i + 1);
      assert ns[i..] == [ns[i]] + ns[i + 1..];
      var first, rest := Flatten(ns[i]), FlattenAll(ns[i + 1..]);
      forall y | y in rest ensures y !in first {
        var j :| i + 1 <= j < |roots| && OnChain(t, roots[j], y);
        assert roots[j] in roots;
        if OnChain(t, roots[i], y) {
          RootSubtreesDisjoint(t, roots[i], roots[j], y);
        }
      }
      AppendDistinct(first, rest);
    }
  }

  /** Without a cycle, climbing ends at a row without a live parent. */
  lemma {:induction false} TopOf(t: Table, y: Id) returns (r: Id)
    requires Live(t, y) && forall x :: Live(t, x) ==> OffCycle(t, x)
    ensures Orphan(t, r) && OnChain(t, r, y)
    decreases |LiveIds(t)| - |Subtree(t, y)|
  {
    if Orphan(t, y) {
      r := y;
      assert Below(t, r, y, 0);
    } else {
      var p := t[y].parent.value;
      ChildIsSmaller(t, p, y);
      SubtreeWithin(t, p);
      r := TopOf(t, p);
      var k: nat :| Below(t, r, p, k);
      assert Below(t, r, y, k + 1);
    }
  }

  lemma SubtreeWithin(t: Table, x: Id)
    ensures |Subtree(t, x)| <= |LiveIds(t)|
  {
    if Subtree(t, x) != LiveIds(t) {
      assert Subtree(t, x) < LiveIds(t);
      SmallerSet(Subtree(t, x), LiveIds(t));
    }
  }

  /** The nested view lists every row at most once, on any table. It lists every live branch exactly when
      no live branch is its own ancestor; missing parents and several HQs do no harm. */
  lemma FlatteningIsPermutation(t: Table, roots: seq<Id>, kids: map<Id, seq<Id>>)
    requires PlacedOnce(t, roots, kids)
    ensures Distinct(FlattenAll(Forest(t, kids, roots)))
    ensures Lists(FlattenAll(Forest(t, kids, roots)), LiveIds(t)) <==> forall x :: Live(t, x) ==> OffCycle(t, x)
  {
    var flat := FlattenAll(Forest(t, kids, roots));
    FlattenListsRoots(t, kids, roots, 0);
    assert Forest(t, kids, roots)[0..] == Forest(t, kids, roots);
    forall y ensures y in flat <==> exists r :: Orphan(t, r) && OnChain(t, r, y) {
      if y in flat {
        var j :| 0 <= j < |roots| && OnChain(t, roots[j], y);
        assert roots[j] in roots;
      }
      if r :| Orphan(t, r) && OnChain(t, r, y) {
        var j :| 0 <= j < |roots| && roots[j] == r;
      }
    }
    ListedAreLive(t, flat);
    if forall x :: Live(t, x) ==> OffCycle(t, x) {
      forall y | y in LiveIds(t) ensures y in flat {
        var r := TopOf(t, y);
      }
    }
    forall y | y in flat ensures OffCycle(t, y) {
      var r :| Orphan(t, r) && OnChain(t, r, y);
      var k: nat :| Below(t, r, y, k);
      OrphanOffCycle(t, r);
      BelowOffCycle(t, r, y, k);
    }
    if Lists(flat, LiveIds(t)) {
      forall x | Live(t, x) ensures OffCycle(t, x) {
        assert x in LiveIds(t);
      }
    }
  }

  lemma ListedAreLive(t: Table, flat: seq<Id>)
    requires forall y :: y in flat ==> exists r :: Orphan(t, r) && OnChain(t, r, y)
    ensures forall y :: y in flat ==> y in LiveIds(t)
  {
    forall y | y in flat ensures y in LiveIds(t) {
      var r :| Orphan(t, r) && OnChain(t, r, y);
      var k: nat :| Below(t, r, y, k);
    }
  }
}
