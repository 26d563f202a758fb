/** The branch table and the parent relation stored in it (branch.entity.ts).

    A row's `parent` is the only link; `level` is a stored copy of the distance to the HQ.
    Everything said about reachability is said through `Below`, which walks live rows upward. */
module BranchTable {
  import opened Prelude

  type Id = nat

  datatype BranchType = HQ | PICKUP | REGIONAL | HYBRID

  datatype Status = ACTIVE | INACTIVE

  /** `name` is the trimmed lower-cased name; `details` stands for the descriptive columns. */
  datatype Branch = Branch(
    name: string,
    details: string,
    parent: Option<Id>,
    kind: BranchType,
    level: int,
    code: Option<string>,
    status: Status,
    createdAt: int,
    deleted: bool)

  type Table = map<Id, Branch>

  predicate Live(t: Table, x: Id) {
    x in t && !t[x].deleted
  }

  predicate ChildOf(t: Table, c: Id, p: Id) {
    Live(t, c) && t[c].parent == Some(p)
  }

  function Children(t: Table, p: Id): set<Id> {
    set c | c in t && ChildOf(t, c, p)
  }

  predicate LiveHq(t: Table, x: Id) {
    Live(t, x) && t[x].kind.HQ?
  }

  /** `x` is reached from `root` by exactly `k` parent-to-live-child steps. */
  ghost predicate Below(t: Table, root: Id, x: Id, k: nat)
    decreases k
  {
    if k == 0 then x == root
    else Live(t, x) && t[x].parent.Some? && Below(t, root, t[x].parent.value, k - 1)
  }

  /** `x` is a proper descendant of `root`. */
  ghost predicate Under(t: Table, root: Id, x: Id) {
    exists k :: k > 0 && Below(t, root, x, k)
  }

  ghost function DepthUnder(t: Table, root: Id, x: Id): (k: nat)
    requires Under(t, root, x)
    ensures k > 0 && Below(t, root, x, k)
  {
    var k :| k > 0 && Below(t, root, x, k);
    k
  }

  /** No walk up the live parent links from `root` comes back to `root`. */
  ghost predicate OffCycle(t: Table, root: Id) {
    !Under(t, root, root)
  }

  /** Two steps of `Below` compose. */
  lemma {:induction false} BelowTrans(t: Table, a: Id, b: Id, c: Id, j: nat, k: nat)
    requires Below(t, a, b, j) && Below(t, b, c, k)
    ensures Below(t, a, c, j + k)
    decreases k
  {
    if k > 0 {
      BelowTrans(t, a, b, t[c].parent.value, j, k - 1);
    }
  }

  /** Two ancestors of one row lie on one line: the nearer one is below the farther one. */
  lemma {:induction false} BelowOnOneLine(t: Table, a: Id, b: Id, x: Id, j: nat, k: nat)
    requires Below(t, a, x, j) && Below(t, b, x, k) && j >= k
    ensures Below(t, a, b, j - k)
    decreases k
  {
    if k > 0 {
      BelowOnOneLine(t, a, b, t[x].parent.value, j - 1, k - 1);
    }
  }

  /** Off a cycle, a descendant has one depth only. */
  lemma BelowUnique(t: Table, root: Id, x: Id, j: nat, k: nat)
    requires OffCycle(t, root)
    requires Below(t, root, x, j) && Below(t, root, x, k)
    ensures j == k
  {
    if j > k {
      BelowOnOneLine(t, root, root, x, j, k);
    } else if k > j {
      BelowOnOneLine(t, root, root, x, k, j);
    }
  }

  lemma ChildOffCycle(t: Table, x: Id, c: Id)
    requires OffCycle(t, x) && ChildOf(t, c, x)
    ensures OffCycle(t, c)
  {
    if Under(t, c, c) {
      var k := DepthUnder(t, c, c);
      assert Below(t, c, x, k - 1);
      assert Below(t, x, x, 0) && Below(t, x, c, 1);
      BelowTrans(t, x, c, x, 1, k - 1);
    }
  }

  /** What hangs off a row that is on no cycle is on no cycle. */
  lemma {:induction false} BelowOffCycle(t: Table, r: Id, y: Id, k: nat)
    requires OffCycle(t, r) && Below(t, r, y, k)
    ensures OffCycle(t, y)
    decreases k
  {
    if k > 0 {
      var p := t[y].parent.value;
      BelowOffCycle(t, r, p, k - 1);
      ChildOffCycle(t, p, y);
    }
  }

  /** The invariant the branch operations maintain, in the locally checkable form: one HQ at the top,
      live parents, and each stored level one more than the parent's. */
  ghost predicate IsTree(t: Table) {
    && (forall x, y :: LiveHq(t, x) && LiveHq(t, y) ==> x == y)
    && (forall x :: Live(t, x) ==> (t[x].parent.None? <==> t[x].kind.HQ?))
    && (forall x :: Live(t, x) ==> t[x].level >= 0 && (t[x].parent.None? ==> t[x].level == 0))
    && (forall x :: Live(t, x) && t[x].parent.Some? ==>
          && Live(t, t[x].parent.value)
          && t[x].level == t[t[x].parent.value].level + 1)
  }

  /** The same invariant as an operator would state it: at most one HQ, exactly the HQ is parentless,
      parents are live, no branch is its own ancestor, and a level is the distance to the HQ. */
  ghost predicate IsHierarchy(t: Table) {
    && (forall x, y :: LiveHq(t, x) && LiveHq(t, y) ==> x == y)
    && (forall x :: Live(t, x) ==> (t[x].parent.None? <==> t[x].kind.HQ?))
    && (forall x :: Live(t, x) && t[x].parent.Some? ==> Live(t, t[x].parent.value))
    && (forall x :: Live(t, x) ==> OffCycle(t, x))
    && (forall x :: Live(t, x) ==> t[x].level >= 0 && exists h :: LiveHq(t, h) && Below(t, h, x, t[x].level))
  }

  /** Under the tree invariant a walk of `k` steps climbs `k` levels. */
  lemma {:induction false} ClimbLowersLevel(t: Table, a: Id, x: Id, k: nat)
    requires IsTree(t) && Live(t, x) && Below(t, a, x, k)
    ensures Live(t, a) && t[x].level == t[a].level + k
    decreases k
  {
    if k > 0 {
      ClimbLowersLevel(t, a, t[x].parent.value, k - 1);
    }
  }

  lemma TreeOffCycle(t: Table, x: Id)
    requires IsTree(t) && Live(t, x)
    ensures OffCycle(t, x)
  {
    if Under(t, x, x) {
      ClimbLowersLevel(t, x, x, DepthUnder(t, x, x));
    }
  }

  /** Every live branch hangs off a live HQ, at a distance equal to its stored level. */
  lemma {:induction false} TreeReachesHq(t: Table, x: Id) returns (h: Id)
    requires IsTree(t) && Live(t, x)
    ensures LiveHq(t, h) && Below(t, h, x, t[x].level)
    decreases t[x].level
  {
    if t[x].parent.None? {
      h := x;
    } else {
      h := TreeReachesHq(t, t[x].parent.value);
    }
  }

  /** The local invariant says exactly what the global one does. */
  lemma TreeIsHierarchy(t: Table)
    ensures IsTree(t) <==> IsHierarchy(t)
  {
    if IsTree(t) {
      forall x | Live(t, x)
        ensures OffCycle(t, x) && exists h :: LiveHq(t, h) && Below(t, h, x, t[x].level)
      {
        TreeOffCycle(t, x);
        var h := TreeReachesHq(t, x);
      }
    }
    if IsHierarchy(t) {
      forall x | Live(t, x)
        ensures t[x].parent.None? ==> t[x].level == 0
        ensures t[x].parent.Some? ==> t[x].level == t[t[x].parent.value].level + 1
      {
        HierarchyLevelStep(t, x);
      }
    }
  }

  lemma HierarchyLevelStep(t: Table, x: Id)
    requires IsHierarchy(t) && Live(t, x)
    ensures t[x].parent.None? ==> t[x].level == 0
    ensures t[x].parent.Some? ==> t[x].level == t[t[x].parent.value].level + 1
  {
    var h :| LiveHq(t, h) && Below(t, h, x, t[x].level);
    if t[x].parent.Some? {
      var p := t[x].parent.value;
      var g :| LiveHq(t, g) && Below(t, g, p, t[p].level);
      assert Below(t, g, x, t[p].level + 1);
      BelowUnique(t, h, x, t[x].level, t[p].level + 1);
    }
  }

  /** Rewriting one live row leaves every walk that does not pass through it as it was. */
  lemma {:induction false} BelowFrame(t: Table, u: Table, id: Id, root: Id, x: Id, k: nat)
    requires forall y :: y != id ==> (Live(t, y) <==> Live(u, y)) && (Live(t, y) ==> t[y].parent == u[y].parent)
    requires forall j: nat :: !Below(t, id, x, j)
    ensures Below(t, root, x, k) <==> Below(u, root, x, k)
    decreases k
  {
    assert !Below(t, id, x, 0);
    if k > 0 && Live(t, x) && t[x].parent.Some? {
      var p := t[x].parent.value;
      forall j: nat ensures !Below(t, id, p, j) {
        assert !Below(t, id, x, j + 1);
      }
      BelowFrame(t, u, id, root, p, k - 1);
    }
  }
}
