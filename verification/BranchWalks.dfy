/** The two walks over the branch table: up the parent links, looking for a cycle, and down the
    child links, breadth first and without a set of visited rows. */
module BranchWalks {
  import opened Prelude
  import opened BranchTable

  // ---- Upward: may `branch` be hung under `parent`? -------------------------------------------

  datatype Fate = Running | MeetsBranch | MeetsDeadRow | ReachesTop

  datatype Verdict = Accepted | Cyclic | ParentMissing

  /** How the first `steps` rows of the walk up from `cur` end. */
  ghost function WalkUp(t: Table, branch: Id, cur: Id, steps: nat): Fate
    decreases steps
  {
    if steps == 0 then Running
    else if cur == branch then MeetsBranch
    else if !Live(t, cur) then MeetsDeadRow
    else match t[cur].parent
      case None => ReachesTop
      case Some(p) => WalkUp(t, branch, p, steps - 1)
  }

  ghost predicate EndsAs(t: Table, branch: Id, cur: Id, fate: Fate) {
    exists n: nat :: WalkUp(t, branch, cur, n) == fate
  }

  ghost function ParentVerdict(t: Table, branch: Id, parent: Id): Verdict {
    if EndsAs(t, branch, parent, ReachesTop) then Accepted
    else if EndsAs(t, branch, parent, MeetsDeadRow) then ParentMissing
    else Cyclic
  }

  /** A walk that has ended stays ended. */
  lemma {:induction false} WalkUpSettles(t: Table, branch: Id, cur: Id, m: nat, n: nat)
    requires m <= n && WalkUp(t, branch, cur, m) != Running
    ensures WalkUp(t, branch, cur, n) == WalkUp(t, branch, cur, m)
    decreases m
  {
    if cur != branch && Live(t, cur) && t[cur].parent.Some? {
      WalkUpSettles(t, branch, t[cur].parent.value, m - 1, n - 1);
    }
  }

  lemma OneFate(t: Table, branch: Id, cur: Id, f: Fate, g: Fate)
    requires f != Running && g != Running
    requires EndsAs(t, branch, cur, f) && EndsAs(t, branch, cur, g)
    ensures f == g
  {
    var m: nat :| WalkUp(t, branch, cur, m) == f;
    var n: nat :| WalkUp(t, branch, cur, n) == g;
    WalkUpSettles(t, branch, cur, m, m + n);
    WalkUpSettles(t, branch, cur, n, m + n);
  }

  /** A walk that returns to its start after `d` steps never ends. */
  lemma {:induction false} LoopNeverEnds(t: Table, branch: Id, cur: Id, d: nat, n: nat)
    requires d > 0
    requires forall m: nat {:trigger WalkUp(t, branch, cur, m)} ::
               m >= d ==> WalkUp(t, branch, cur, m) == WalkUp(t, branch, cur, m - d)
    ensures WalkUp(t, branch, cur, n) == Running
    decreases n
  {
    assert WalkUp(t, branch, cur, d) == WalkUp(t, branch, cur, 0);
    if n >= d {
      LoopNeverEnds(t, branch, cur, d, n - d);
    } else if WalkUp(t, branch, cur, n) != Running {
      WalkUpSettles(t, branch, cur, n, d);
    }
  }

  /** The chain from `parent` climbs through live rows to a parentless one. */
  ghost predicate ChainReachesTop(t: Table, parent: Id) {
    exists top: Id, n: nat :: Live(t, top) && t[top].parent.None? && Below(t, top, parent, n)
  }

  /** `branch` is `parent` itself or one of its ancestors. */
  ghost predicate OnChain(t: Table, branch: Id, parent: Id) {
    exists n: nat :: Below(t, branch, parent, n)
  }

  /** What acceptance means: the whole chain above `parent` is live and finite, and `branch` is not on it. */
  lemma AcceptedMeaning(t: Table, branch: Id, parent: Id)
    ensures ParentVerdict(t, branch, parent) == Accepted
       <==> ChainReachesTop(t, parent) && !OnChain(t, branch, parent)
  {
    if ParentVerdict(t, branch, parent) == Accepted {
      var n: nat :| WalkUp(t, branch, parent, n) == ReachesTop;
      var top, k := WalkToTop(t, branch, parent, n);
      if OnChain(t, branch, parent) {
        var j: nat :| Below(t, branch, parent, j);
        BelowMeetsBranch(t, branch, parent, j);
        OneFate(t, branch, parent, MeetsBranch, ReachesTop);
      }
    }
    if ChainReachesTop(t, parent) && !OnChain(t, branch, parent) {
      var top: Id, n: nat :| Live(t, top) && t[top].parent.None? && Below(t, top, parent, n);
      TopEndsWalk(t, branch, top, parent, n);
    }
  }

  lemma {:induction false} WalkToTop(t: Table, branch: Id, cur: Id, n: nat) returns (top: Id, k: nat)
    requires WalkUp(t, branch, cur, n) == ReachesTop
    ensures Live(t, top) && t[top].parent.None? && Below(t, top, cur, k)
    decreases n
  {
    if t[cur].parent.None? {
      top, k := cur, 0;
    } else {
      top, k := WalkToTop(t, branch, t[cur].parent.value, n - 1);
      k := k + 1;
    }
  }

  lemma {:induction false} BelowMeetsBranch(t: Table, branch: Id, cur: Id, n: nat)
    requires Below(t, branch, cur, n)
    ensures EndsAs(t, branch, cur, MeetsBranch)
    decreases n
  {
    if cur == branch {
      assert WalkUp(t, branch, cur, 1) == MeetsBranch;
    } else {
      var p := t[cur].parent.value;
      BelowMeetsBranch(t, branch, p, n - 1);
      var m: nat :| WalkUp(t, branch, p, m) == MeetsBranch;
      assert WalkUp(t, branch, cur, m + 1) == MeetsBranch;
    }
  }

  lemma {:induction false} TopEndsWalk(t: Table, branch: Id, top: Id, cur: Id, n: nat)
    requires Live(t, top) && t[top].parent.None? && Below(t, top, cur, n)
    requires !OnChain(t, branch, cur)
    ensures EndsAs(t, branch, cur, ReachesTop)
    decreases n
  {
    assert !Below(t, branch, cur, 0);
    if n == 0 {
      assert WalkUp(t, branch, cur, 1) == ReachesTop;
    } else {
      var p := t[cur].parent.value;
      if OnChain(t, branch, p) {
        var j: nat :| Below(t, branch, p, j);
        assert Below(t, branch, cur, j + 1);
      }
      TopEndsWalk(t, branch, top, p, n - 1);
      var m: nat :| WalkUp(t, branch, p, m) == ReachesTop;
      assert WalkUp(t, branch, cur, m + 1) == ReachesTop;
    }
  }

  /** A row that passed the cycle check, or lost its parent, is off every cycle once saved. */
  lemma AcceptedIsOffCycle(t: Table, id: Id, row: Branch)
    requires Live(t, id)
    requires row.parent.Some? ==> ParentVerdict(t, id, row.parent.value) == Accepted
    ensures OffCycle(t[id := row], id)
  {
    var u := t[id := row];
    if row.parent.Some? {
      var p := row.parent.value;
      AcceptedMeaning(t, id, p);
      forall k: nat | k > 0 ensures !Below(u, id, id, k) {
        if Below(u, id, p, k - 1) {
          ReachedInNewReachedInOld(t, u, id, p, k - 1);
        }
      }
    }
  }

  /** A walk up to `id` reads no row of `id`, so it exists before the row changes if it exists after. */
  lemma {:induction false} ReachedInNewReachedInOld(t: Table, u: Table, id: Id, x: Id, k: nat)
    requires forall y :: y != id ==> (Live(t, y) <==> Live(u, y)) && (Live(t, y) ==> t[y].parent == u[y].parent)
    requires Below(u, id, x, k)
    ensures OnChain(t, id, x)
    decreases k
  {
    assert Below(t, id, id, 0);
    if x != id {
      var p := u[x].parent.value;
      ReachedInNewReachedInOld(t, u, id, p, k - 1);
      var j: nat :| Below(t, id, p, j);
      assert Below(t, id, x, j + 1);
    }
  }

  // ---- Downward: the table after a subtree has been relevelled ----------------------------------

  /** Every live proper descendant of `root` gets `top` plus its depth; nothing else changes. */
  ghost function Relevelled(t: Table, root: Id, top: int): Table {
    map x | x in t :: if Under(t, root, x) then t[x].(level := top + DepthUnder(t, root, x)) else t[x]
  }

  /** The state of a breadth-first walk: `depth` holds every row met so far, `done` those already
      taken off the queue. */
  ghost predicate Frontier(t: Table, root: Id, depth: map<Id, nat>, done: set<Id>, queue: seq<Id>) {
    && Waiting(depth.Keys, done, queue)
    && Met(t, root, depth, done)
  }

  /** The queue lists, once each, the rows met but not done. */
  ghost predicate Waiting(met: set<Id>, done: set<Id>, queue: seq<Id>) {
    && Distinct(queue)
    && (forall q :: q in queue ==> q in met && q !in done)
    && done <= met
    && (forall x :: x in met ==> x in done || x in queue)
  }

  /** Rows met are the root and rows below it at the recorded depth, each other one after its parent
      was done; every child of a done row has been met. */
  ghost predicate Met(t: Table, root: Id, depth: map<Id, nat>, done: set<Id>) {
    && root in depth && depth[root] == 0
    && (forall x :: x in depth ==> Below(t, root, x, depth[x]))
    && (forall x :: x in depth && x != root ==> Live(t, x) && t[x].parent.Some? && t[x].parent.value in done)
    && (forall p, c :: p in done && ChildOf(t, c, p) ==> c in depth)
  }

  /** The rows met once the children of `parent` have been pushed. */
  ghost function WithKids(depth: map<Id, nat>, parent: Id, kids: seq<Id>): map<Id, nat>
    requires parent in depth
  {
    depth + map c | c in kids :: depth[parent] + 1
  }

  lemma FrontierStart(t: Table, root: Id)
    ensures Frontier(t, root, map[root := 0], {}, [root])
  {
    assert Below(t, root, root, 0);
  }

  /** Children of the row at the head of the queue have not been met: parents are unique, and the root
      cannot come up again because it is off every cycle. */
  lemma KidsAreNew(t: Table, root: Id, depth: map<Id, nat>, done: set<Id>, queue: seq<Id>, c: Id)
    requires Frontier(t, root, depth, done, queue) && OffCycle(t, root)
    requires |queue| > 0 && ChildOf(t, c, queue[0])
    ensures c !in depth && Below(t, root, c, depth[queue[0]] + 1)
  {
    var p := queue[0];
    assert p in queue;
    assert Below(t, root, p, depth[p]);
    assert Below(t, root, c, depth[p] + 1);
    assert Under(t, root, c);
  }

  /** A queue of new rows stays free of repetitions when its head leaves and new children join. */
  lemma QueueStep(queue: seq<Id>, kids: seq<Id>)
    requires Distinct(queue) && |queue| > 0 && Distinct(kids)
    requires forall c :: c in kids ==> c !in queue
    ensures Distinct(queue[1..] + kids)
    ensures forall x :: x in queue[1..] + kids <==> (x in queue && x != queue[0]) || x in kids
  {
    assert queue == [queue[0]] + queue[1..];
    forall i, j | 0 <= i < j < |queue[1..] + kids|
      ensures (queue[1..] + kids)[i] != (queue[1..] + kids)[j]
    {
      if i < |queue| - 1 <= j {
        assert queue[1..][i] in queue;
      }
    }
    forall x | x in queue[1..] ensures x in queue && x != queue[0] {
      var i :| 0 <= i < |queue| - 1 && queue[1..][i] == x;
      assert queue[i + 1] == x;
    }
  }

  lemma MetStep(t: Table, root: Id, depth: map<Id, nat>, done: set<Id>, p: Id, kids: seq<Id>)
    requires Met(t, root, depth, done) && p in depth
    requires Lists(kids, Children(t, p))
    requires forall c :: c in kids ==> c !in depth && Below(t, root, c, depth[p] + 1)
    ensures Met(t, root, WithKids(depth, p, kids), done + {p})
  {
    forall c | c in kids ensures ChildOf(t, c, p) {
      assert c in Children(t, p);
    }
    forall q, c | q in done + {p} && ChildOf(t, c, q) ensures c in depth || c in kids {
      if q == p {
        assert c in Children(t, p);
      }
    }
  }

  /** Taking one row off the queue and pushing its children keeps the walk's state. */
  lemma FrontierStep(t: Table, root: Id, depth: map<Id, nat>, done: set<Id>, queue: seq<Id>, kids: seq<Id>)
    requires Frontier(t, root, depth, done, queue) && OffCycle(t, root)
    requires |queue| > 0 && Lists(kids, Children(t, queue[0]))
    ensures Frontier(t, root, WithKids(depth, queue[0], kids), done + {queue[0]}, queue[1..] + kids)
    ensures forall c :: c in kids ==> c !in depth
  {
    var p := queue[0];
    assert p in queue;
    forall c | c in kids
      ensures c !in depth && Below(t, root, c, depth[p] + 1)
    {
      assert c in Children(t, p);
      KidsAreNew(t, root, depth, done, queue, c);
    }
    QueueStep(queue, kids);
    MetStep(t, root, depth, done, p, kids);
  }

  /** When the queue runs empty, exactly the root and its descendants have been met, at their depth. */
  lemma {:induction false} FrontierComplete(t: Table, root: Id, depth: map<Id, nat>, done: set<Id>, x: Id, k: nat)
    requires Frontier(t, root, depth, done, []) && OffCycle(t, root)
    requires Below(t, root, x, k)
    ensures x in depth && depth[x] == k
    decreases k
  {
    if k > 0 {
      FrontierComplete(t, root, depth, done, t[x].parent.value, k - 1);
      assert ChildOf(t, x, t[x].parent.value);
      BelowUnique(t, root, x, depth[x], k);
    }
  }

  lemma FrontierIsUnder(t: Table, root: Id, depth: map<Id, nat>, done: set<Id>)
    requires Frontier(t, root, depth, done, []) && OffCycle(t, root)
    ensures forall x :: Under(t, root, x) <==> x in depth && x != root
    ensures forall x :: Under(t, root, x) ==> DepthUnder(t, root, x) == depth[x]
  {
    forall x
      ensures Under(t, root, x) <==> x in depth && x != root
      ensures Under(t, root, x) ==> DepthUnder(t, root, x) == depth[x]
    {
      if Under(t, root, x) {
        FrontierComplete(t, root, depth, done, x, DepthUnder(t, root, x));
      }
      if x in depth && x != root {
        assert Below(t, root, x, depth[x]);
        assert depth[x] > 0;
      }
    }
  }

  /** All rows met so far are rows of the table, so the walk ends. */
  lemma FrontierBounded(t: Table, root: Id, depth: map<Id, nat>, done: set<Id>, queue: seq<Id>)
    requires Frontier(t, root, depth, done, queue)
    ensures depth.Keys <= t.Keys + {root}
  {
  }
}
