/** Who may read and write which branch, and which branch a manager's cashbox request resolves to. */
module BranchAccess {
  import opened Prelude
  import opened BranchTable
  import opened BranchWalks
  import opened BranchRules
  import opened BranchQueries

  // ---- Access scope ------------------------------------------------------------------------------

  datatype Scope = Scope(readable: set<Id>, writable: set<Id>, managed: set<Id>)

  function OwnBranches(users: Assignments, user: UserId): set<Id> {
    set r | r in users && ActiveFor(users, r, user) :: users[r].branch
  }

  /** The branches with an active row of the user, and those where the row is a manager's. */
  lemma OwnAndManaged(users: Assignments, user: UserId, b: Id)
    ensures b in OwnBranches(users, user) <==> exists r :: r in users && !users[r].deleted && users[r].user == user && users[r].branch == b
    ensures b in WritableBranches(users, user) <==>
              exists r :: r in users && users[r] == Assignment(b, user, MANAGER, false)
  {
    if r :| r in users && !users[r].deleted && users[r].user == user && users[r].branch == b {
      assert ActiveFor(users, r, user);
    }
    if r :| r in users && users[r] == Assignment(b, user, MANAGER, false) {
      assert ActiveFor(users, r, user);
    }
    if b in WritableBranches(users, user) {
      var r :| r in users && ActiveFor(users, r, user) && users[r].role.MANAGER? && users[r].branch == b;
      assert users[r] == Assignment(b, user, MANAGER, false);
    }
  }

  /** A privileged caller gets an empty scope, which its callers never consult. */
  method ResolveAccessScope(s: State, who: Requester) returns (r: Result<Scope, Error>)
    requires who.id.Some? ==>
               forall b :: b in WritableBranches(s.users, who.id.value) && Live(s.branches, b) ==> OffCycle(s.branches, b)
    ensures who.privileged ==> r == Ok(Scope({}, {}, {}))
    ensures !who.privileged ==> (r.Err? <==> who.id.None?) && (r.Err? ==> r.error == Forbidden)
    ensures !who.privileged && r.Ok? ==>
              && r.value.writable == WritableBranches(s.users, who.id.value)
              && r.value.readable == OwnBranches(s.users, who.id.value) + r.value.managed
              && forall x :: x in r.value.managed <==> UnderManaged(s, who.id.value, x)
  {
    if who.privileged {
      return Ok(Scope({}, {}, {}));
    }
    if who.id.None? {
      return Err(Forbidden);
    }
    var own := OwnBranches(s.users, who.id.value);
    var managerRoots := WritableBranches(s.users, who.id.value);
    var roots := InSomeOrder(managerRoots);
    var tree := CollectDescendantIds(s.branches, roots);
    forall x ensures InSubtrees(s.branches, roots, x) <==> UnderManaged(s, who.id.value, x) {
      ManagedByRoots(s, who.id.value, roots, x);
    }
    return Ok(Scope(own + tree, managerRoots, tree));
  }

  /** Some live branch the user manages is `x` or an ancestor of `x`. */
  ghost predicate UnderManaged(s: State, user: UserId, x: Id) {
    exists b :: b in WritableBranches(s.users, user) && Live(s.branches, b) && OnChain(s.branches, b, x)
  }

  lemma ManagedByRoots(s: State, user: UserId, roots: seq<Id>, x: Id)
    requires Lists(roots, WritableBranches(s.users, user))
    ensures InSubtrees(s.branches, roots, x) <==> UnderManaged(s, user, x)
  {
    if InSubtrees(s.branches, roots, x) {
      var k: nat :| InRound(s.branches, roots, x, k);
      var b :| b in roots && Live(s.branches, b) && Below(s.branches, b, x, k);
      assert OnChain(s.branches, b, x);
    }
    if UnderManaged(s, user, x) {
      var b :| b in WritableBranches(s.users, user) && Live(s.branches, b) && OnChain(s.branches, b, x);
      var k: nat :| Below(s.branches, b, x, k);
      assert InRound(s.branches, roots, x, k);
    }
  }

  /** Writing is never wider than reading. */
  lemma WritableIsReadable(users: Assignments, user: UserId)
    ensures WritableBranches(users, user) <= OwnBranches(users, user)
  {
    forall b | b in WritableBranches(users, user) ensures b in OwnBranches(users, user) {
      var r :| r in users && ActiveFor(users, r, user) && users[r].role.MANAGER? && users[r].branch == b;
    }
  }

  // ---- The walk up -------------------------------------------------------------------------------

  /** `a` is a live branch at or above `start`. */
  ghost predicate AtOrAbove(t: Table, start: Id, a: Id) {
    Live(t, a) && OnChain(t, a, start)
  }

  /** `s` holds, with a branch, its parent if that is live. */
  ghost predicate ClosedUpward(t: Table, s: set<Id>) {
    forall x :: x in s && x in t && t[x].parent.Some? && Live(t, t[x].parent.value) ==> t[x].parent.value in s
  }

  lemma {:induction false} ClosedHoldsAncestors(t: Table, s: set<Id>, x: Id, a: Id, k: nat)
    requires ClosedUpward(t, s) && x in s && Live(t, a) && Below(t, a, x, k)
    ensures a in s
    decreases k
  {
    if k > 0 {
      ClosedHoldsAncestors(t, s, t[x].parent.value, a, k - 1);
    }
  }

  lemma OneStepUp(t: Table, start: Id, a: Id)
    requires AtOrAbove(t, start, a) && t[a].parent.Some?
    ensures OnChain(t, t[a].parent.value, start)
  {
    var k: nat :| Below(t, a, start, k);
    var p := t[a].parent.value;
    assert Below(t, p, p, 0);
    assert Below(t, p, a, 1);
    BelowTrans(t, p, a, start, 1, k);
  }

  /** The branches at or above `start`, gathered with a visited set. The walk ends on any table. */
  method AccessibleBranches(t: Table, start: Id) returns (accessible: set<Id>)
    requires Live(t, start)
    ensures forall a :: a in accessible <==> AtOrAbove(t, start, a)
  {
    accessible := {start};
    var visited := {start};
    var ancestor := t[start].parent;
    ghost var last := start;
    assert Below(t, start, start, 0);
    while ancestor.Some? && ancestor.value !in visited
      invariant accessible == visited && start in visited && last in visited
      invariant forall a :: a in accessible ==> AtOrAbove(t, start, a)
      invariant ancestor == t[last].parent
      invariant forall x :: x in visited && x != last ==> t[x].parent.Some? && t[x].parent.value in visited
      decreases t.Keys - visited
    {
      var id := ancestor.value;
      OneStepUp(t, start, last);
      visited := visited + {id};
      if !Live(t, id) {
        break;
      }
      accessible := accessible + {id};
      ancestor, last := t[id].parent, id;
    }
    assert ClosedUpward(t, accessible);
    forall a | AtOrAbove(t, start, a) ensures a in accessible {
      var k: nat :| Below(t, a, start, k);
      ClosedHoldsAncestors(t, accessible, start, a, k);
    }
  }

  /** The walk up and the recursive query are converses: `b` is gathered from `x` exactly when `x` is in
      the subtree query of `b`. */
  lemma UpAndDownAgree(t: Table, x: Id, b: Id, above: set<Id>, below: set<Id>)
    requires forall a :: a in above <==> AtOrAbove(t, x, a)
    requires forall y :: y in below <==> InSubtrees(t, [b], y)
    ensures b in above <==> x in below
  {
    if b in above {
      var k: nat :| Below(t, b, x, k);
      assert InRound(t, [b], x, k);
    }
    if x in below {
      var k: nat :| InRound(t, [b], x, k);
      assert Below(t, b, x, k);
    }
  }

  // ---- The cashbox resolver ----------------------------------------------------------------------

  /** `isManager`: the token carries the manager role; `tokenBranch`: the branch in the token, if any. */
  datatype Manager = Manager(id: UserId, isManager: bool, tokenBranch: Option<Id>)

  /** The newest active assignment's branch; the unique index leaves at most one candidate. */
  method AssignedBranch(users: Assignments, user: UserId) returns (branch: Option<Id>)
    ensures branch.None? <==> OwnBranches(users, user) == {}
    ensures branch.Some? ==> branch.value in OwnBranches(users, user)
  {
    var own := OwnBranches(users, user);
    if own == {} {
      return None;
    }
    var b :| b in own;
    return Some(b);
  }

  /** Which branch's cashbox `requested` names: a user id or a branch id, told apart only by trial. */
  method ResolveCashboxBranch(s: State, who: Manager, requested: nat) returns (r: Result<Option<Id>, Error>, ghost home: Option<Id>)
    ensures home.Some? ==> home == who.tokenBranch || (who.tokenBranch.None? && home.value in OwnBranches(s.users, who.id))
    ensures home.None? ==> who.tokenBranch.None? && OwnBranches(s.users, who.id) == {}
    ensures r.Err? <==> !who.isManager || (home.Some? && !Live(s.branches, home.value))
    ensures r.Err? ==> r.error == if who.isManager then NotFound else Forbidden
    ensures r.Ok? && home.None? ==> r.value.None?
    ensures r.Ok? && r.value.Some? ==> home.Some? && AtOrAbove(s.branches, home.value, r.value.value)
    ensures r.Ok? && home.Some? && requested == who.id ==> r.value == home
    ensures (r.Ok? && home.Some? && requested != who.id && AtOrAbove(s.branches, home.value, requested)) ==>
              r.value == Some(requested)
    ensures r.Ok? && home.Some? && requested != who.id && !AtOrAbove(s.branches, home.value, requested) ==>
              match r.value
              case Some(b) => b in OwnBranches(s.users, requested)
              case None => OwnBranches(s.users, requested) == {}
                           || exists b :: b in OwnBranches(s.users, requested) && !AtOrAbove(s.branches, home.value, b)
  {
    home := None;
    var assignedTo := AssignedBranch(s.users, who.id);
    var managerBranch := if who.tokenBranch.Some? then who.tokenBranch else assignedTo;
    home := managerBranch;
    if !who.isManager {
      return Err(Forbidden), home;
    }
    if managerBranch.None? {
      return Ok(None), home;
    }
    var own := managerBranch.value;
    if !Live(s.branches, own) {
      return Err(NotFound), home;
    }
    assert AtOrAbove(s.branches, own, own) by {
      assert Below(s.branches, own, own, 0);
    }
    if requested == who.id || requested == own {
      return Ok(Some(own)), home;
    }
    var accessible := AccessibleBranches(s.branches, own);
    if requested in accessible {
      return Ok(Some(requested)), home;
    }
    var theirs := AssignedBranch(s.users, requested);
    if theirs.Some? && theirs.value in accessible {
      return Ok(theirs), home;
    }
    return Ok(None), home;
  }
}
