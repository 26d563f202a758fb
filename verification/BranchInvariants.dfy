/** What every branch operation keeps: the tree, and the assignment table hanging on it. */
module BranchInvariants {
  import opened Prelude
  import opened BranchTable
  import opened BranchWalks
  import opened BranchRules

  // ---- Moving a subtree --------------------------------------------------------------------------

  /** `row` may replace the row of `id`: it is live, and hangs under a live branch outside the subtree
      of `id`, one level deeper, or is the parentless HQ. */
  ghost predicate FitsAt(t: Table, id: Id, row: Branch) {
    && Live(t, id) && !row.deleted
    && (row.kind.HQ? <==> t[id].kind.HQ?)
    && match row.parent
       case None => row.kind.HQ? && row.level == 0
       case Some(p) => !row.kind.HQ? && Live(t, p) && !OnChain(t, id, p) && row.level == t[p].level + 1
  }

  /** The moved row is off every cycle and its new parent is not below it. */
  lemma MovedRowOffCycle(t: Table, id: Id, row: Branch)
    requires FitsAt(t, id, row)
    ensures OffCycle(t[id := row], id)
    ensures row.parent.Some? ==> !OnChain(t[id := row], id, row.parent.value)
  {
    var u := t[id := row];
    if row.parent.Some? {
      var p := row.parent.value;
      forall k: nat ensures !Below(u, id, p, k) {
        assert !Below(t, id, p, k);
        BelowFrame(t, u, id, id, p, k);
      }
      forall k: nat | k > 0 ensures !Below(u, id, id, k) {
        assert !Below(u, id, p, k - 1);
      }
    }
  }

  /** Whatever the levels were before, relevelling from a root off every cycle puts each row below it one
      level under its parent. */
  lemma RelevelledLevels(t: Table, root: Id, top: int, x: Id)
    requires OffCycle(t, root) && Under(t, root, x)
    ensures t[x].parent.value == root || Under(t, root, t[x].parent.value)
    ensures var v := Relevelled(t, root, top);
            var p := t[x].parent.value;
            x in v && v[x] == t[x].(level := (if p == root then top else v[p].level) + 1)
  {
    var p, k := t[x].parent.value, DepthUnder(t, root, x);
    assert Below(t, root, p, k - 1);
    if p == root {
      assert Below(t, root, root, 0);
      BelowUnique(t, root, root, k - 1, 0);
    } else {
      assert Under(t, root, p);
      BelowUnique(t, root, p, DepthUnder(t, root, p), k - 1);
    }
  }

  /** In the relevelled table the level of a live child is one more than its parent's. */
  lemma RelevelledStep(t: Table, id: Id, row: Branch, x: Id)
    requires IsTree(t) && FitsAt(t, id, row)
    requires Live(t, x) && t[id := row][x].parent.Some?
    ensures var u := t[id := row];
            var v := Relevelled(u, id, row.level);
            var p := u[x].parent.value;
            Live(v, p) && v[x].level == v[p].level + 1 && v[x].level >= 0
  {
    var u := t[id := row];
    var p := u[x].parent.value;
    MovedRowOffCycle(t, id, row);
    if Under(u, id, x) {
      RelevelledLevels(u, id, row.level, x);
    } else {
      if Under(u, id, p) {
        assert Below(u, id, x, DepthUnder(u, id, p) + 1);
        assert false;
      }
      assert Below(u, id, id, 0);
      assert p == id ==> Below(u, id, x, 1);
    }
  }

  lemma MoveKeepsOneHq(t: Table, id: Id, row: Branch)
    requires IsTree(t) && FitsAt(t, id, row)
    ensures var v := Relevelled(t[id := row], id, row.level);
            && (forall x :: LiveHq(v, x) <==> LiveHq(t, x))
            && (forall x :: Live(v, x) ==> (v[x].parent.None? <==> v[x].kind.HQ?))
  {
    var u := t[id := row];
    var v := Relevelled(u, id, row.level);
    forall x ensures Live(v, x) <==> Live(t, x) {
    }
    forall x | Live(v, x)
      ensures v[x].kind.HQ? <==> t[x].kind.HQ?
      ensures v[x].parent.None? <==> v[x].kind.HQ?
    {
      assert Live(t, x);
    }
  }

  /** Moving a subtree and relevelling it from its new place keeps the tree, although in between every
      stored level in the subtree may be wrong. */
  lemma MoveKeepsTree(t: Table, id: Id, row: Branch)
    requires IsTree(t) && FitsAt(t, id, row)
    ensures IsTree(Relevelled(t[id := row], id, row.level))
  {
    var u := t[id := row];
    var v := Relevelled(u, id, row.level);
    MovedRowOffCycle(t, id, row);
    MoveKeepsOneHq(t, id, row);
    forall x: Id | Live(v, x)
      ensures v[x].level >= 0 && (v[x].parent.None? ==> v[x].level == 0)
      ensures v[x].parent.Some? ==> Live(v, v[x].parent.value) && v[x].level == v[v[x].parent.value].level + 1
    {
      assert Live(t, x) && v[x].parent == u[x].parent;
      if v[x].parent.Some? {
        RelevelledStep(t, id, row, x);
      } else {
        assert !Under(u, id, x);
      }
    }
  }

  /** Nothing outside the moved subtree changes, and inside it only the levels do. */
  lemma MoveFrame(t: Table, id: Id, row: Branch, x: Id)
    requires FitsAt(t, id, row) && x in t && x != id
    ensures var v := Relevelled(t[id := row], id, row.level);
            && x in v
            && v[x].(level := 0) == t[x].(level := 0)
            && (!Under(t, id, x) ==> v[x] == t[x])
    ensures Under(t[id := row], id, x) <==> Under(t, id, x)
  {
    var u := t[id := row];
    if Under(u, id, x) {
      SubtreeUnmoved(t, u, id, x, DepthUnder(u, id, x));
    }
    if Under(t, id, x) {
      SubtreeUnmoved(t, u, id, x, DepthUnder(t, id, x));
    }
  }

  /** A row's descendants do not depend on where the row itself hangs. */
  lemma {:induction false} SubtreeUnmoved(t: Table, u: Table, id: Id, x: Id, k: nat)
    requires forall y :: y != id ==> (Live(t, y) <==> Live(u, y)) && (Live(t, y) ==> t[y].parent == u[y].parent)
    requires x != id && k > 0
    requires Below(t, id, x, k) || Below(u, id, x, k)
    ensures Under(t, id, x) && Under(u, id, x)
    decreases k
  {
    var p := t[x].parent.value;
    if p == id {
      assert Below(t, id, id, 0) && Below(u, id, id, 0);
      assert Below(t, id, x, 1) && Below(u, id, x, 1);
    } else {
      assert k > 1;
      SubtreeUnmoved(t, u, id, p, k - 1);
      assert Below(t, id, x, DepthUnder(t, id, p) + 1);
      assert Below(u, id, x, DepthUnder(u, id, p) + 1);
    }
  }

  // ---- Update ------------------------------------------------------------------------------------

  /** Under the tree invariant an accepted update neither demotes the HQ nor promotes another branch. */
  lemma UpdateKeepsHq(s: State, who: Requester, id: Id, dto: UpdateDto, hqRow: Option<Id>)
    requires IsTree(s.branches) && HqAnswer(s.branches, hqRow)
    requires UpdateResult(s, who, id, dto, hqRow).Ok?
    ensures forall x :: LiveHq(UpdateResult(s, who, id, dto, hqRow).value, x) <==> LiveHq(s.branches, x)
    ensures FitsAt(s.branches, id, UpdatedRow(s.branches, id, dto, Placement(s.branches, id, dto, hqRow).value))
  {
    var t := s.branches;
    var h := TreeReachesHq(t, id);
    var parent := NextParent(t, id, dto);
    if !NextKind(t, id, dto).HQ? {
      AcceptedMeaning(t, id, parent.value);
      ParentOutsideIsNotUnderHq(t, id, parent.value);
    }
  }

  /** Every live chain ends in the HQ, so nothing outside the HQ's own subtree can be its parent. */
  lemma ParentOutsideIsNotUnderHq(t: Table, id: Id, parent: Id)
    requires IsTree(t) && Live(t, id) && Live(t, parent) && !OnChain(t, id, parent)
    ensures !t[id].kind.HQ?
  {
    var h := TreeReachesHq(t, parent);
    assert OnChain(t, h, parent);
    assert t[id].kind.HQ? ==> LiveHq(t, id);
  }

  lemma UpdateKeepsTree(s: State, who: Requester, id: Id, dto: UpdateDto, hqRow: Option<Id>)
    requires IsTree(s.branches) && HqAnswer(s.branches, hqRow)
    requires UpdateResult(s, who, id, dto, hqRow).Ok?
    ensures IsTree(UpdateResult(s, who, id, dto, hqRow).value)
  {
    UpdateKeepsHq(s, who, id, dto, hqRow);
    MoveKeepsTree(s.branches, id, UpdatedRow(s.branches, id, dto, Placement(s.branches, id, dto, hqRow).value));
  }

  // ---- Create, delete, startup -------------------------------------------------------------------

  lemma CreateKeepsTree(t: Table, dto: CreateDto, hqRow: Option<Id>, now: int, newId: Id)
    requires IsTree(t) && HqAnswer(t, hqRow) && newId !in t
    requires CreateResult(t, dto, hqRow, now).Ok?
    ensures IsTree(t[newId := CreateResult(t, dto, hqRow, now).value])
  {
    GraftKeepsTree(t, newId, CreateResult(t, dto, hqRow, now).value);
  }

  /** A new live row fits as the first HQ or under any live branch. */
  lemma GraftKeepsTree(t: Table, newId: Id, row: Branch)
    requires IsTree(t) && newId !in t && !row.deleted
    requires row.kind.HQ? <==> row.parent.None?
    requires row.kind.HQ? ==> row.level == 0 && forall x :: x in t ==> !LiveHq(t, x)
    requires row.parent.Some? ==> Live(t, row.parent.value) && row.level == t[row.parent.value].level + 1
    ensures IsTree(t[newId := row])
  {
    var u := t[newId := row];
    forall x | Live(u, x) && u[x].parent.Some? ensures Live(t, u[x].parent.value) {
    }
    forall x | LiveHq(u, x) && x != newId ensures LiveHq(t, x) {
    }
  }

  lemma DeleteKeepsTree(s: State, who: Requester, id: Id, reply: DeleteReply)
    requires IsTree(s.branches) && DeleteResult(s, who, id, reply).Ok?
    ensures IsTree(DeleteResult(s, who, id, reply).value)
  {
    var t := s.branches;
    var u := DeleteResult(s, who, id, reply).value;
    forall x | Live(u, x) && u[x].parent.Some? ensures Live(u, u[x].parent.value) {
      assert Live(t, x);
      assert x !in Children(t, id);
    }
    forall x | LiveHq(u, x) ensures LiveHq(t, x) {
    }
  }

  /** No live branch other than the HQ carries the configured HQ code. */
  ghost predicate HqCodeFree(t: Table, hq: HqConfig) {
    forall x :: CarriesCode(t, x, hq.code) ==> t[x].kind.HQ?
  }

  /** Startup repair keeps the tree exactly when the configured code is not on a lesser branch: it
      promotes that branch without looking for the HQ that is already there. */
  lemma StartupKeepsTree(t: Table, hq: HqConfig, newId: Id, hqRow: Option<Id>, now: int)
    requires IsTree(t) && CodesUnique(t) && HqAnswer(t, hqRow) && newId !in t
    requires StartupResult(t, hq, newId, hqRow, now).Ok?
    ensures IsTree(StartupResult(t, hq, newId, hqRow, now).value) <==> HqCodeFree(t, hq)
  {
    hide IsTree;
    var u := StartupResult(t, hq, newId, hqRow, now).value;
    if exists x :: CarriesCode(t, x, hq.code) {
      var x :| CarriesCode(t, x, hq.code);
      TakeoverKeepsTree(t, x, u);
    } else if hqRow.Some? {
      HqAtTop(t, hqRow.value);
      SameLinksKeepTree(t, u);
    } else {
      NoHqMeansEmpty(t);
      GraftKeepsTree(t, newId, u[newId]);
    }
  }

  /** Turning a live branch into the HQ keeps the tree exactly when it was the HQ already. */
  lemma TakeoverKeepsTree(t: Table, x: Id, u: Table)
    requires IsTree(t) && Live(t, x)
    requires u == t[x := t[x].(kind := HQ, level := 0, parent := None)]
    ensures IsTree(u) <==> t[x].kind.HQ?
  {
    if t[x].kind.HQ? {
      assert u == t;
    } else {
      var h := TreeReachesHq(t, x);
      assert LiveHq(u, x) && LiveHq(u, h);
    }
  }

  lemma HqAtTop(t: Table, h: Id)
    requires IsTree(t) && LiveHq(t, h)
    ensures t[h].parent.None? && t[h].level == 0
  {
  }

  lemma NoHqMeansEmpty(t: Table)
    requires IsTree(t) && HqAnswer(t, None)
    ensures forall x :: !Live(t, x)
  {
    forall x | Live(t, x) ensures exists h :: h in t && LiveHq(t, h) {
      var h := TreeReachesHq(t, x);
    }
  }

  lemma SameLinksKeepTree(t: Table, u: Table)
    requires IsTree(t) && t.Keys == u.Keys
    requires forall x :: x in t ==> t[x].deleted == u[x].deleted && t[x].parent == u[x].parent
                                    && t[x].kind == u[x].kind && t[x].level == u[x].level
    ensures IsTree(u)
  {
    forall x | Live(u, x) ensures Live(t, x) && (LiveHq(u, x) <==> LiveHq(t, x)) {
    }
  }

  /** Under the tree invariant, startup goes through unless the code it must store is still held by a
      deleted row; and when it goes through there is a live HQ. */
  lemma StartupGoesThrough(t: Table, hq: HqConfig, newId: Id, hqRow: Option<Id>, now: int)
    requires IsTree(t) && CodesUnique(t) && HqAnswer(t, hqRow) && newId !in t
    ensures var r := StartupResult(t, hq, newId, hqRow, now);
            && (r.Err? <==>
                  && (exists x :: x in t && t[x].deleted && t[x].code == Some(hq.code))
                  && (forall x :: LiveHq(t, x) ==> t[x].code.None?))
            && (r.Ok? ==> exists x :: LiveHq(r.value, x))
  {
    var r := StartupResult(t, hq, newId, hqRow, now);
    if exists x :: CarriesCode(t, x, hq.code) {
      var x :| CarriesCode(t, x, hq.code) && r == Ok(t[x := t[x].(kind := HQ, level := 0, parent := None)]);
      assert LiveHq(r.value, x);
    } else if hqRow.Some? {
      assert r.Ok? ==> LiveHq(r.value, hqRow.value);
      assert forall x :: LiveHq(t, x) ==> x == hqRow.value;
      CodeHeldByDeleted(t, hq);
    } else {
      NoHqMeansEmpty(t);
      assert r.Ok? ==> LiveHq(r.value, newId);
      CodeHeldByDeleted(t, hq);
    }
  }

  lemma CodeHeldByDeleted(t: Table, hq: HqConfig)
    requires forall x :: !CarriesCode(t, x, hq.code)
    ensures forall x :: x in t && t[x].code == Some(hq.code) ==> t[x].deleted
  {
    forall x | x in t && t[x].code == Some(hq.code) ensures t[x].deleted {
      assert !CarriesCode(t, x, hq.code);
    }
  }

  // ---- Assignments -------------------------------------------------------------------------------

  ghost predicate OneRowPerPair(users: Assignments) {
    forall q, r | q in users && r in users :: users[q].branch == users[r].branch && users[q].user == users[r].user ==> q == r
  }

  /** One active row per user, one row of any kind per branch-user pair, active rows on live branches. */
  ghost predicate AssignmentsSound(s: State) {
    && OneActiveRowPerUser(s.users)
    && OneRowPerPair(s.users)
    && (forall r :: Active(s.users, r) ==> Live(s.branches, s.users[r].branch))
  }

  lemma AssignKeepsSound(s: State, who: Requester, branch: Id, user: UserId, asked: Option<Role>, reply: UserReply,
                         pairRow: Option<RowId>, newId: RowId)
    requires AssignmentsSound(s) && PairAnswer(s.users, branch, user, pairRow) && newId !in s.users
    requires AssignResult(s, who, branch, user, asked, reply, pairRow, newId).Ok?
    ensures var after := AssignResult(s, who, branch, user, asked, reply, pairRow, newId).value;
            && AssignmentsSound(State(s.branches, after))
            && (exists r :: ActivePair(after, r, branch, user))
            && (pairRow.Some? ==> after.Keys == s.users.Keys)
  {
    var after := AssignResult(s, who, branch, user, asked, reply, pairRow, newId).value;
    var r := if pairRow.None? then newId else pairRow.value;
    assert ActivePair(after, r, branch, user);
    forall q | Active(after, q) && q != r ensures Active(s.users, q) && after[q].user != user {
      assert Active(s.users, q);
      assert after[q].user == user ==> ActiveFor(s.users, q, user);
    }
  }

  lemma RemoveKeepsSound(s: State, who: Requester, branch: Id, user: UserId)
    requires AssignmentsSound(s) && RemoveResult(s, who, branch, user).Ok?
    ensures var after := RemoveResult(s, who, branch, user).value;
            && AssignmentsSound(State(s.branches, after))
            && after.Keys == s.users.Keys
            && (forall r :: r in after && ActiveFor(after, r, user) ==> false)
  {
    var after := RemoveResult(s, who, branch, user).value;
    var r :| ActivePair(s.users, r, branch, user) && after == s.users[r := s.users[r].(deleted := true)];
    forall q | Active(after, q) ensures Active(s.users, q) && after[q].user != user {
      assert Active(s.users, q) && Active(s.users, r);
    }
  }

  /** A branch is deleted only when no active row points at it. */
  lemma DeleteKeepsSound(s: State, who: Requester, id: Id, reply: DeleteReply)
    requires AssignmentsSound(s) && DeleteResult(s, who, id, reply).Ok?
    ensures AssignmentsSound(State(DeleteResult(s, who, id, reply).value, s.users))
  {
    forall r | Active(s.users, r) ensures s.users[r].branch != id {
    }
  }

  // ---- Where couriers sit --------------------------------------------------------------------------

  ghost predicate CourierAt(users: Assignments, branch: Id) {
    exists r :: Active(users, r) && users[r].role.COURIER? && users[r].branch == branch
  }

  /** No courier is assigned to a pickup point. */
  ghost predicate CouriersPlaced(s: State) {
    forall b :: Live(s.branches, b) && CourierAt(s.users, b) ==> !s.branches[b].kind.PICKUP?
  }

  /** Assigning keeps the rule. */
  lemma AssignKeepsCouriersPlaced(s: State, who: Requester, branch: Id, user: UserId, asked: Option<Role>, reply: UserReply,
                                  pairRow: Option<RowId>, newId: RowId)
    requires CouriersPlaced(s) && PairAnswer(s.users, branch, user, pairRow) && newId !in s.users
    requires AssignResult(s, who, branch, user, asked, reply, pairRow, newId).Ok?
    ensures CouriersPlaced(State(s.branches, AssignResult(s, who, branch, user, asked, reply, pairRow, newId).value))
  {
    var after := AssignResult(s, who, branch, user, asked, reply, pairRow, newId).value;
    forall b | Live(s.branches, b) && CourierAt(after, b) ensures !s.branches[b].kind.PICKUP? {
      var r :| Active(after, r) && after[r].role.COURIER? && after[r].branch == b;
      if r != (if pairRow.None? then newId else pairRow.value) {
        assert Active(s.users, r);
      }
    }
  }

  /** Retyping a branch does not look at its users: the rule survives an accepted update exactly when the
      update does not make a pickup point of a branch that has a courier. */
  lemma UpdateAndCouriers(s: State, who: Requester, id: Id, dto: UpdateDto, hqRow: Option<Id>)
    requires CouriersPlaced(s) && UpdateResult(s, who, id, dto, hqRow).Ok?
    ensures CouriersPlaced(State(UpdateResult(s, who, id, dto, hqRow).value, s.users))
       <==> !(NextKind(s.branches, id, dto).PICKUP? && CourierAt(s.users, id))
  {
    var t, v := s.branches, UpdateResult(s, who, id, dto, hqRow).value;
    assert v[id].kind == NextKind(t, id, dto) && Live(v, id);
    forall x | Live(v, x) && x != id ensures Live(t, x) && v[x].kind == t[x].kind {
    }
  }
}
