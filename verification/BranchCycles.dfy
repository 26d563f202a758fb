/** No branch is ever its own ancestor, whatever a restart does to the HQ. */
module BranchCycles {
  import opened Prelude
  import opened BranchTable
  import opened BranchWalks
  import opened BranchRules

  /** No live row is on a cycle, and the parent of a live row is a stored id, so a new id cannot close one. */
  ghost predicate CycleFree(t: Table) {
    && (forall x :: Live(t, x) ==> OffCycle(t, x))
    && (forall x :: Live(t, x) && t[x].parent.Some? ==> t[x].parent.value in t)
  }

  // ---- Fewer links -------------------------------------------------------------------------------

  /** Every parent link of a live row of `u` was one in `t`. */
  ghost predicate NoNewLinks(t: Table, u: Table) {
    && t.Keys <= u.Keys
    && forall x :: Live(u, x) && u[x].parent.Some? ==> Live(t, x) && t[x].parent == u[x].parent
  }

  lemma {:induction false} OldLinks(t: Table, u: Table, a: Id, x: Id, k: nat)
    requires NoNewLinks(t, u) && Below(u, a, x, k)
    ensures Below(t, a, x, k)
    decreases k
  {
    if k > 0 {
      OldLinks(t, u, a, u[x].parent.value, k - 1);
    }
  }

  lemma FewerLinksNoCycle(t: Table, u: Table)
    requires CycleFree(t) && NoNewLinks(t, u)
    ensures CycleFree(u)
  {
    forall x | Live(u, x) ensures OffCycle(u, x) {
      if Under(u, x, x) {
        OldLinks(t, u, x, x, DepthUnder(u, x, x));
        assert Under(t, x, x);
      }
    }
  }

  // ---- A new row ---------------------------------------------------------------------------------

  /** Nothing hangs below a row that no link names. */
  lemma {:induction false} NothingBelow(u: Table, newId: Id, x: Id, k: nat)
    requires forall y :: Live(u, y) && u[y].parent.Some? ==> u[y].parent.value != newId
    requires Below(u, newId, x, k)
    ensures k == 0
    decreases k
  {
    if k > 0 {
      NothingBelow(u, newId, u[x].parent.value, k - 1);
    }
  }

  lemma {:induction false} OldWalk(t: Table, newId: Id, row: Branch, a: Id, x: Id, k: nat)
    requires CycleFree(t) && newId !in t && x != newId && Below(t[newId := row], a, x, k)
    ensures Below(t, a, x, k)
    decreases k
  {
    if k > 0 {
      OldWalk(t, newId, row, a, t[x].parent.value, k - 1);
    }
  }

  lemma NewRowNoCycle(t: Table, newId: Id, row: Branch)
    requires CycleFree(t) && newId !in t && (row.parent.Some? ==> row.parent.value in t)
    ensures CycleFree(t[newId := row])
  {
    var u := t[newId := row];
    forall x | Live(u, x) ensures OffCycle(u, x) {
      if Under(u, x, x) {
        var k := DepthUnder(u, x, x);
        if x == newId {
          NothingBelow(u, newId, x, k);
        } else {
          OldWalk(t, newId, row, x, x, k);
          assert Under(t, x, x);
        }
      }
    }
  }

  // ---- A moved row -------------------------------------------------------------------------------

  lemma MovedRowNoCycle(t: Table, id: Id, row: Branch)
    requires CycleFree(t) && Live(t, id) && !row.deleted
    requires row.parent.Some? ==> ParentVerdict(t, id, row.parent.value) == Accepted && row.parent.value in t
    ensures CycleFree(t[id := row])
  {
    var u := t[id := row];
    AcceptedIsOffCycle(t, id, row);
    forall x | Live(u, x) ensures OffCycle(u, x) {
      MovedRowSparesOthers(t, id, row, x);
    }
  }

  lemma MovedRowSparesOthers(t: Table, id: Id, row: Branch, x: Id)
    requires CycleFree(t) && Live(t, id) && !row.deleted && OffCycle(t[id := row], id) && Live(t[id := row], x)
    ensures OffCycle(t[id := row], x)
  {
    var u := t[id := row];
    if OnChain(t, id, x) {
      var j: nat :| Below(t, id, x, j);
      ReachedInNewReachedInOld(u, t, id, x, j);
      var k: nat :| Below(u, id, x, k);
      BelowOffCycle(u, id, x, k);
    } else if Under(u, x, x) {
      var k := DepthUnder(u, x, x);
      BelowFrame(t, u, id, x, x, k);
      assert Under(t, x, x);
    }
  }

  // ---- Every operation ---------------------------------------------------------------------------

  lemma StartupNoCycle(t: Table, hq: HqConfig, newId: Id, hqRow: Option<Id>, now: int)
    requires CycleFree(t) && HqAnswer(t, hqRow) && newId !in t && StartupResult(t, hq, newId, hqRow, now).Ok?
    ensures CycleFree(StartupResult(t, hq, newId, hqRow, now).value)
  {
    FewerLinksNoCycle(t, StartupResult(t, hq, newId, hqRow, now).value);
  }

  lemma CreateNoCycle(t: Table, dto: CreateDto, hqRow: Option<Id>, now: int, newId: Id)
    requires CycleFree(t) && newId !in t && CreateResult(t, dto, hqRow, now).Ok?
    ensures CycleFree(t[newId := CreateResult(t, dto, hqRow, now).value])
  {
    NewRowNoCycle(t, newId, CreateResult(t, dto, hqRow, now).value);
  }

  lemma UpdateNoCycle(s: State, who: Requester, id: Id, dto: UpdateDto, hqRow: Option<Id>)
    requires CycleFree(s.branches) && UpdateResult(s, who, id, dto, hqRow).Ok?
    ensures CycleFree(UpdateResult(s, who, id, dto, hqRow).value)
  {
    var t := s.branches;
    var row := UpdatedRow(t, id, dto, Placement(t, id, dto, hqRow).value);
    MovedRowNoCycle(t, id, row);
    FewerLinksNoCycle(t[id := row], Relevelled(t[id := row], id, row.level));
  }

  lemma DeleteNoCycle(s: State, who: Requester, id: Id, reply: DeleteReply)
    requires CycleFree(s.branches) && DeleteResult(s, who, id, reply).Ok?
    ensures CycleFree(DeleteResult(s, who, id, reply).value)
  {
    FewerLinksNoCycle(s.branches, DeleteResult(s, who, id, reply).value);
  }
}
