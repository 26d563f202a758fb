/** The deployment gate over cashbox drift (check-cashbox-invariant.ts), in hundredths. */
module DriftGate {
  import opened Prelude
  import opened CashboxLedger
  import opened CashboxMigration
  import opened CashboxConservation
  import BranchRules

  const EPSILON := 1

  /** I1 and I2 of one cashbox. */
  datatype Drift = Drift(diff: int, split: int)

  type Readings = map<BoxId, Drift>

  function Abs(n: int): nat {
    if n < 0 then -n else n
  }

  predicate Drifted(d: Drift) {
    Abs(d.diff) > EPSILON || Abs(d.split) > EPSILON
  }

  /** The audit query: one row for each live cashbox. */
  function Measure(l: Ledger): Readings {
    map id | id in l.boxes && LiveBox(l, id) :: Drift(Diff(l, id), SplitDiff(l.boxes[id]))
  }

  /** The baseline file keeps the drifted rows only. */
  function Snapshot(now: Readings): Readings {
    map id | id in now && Drifted(now[id]) :: now[id]
  }

  predicate Grew(prev: Readings, id: BoxId, d: Drift) {
    id !in prev || Abs(d.diff) > Abs(prev[id].diff) + EPSILON || Abs(d.split) > Abs(prev[id].split) + EPSILON
  }

  predicate Regressed(prev: Readings, id: BoxId, d: Drift) {
    Drifted(d) && Grew(prev, id, d)
  }

  ghost predicate Passes(prev: Readings, now: Readings) {
    forall id :: id in now ==> !Regressed(prev, id, now[id])
  }

  /** The compare loop: walks the rows, keeps the drifted ones that are new or have grown, and passes
      when there are none. */
  method Compare(prev: Readings, now: Readings, rows: seq<BoxId>) returns (regressed: seq<BoxId>, pass: bool)
    requires Lists(rows, now.Keys)
    ensures Distinct(regressed)
    ensures forall id :: id in regressed <==> id in now && Regressed(prev, id, now[id])
    ensures pass <==> Passes(prev, now)
  {
    regressed := [];
    for i := 0 to |rows|
      invariant Distinct(regressed)
      invariant forall id :: id in regressed <==> id in rows[..i] && id in now && Regressed(prev, id, now[id])
    {
      var id := rows[i];
      assert rows[..i + 1] == rows[..i] + [id];
      assert id in rows && id !in rows[..i];
      if Drifted(now[id]) {
        if Grew(prev, id, now[id]) {
          regressed := regressed + [id];
        }
      }
    }
    assert rows[..|rows|] == rows;
    pass := |regressed| == 0;
    assert !pass ==> regressed[0] in regressed;
  }

  // ---- What a pass means -------------------------------------------------------------------------

  /** A cashbox that is not there counts as drift-free. */
  function DriftOf(now: Readings, id: BoxId): Drift {
    if id in now then now[id] else Drift(0, 0)
  }

  /** A state always passes against its own snapshot. */
  lemma PassesAgainstItself(now: Readings)
    ensures Passes(Snapshot(now), now)
  {
  }

  /** A pass bounds both drifts of every cashbox by their earlier value plus the tolerance. */
  lemma PassBoundsGrowth(before: Readings, now: Readings, id: BoxId)
    requires Passes(Snapshot(before), now)
    ensures Abs(DriftOf(now, id).diff) <= Abs(DriftOf(before, id).diff) + 1
    ensures Abs(DriftOf(now, id).split) <= Abs(DriftOf(before, id).split) + 1
  {
  }

  /** The gate in numbers: a cashbox fails it exactly when one of its drifts is more than one hundredth away
      from zero and the cashbox was not in the snapshot, or one of them is more than a hundredth larger
      than it was there. */
  lemma FailsInNumbers(before: Readings, d: Drift, id: BoxId)
    ensures var far := d.diff < -1 || d.diff > 1 || d.split < -1 || d.split > 1;
            var known := id in before && (before[id].diff < -1 || before[id].diff > 1 || before[id].split < -1 || before[id].split > 1);
            Regressed(Snapshot(before), id, d) <==>
              far && (!known || Size(d.diff) - Size(before[id].diff) > 1 || Size(d.split) - Size(before[id].split) > 1)
  {
  }

  function Size(n: int): int {
    if n >= 0 then n else 0 - n
  }

  ghost predicate PassingChain(states: seq<Readings>) {
    forall i :: 0 <= i < |states| - 1 ==> Passes(Snapshot(states[i]), states[i + 1])
  }

  /** Over a chain of passing deployments drift grows by at most one tolerance a step. */
  lemma {:induction false} ChainBoundsGrowth(states: seq<Readings>, id: BoxId)
    requires |states| > 0 && PassingChain(states)
    ensures var n := |states| - 1;
            && Abs(DriftOf(states[n], id).diff) <= Abs(DriftOf(states[0], id).diff) + n
            && Abs(DriftOf(states[n], id).split) <= Abs(DriftOf(states[0], id).split) + n
    decreases |states|
  {
    if |states| > 1 {
      var n := |states| - 1;
      var init := states[..n];
      forall i | 0 <= i < |init| - 1 ensures Passes(Snapshot(init[i]), init[i + 1]) {
        assert init[i] == states[i] && init[i + 1] == states[i + 1];
      }
      ChainBoundsGrowth(init, id);
      assert Passes(Snapshot(states[n - 1]), states[n - 1 + 1]);
      PassBoundsGrowth(states[n - 1], states[n], id);
    }
  }

  /** And the bound is reached: a drift may creep up one tolerance per deployment without ever failing. */
  lemma CreepPasses(states: seq<Readings>, start: nat)
    requires start > 1
    requires forall i :: 0 <= i < |states| ==> states[i] == map[0 := Drift(start + i, 0)]
    ensures PassingChain(states)
  {
    forall i | 0 <= i < |states| - 1 ensures Passes(Snapshot(states[i]), states[i + 1]) {
      assert 0 in states[i] && Drifted(states[i][0]);
      assert Snapshot(states[i])[0] == Drift(start + i, 0);
      var next := states[i + 1];
      assert forall id :: id in next ==> id == 0;
    }
  }

  // ---- The gate over the manager-cashbox migration -------------------------------------------------

  /** Snapshot, migrate, compare: the gate passes exactly when no converted cashbox had drifted. A drift
      that moves to a branch cashbox is new there, however old it is. */
  lemma MigrationGate(users: Users, before: Ledger, mid: map<BoxId, Cashbox>, conv: Conversion, after: Ledger)
    requires Run(users, before, mid, conv, after)
    ensures Passes(Snapshot(Measure(before)), Measure(after))
       <==> forall l :: l in conv.into && l in before.boxes ==> !Drifted(Drift(Diff(before, l), SplitDiff(before.boxes[l])))
  {
    var prev, now := Snapshot(Measure(before)), Measure(after);
    RunFacts(users, before, mid, conv, after);
    forall id | id in now ensures Regressed(prev, id, now[id]) <==> id in conv.from && Drifted(now[id]) {
      GateRow(users, before, mid, conv, after, id);
    }
    forall t | t in conv.from
      ensures t in now && conv.from[t] in before.boxes
      ensures now[t] == Drift(Diff(before, conv.from[t]), SplitDiff(before.boxes[conv.from[t]]))
    {
      TargetDrift(users, before, mid, conv, after, t);
    }
    if Passes(prev, now) {
      forall l | l in conv.into && l in before.boxes
        ensures !Drifted(Drift(Diff(before, l), SplitDiff(before.boxes[l])))
      {
        assert conv.into[l] in now;
      }
    }
  }

  lemma GateRow(users: Users, before: Ledger, mid: map<BoxId, Cashbox>, conv: Conversion, after: Ledger, id: BoxId)
    requires Run(users, before, mid, conv, after) && LiveBox(after, id)
    ensures var d := Drift(Diff(after, id), SplitDiff(after.boxes[id]));
            Regressed(Snapshot(Measure(before)), id, d) <==> id in conv.from && Drifted(d)
  {
    hide Run, Diff, SplitDiff, Measure, Snapshot, Grew;
    DriftFollows(users, before, mid, conv, after, id);
    var d := Drift(Diff(after, id), SplitDiff(after.boxes[id]));
    if LiveBox(before, id) {
      var e := Drift(Diff(before, id), SplitDiff(before.boxes[id]));
      ReadingOf(before, id);
      OldRow(Measure(before), id, e, d);
    } else {
      NewRow(before, id, d);
      NotDrifted(d);
    }
  }

  lemma NotDrifted(d: Drift)
    ensures d == Drift(0, 0) ==> !Drifted(d)
  {
  }

  lemma NewRow(l: Ledger, id: BoxId, d: Drift)
    requires !LiveBox(l, id)
    ensures Regressed(Snapshot(Measure(l)), id, d) <==> Drifted(d)
  {
    assert id !in Snapshot(Measure(l));
  }

  lemma ReadingOf(l: Ledger, id: BoxId)
    requires LiveBox(l, id)
    ensures id in Measure(l) && Measure(l)[id] == Drift(Diff(l, id), SplitDiff(l.boxes[id]))
  {
  }

  lemma OldRow(readings: Readings, id: BoxId, e: Drift, d: Drift)
    requires id in readings && readings[id] == e
    ensures d == e ==> !Regressed(Snapshot(readings), id, d)
    ensures !Drifted(e) && Drifted(d) ==> Regressed(Snapshot(readings), id, d)
  {
  }

  // ---- A witness -------------------------------------------------------------------------------------

  /** One manager whose cashbox has drifted by 5.00: the gate passes before the migration, and after it
      the same drift, now on the branch cashbox, fails the gate. */
  lemma GateFailsOnOldDrift(users: Users, before: Ledger) returns (mid: map<BoxId, Cashbox>, conv: Conversion, after: Ledger)
    requires users == map[0 := BranchRules.Assignment(1, 7, BranchRules.MANAGER, false)]
    requires before == Ledger(map[10 := Cashbox(FOR_COURIER, 7, 500, 500, 0, false)], [])
    ensures Run(users, before, mid, conv, after)
    ensures Passes(Snapshot(Measure(before)), Measure(before)) && !Passes(Snapshot(Measure(before)), Measure(after))
  {
    mid := before.boxes[12 := EmptyBranchBox(1)];
    conv := Conversion(map[12 := 10], map[10 := 12]);
    after := Ledger(Retired(users, TookOver(mid, conv)), Moved(before.history, conv.into));
    OneManagerConverts(users, before, mid, conv);
    StatementsMigrate(users, before, mid, conv);
    PassesAgainstItself(Measure(before));
    assert Drifted(Drift(Diff(before, 10), SplitDiff(before.boxes[10])));
    MigrationGate(users, before, mid, conv, after);
  }

  lemma OneManagerConverts(users: Users, before: Ledger, mid: map<BoxId, Cashbox>, conv: Conversion)
    requires users == map[0 := BranchRules.Assignment(1, 7, BranchRules.MANAGER, false)]
    requires before == Ledger(map[10 := Cashbox(FOR_COURIER, 7, 500, 500, 0, false)], [])
    requires mid == before.boxes[12 := EmptyBranchBox(1)] && conv == Conversion(map[12 := 10], map[10 := 12])
    ensures Provisioned(users, before.boxes, mid)
    ensures IsConversion(users, mid, before.history, conv, ManagedBranches(users))
  {
    assert ManagerRow(users, 0);
    assert ManagedBranches(users) == {1};
    assert LiveOf(mid, 12, BRANCH) && HasBranchBox(mid, 1);
    OneJoin(users, mid);
    hide Joins, HasBranchBox, ManagerRow;
    assert OnlyJoin(users, mid, before.history, 0, 10, 12);
  }

  lemma OneJoin(users: Users, mid: map<BoxId, Cashbox>)
    requires users == map[0 := BranchRules.Assignment(1, 7, BranchRules.MANAGER, false)]
    requires mid == map[10 := Cashbox(FOR_COURIER, 7, 500, 500, 0, false), 12 := EmptyBranchBox(1)]
    ensures forall r, l, t :: Joins(users, mid, [], r, l, t) <==> r == 0 && l == 10 && t == 12
  {
  }
}
