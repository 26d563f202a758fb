/** What the manager-cashbox migration keeps, and what it does not. */
module CashboxConservation {
  import opened Prelude
  import opened CashboxLedger
  import opened CashboxMigration
  import BranchRules

  /** The foreign key on cashbox_id. */
  ghost predicate HistoryKnown(l: Ledger) {
    forall i :: 0 <= i < |l.history| ==> l.history[i].event.box in l.boxes
  }

  /** A migration run: the five statements took `before` to `after`. */
  ghost predicate Run(users: Users, before: Ledger, mid: map<BoxId, Cashbox>, conv: Conversion, after: Ledger) {
    Migrated(users, before, mid, conv, after) && HistoryKnown(before)
  }

  /** Targets are empty and are not themselves taken over. */
  ghost predicate CleanTargets(history: seq<Entry>, conv: Conversion) {
    && Inverse(conv)
    && (forall t :: t in conv.from ==> NoLiveHistory(history, t) && t !in conv.into)
  }

  lemma RunFacts(users: Users, before: Ledger, mid: map<BoxId, Cashbox>, conv: Conversion, after: Ledger)
    requires Run(users, before, mid, conv, after)
    ensures CleanTargets(before.history, conv)
    ensures after.history == Moved(before.history, conv.into)
    ensures forall l :: l in conv.into ==> l in before.boxes && mid[l] == before.boxes[l]
    ensures forall l :: l in conv.into ==> Legacy(users, mid, l) && Untouched(mid, before.history, conv.into[l])
    ensures forall t :: t in conv.from ==> Untouched(mid, before.history, t) && Legacy(users, mid, conv.from[t])
  {
    ConversionFacts(users, mid, before.history, conv);
    forall l | l in conv.into ensures l in before.boxes {
      assert LiveOf(mid, l, FOR_COURIER);
    }
  }

  // ---- What becomes of each cashbox ----------------------------------------------------------------

  /** A live courier cashbox of an active manager. */
  ghost predicate ManagersBox(users: Users, boxes: map<BoxId, Cashbox>, id: BoxId) {
    && id in boxes && !boxes[id].deleted && boxes[id].kind == FOR_COURIER
    && exists r :: r in users && !users[r].deleted && users[r].role == BranchRules.MANAGER && users[r].user == boxes[id].user
  }

  /** A live, empty branch cashbox without live history. */
  ghost predicate EmptyTarget(l: Ledger, boxes: map<BoxId, Cashbox>, t: BoxId) {
    && t in boxes && boxes[t] == Cashbox(BRANCH, boxes[t].user, 0, 0, 0, false)
    && forall i :: 0 <= i < |l.history| && l.history[i].event.box == t ==> l.history[i].deleted
  }

  /** Active manager `r` of a branch, a live courier cashbox `l` of that manager, and an empty cashbox `t` of
      that branch. */
  ghost predicate Claim(users: Users, before: Ledger, boxes: map<BoxId, Cashbox>, r: RowId, l: BoxId, t: BoxId) {
    && r in users && !users[r].deleted && users[r].role == BranchRules.MANAGER
    && l in boxes && !boxes[l].deleted && boxes[l].kind == FOR_COURIER && boxes[l].user == users[r].user
    && EmptyTarget(before, boxes, t) && boxes[t].user == users[r].branch
  }

  lemma ClaimIsJoin(users: Users, before: Ledger, boxes: map<BoxId, Cashbox>, r: RowId, l: BoxId, t: BoxId)
    ensures Claim(users, before, boxes, r, l, t) <==> Joins(users, boxes, before.history, r, l, t)
  {
  }

  /** No other claim is made on the branch. */
  ghost predicate OnlyClaim(users: Users, before: Ledger, boxes: map<BoxId, Cashbox>, r: RowId, l: BoxId, t: BoxId) {
    && Claim(users, before, boxes, r, l, t)
    && forall r', l', t' :: Claim(users, before, boxes, r', l', t') && boxes[t'].user == boxes[t].user ==>
         r' == r && l' == l && t' == t
  }

  lemma OnlyClaimIsOnlyJoin(users: Users, before: Ledger, boxes: map<BoxId, Cashbox>, r: RowId, l: BoxId, t: BoxId)
    ensures OnlyClaim(users, before, boxes, r, l, t) <==> OnlyJoin(users, boxes, before.history, r, l, t)
  {
    hide Claim, Joins;
    forall r', l', t' ensures Claim(users, before, boxes, r', l', t') <==> Joins(users, boxes, before.history, r', l', t') {
      ClaimIsJoin(users, before, boxes, r', l', t');
    }
    JoinHasTarget(users, boxes, before.history);
  }

  lemma JoinHasTarget(users: Users, boxes: map<BoxId, Cashbox>, history: seq<Entry>)
    ensures forall r, l, t :: Joins(users, boxes, history, r, l, t) ==>
              t in boxes && r in users && boxes[t].user in ManagedBranches(users)
  {
  }

  /** A cashbox is converted into a branch cashbox exactly when that claim on the branch is the only one. */
  lemma ConvertedWhen(users: Users, before: Ledger, mid: map<BoxId, Cashbox>, conv: Conversion, after: Ledger, l: BoxId, t: BoxId)
    requires Run(users, before, mid, conv, after)
    ensures t in conv.from && conv.from[t] == l <==> exists r :: OnlyClaim(users, before, mid, r, l, t)
  {
    JoinHasTarget(users, mid, before.history);
    hide Claim, OnlyClaim, Joins, Provisioned;
    if t in conv.from && conv.from[t] == l {
      var r :| OnlyJoin(users, mid, before.history, r, l, t);
      OnlyClaimIsOnlyJoin(users, before, mid, r, l, t);
    }
    if r :| OnlyClaim(users, before, mid, r, l, t) {
      OnlyClaimIsOnlyJoin(users, before, mid, r, l, t);
    }
  }

  /** Every cashbox afterwards: a manager's is retired with its money still written on it; a target holds
      the money of the one it takes over; any other is as it was; and a new one is an empty branch cashbox
      of a managed branch that had none. */
  lemma EachBoxAfterwards(users: Users, before: Ledger, mid: map<BoxId, Cashbox>, conv: Conversion, after: Ledger, id: BoxId)
    requires Run(users, before, mid, conv, after) && id in after.boxes
    ensures ManagersBox(users, before.boxes, id) ==> after.boxes[id] == before.boxes[id].(deleted := true)
    ensures id in conv.from ==>
              && ManagersBox(users, before.boxes, conv.from[id])
              && (id in before.boxes ==> EmptyTarget(before, before.boxes, id))
              && var source := before.boxes[conv.from[id]];
                 after.boxes[id] == Cashbox(BRANCH, after.boxes[id].user, source.balance, source.cash, source.card, false)
    ensures id in before.boxes && !ManagersBox(users, before.boxes, id) && id !in conv.from ==> after.boxes[id] == before.boxes[id]
    ensures id !in before.boxes ==>
              && (exists r :: r in users && !users[r].deleted && users[r].role == BranchRules.MANAGER && users[r].branch == after.boxes[id].user)
              && (forall b :: b in before.boxes && !before.boxes[b].deleted && before.boxes[b].kind == BRANCH ==>
                    before.boxes[b].user != after.boxes[id].user)
              && (id !in conv.from ==> after.boxes[id] == Cashbox(BRANCH, after.boxes[id].user, 0, 0, 0, false))
  {
    RunFacts(users, before, mid, conv, after);
    ManagersAreLegacy(users, before.boxes, id);
    assert id in before.boxes ==> mid[id] == before.boxes[id] && (Legacy(users, mid, id) <==> Legacy(users, before.boxes, id));
    if id in conv.from {
      AfterTarget(users, before, mid, conv, after, id);
      ManagersAreLegacy(users, before.boxes, conv.from[id]);
      assert mid[conv.from[id]] == before.boxes[conv.from[id]];
    }
    if id !in before.boxes {
      assert mid[id].user in ManagedBranches(users) && !HasBranchBox(before.boxes, mid[id].user);
      forall b | b in before.boxes && !before.boxes[b].deleted && before.boxes[b].kind == BRANCH
        ensures before.boxes[b].user != mid[id].user
      {
        assert LiveOf(before.boxes, b, BRANCH);
      }
    }
  }

  lemma ManagersAreLegacy(users: Users, boxes: map<BoxId, Cashbox>, id: BoxId)
    ensures ManagersBox(users, boxes, id) <==> Legacy(users, boxes, id)
  {
    if Legacy(users, boxes, id) {
      var r :| r in users && ManagerRow(users, r) && users[r].user == boxes[id].user;
    }
    if ManagersBox(users, boxes, id) {
      var r :| r in users && !users[r].deleted && users[r].role == BranchRules.MANAGER && users[r].user == boxes[id].user;
      assert ManagerRow(users, r);
    }
  }

  /** Every history row afterwards: it keeps everything but its cashbox, which is the one that took its own
      over, if one did. */
  lemma EachRowAfterwards(users: Users, before: Ledger, mid: map<BoxId, Cashbox>, conv: Conversion, after: Ledger, i: nat)
    requires Run(users, before, mid, conv, after) && i < |before.history|
    ensures |after.history| == |before.history|
    ensures var e, f := before.history[i], after.history[i];
            && f.deleted == e.deleted && f.event.(box := e.event.box) == e.event
            && (forall t :: t in conv.from && conv.from[t] == e.event.box ==> f.event.box == t)
            && ((forall t :: t in conv.from ==> conv.from[t] != e.event.box) ==> f.event.box == e.event.box)
  {
    RunFacts(users, before, mid, conv, after);
    var e := before.history[i];
    if e.event.box in conv.into {
      assert conv.from[conv.into[e.event.box]] == e.event.box;
    }
  }

  // ---- History sums ------------------------------------------------------------------------------

  lemma {:induction false} MovedSum(history: seq<Entry>, conv: Conversion, id: BoxId)
    requires CleanTargets(history, conv)
    ensures SignedSum(Moved(history, conv.into), id)
         == if id in conv.from then SignedSum(history, conv.from[id])
            else if id in conv.into then 0
            else SignedSum(history, id)
  {
    if history != [] {
      var n := |history| - 1;
      var init := history[..n];
      assert forall t, i :: NoLiveHistory(history, t) && 0 <= i < n ==> init[i].deleted || init[i].event.box != t by {
        assert forall i :: 0 <= i < n ==> init[i] == history[i];
      }
      MovedSum(init, conv, id);
      assert Moved(history, conv.into)[..n] == Moved(init, conv.into);
      MovedLast(history, conv, id);
    }
  }

  /** The share of one row in the sums before and after. */
  function Share(e: Entry, id: BoxId): int {
    if e.deleted || e.event.box != id then 0 else Signed(e.event)
  }

  lemma MovedLast(history: seq<Entry>, conv: Conversion, id: BoxId)
    requires CleanTargets(history, conv) && |history| > 0
    ensures Share(MovedEntry(history[|history| - 1], conv.into), id)
         == if id in conv.from then Share(history[|history| - 1], conv.from[id])
            else if id in conv.into then 0
            else Share(history[|history| - 1], id)
  {
  }

  lemma {:induction false} NoRowsNoSum(history: seq<Entry>, id: BoxId)
    requires forall i :: 0 <= i < |history| ==> history[i].deleted || history[i].event.box != id
    ensures SignedSum(history, id) == 0
  {
    if history != [] {
      NoRowsNoSum(history[..|history| - 1], id);
    }
  }

  // ---- I1 and I2 ---------------------------------------------------------------------------------

  /** Where the drifts of a live cashbox come from: a target has the drifts of the cashbox it took over,
      an older cashbox its own, a new one none. */
  lemma DriftFollows(users: Users, before: Ledger, mid: map<BoxId, Cashbox>, conv: Conversion, after: Ledger, id: BoxId)
    requires Run(users, before, mid, conv, after) && LiveBox(after, id)
    ensures id in conv.from ==>
              && LiveBox(before, conv.from[id])
              && Diff(after, id) == Diff(before, conv.from[id])
              && SplitDiff(after.boxes[id]) == SplitDiff(before.boxes[conv.from[id]])
              && (id in before.boxes ==> Diff(before, id) == 0 && SplitDiff(before.boxes[id]) == 0)
    ensures id !in conv.from && id in before.boxes ==>
              LiveBox(before, id) && after.boxes[id] == before.boxes[id] && Diff(after, id) == Diff(before, id)
    ensures id !in conv.from && id !in before.boxes ==> Diff(after, id) == 0 && SplitDiff(after.boxes[id]) == 0
  {
    if id in conv.from {
      TargetDrift(users, before, mid, conv, after, id);
    } else {
      RunFacts(users, before, mid, conv, after);
      MovedSum(before.history, conv, id);
      if id !in before.boxes {
        NoRowsNoSum(before.history, id);
      } else {
        assert !Legacy(users, mid, id);
      }
    }
  }

  /** What a target looks like afterwards. */
  lemma AfterTarget(users: Users, before: Ledger, mid: map<BoxId, Cashbox>, conv: Conversion, after: Ledger, t: BoxId)
    requires Run(users, before, mid, conv, after) && t in conv.from
    ensures LiveBox(after, t) && LiveBox(before, conv.from[t]) && t in mid
    ensures after.boxes[t] == TakeOver(mid[t], before.boxes[conv.from[t]])
    ensures t in before.boxes ==> before.boxes[t] == mid[t]
  {
    RunFacts(users, before, mid, conv, after);
    var l := conv.from[t];
    assert l in conv.into && LiveOf(mid, l, FOR_COURIER) && LiveOf(mid, t, BRANCH);
    assert after.boxes[t] == FinalBox(users, mid, conv, t);
  }

  lemma TargetDrift(users: Users, before: Ledger, mid: map<BoxId, Cashbox>, conv: Conversion, after: Ledger, t: BoxId)
    requires Run(users, before, mid, conv, after) && t in conv.from
    ensures LiveBox(after, t) && LiveBox(before, conv.from[t])
    ensures Diff(after, t) == Diff(before, conv.from[t])
    ensures SplitDiff(after.boxes[t]) == SplitDiff(before.boxes[conv.from[t]])
    ensures t in before.boxes ==> Diff(before, t) == 0 && SplitDiff(before.boxes[t]) == 0
  {
    RunFacts(users, before, mid, conv, after);
    AfterTarget(users, before, mid, conv, after, t);
    hide Run, Migrated;
    MovedSum(before.history, conv, t);
    NoRowsNoSum(before.history, t);
  }

  /** The migration keeps every live balance equal to its signed history, and every split exact. */
  lemma MigrationReconciles(users: Users, before: Ledger, mid: map<BoxId, Cashbox>, conv: Conversion, after: Ledger)
    requires Run(users, before, mid, conv, after) && Reconciles(before)
    ensures Reconciles(after)
  {
    forall id | LiveBox(after, id) ensures Diff(after, id) == 0 && SplitDiff(after.boxes[id]) == 0 {
      DriftFollows(users, before, mid, conv, after, id);
    }
  }

  // ---- The unique key ------------------------------------------------------------------------------

  lemma MigrationKeepsIndex(users: Users, before: Ledger, mid: map<BoxId, Cashbox>, conv: Conversion, after: Ledger)
    requires Run(users, before, mid, conv, after) && IndexHolds(Five, before.history)
    ensures IndexHolds(Five, after.history)
  {
    hide Run, CleanTargets, Untouched, Legacy;
    RunFacts(users, before, mid, conv, after);
    var h, g := before.history, after.history;
    forall i, j | 0 <= i < j < |g|
      ensures g[i].deleted || g[j].deleted || g[i].event.sourceId.None? || !SameKey(Five, g[i].event, g[j].event)
    {
      if !h[i].deleted && !h[j].deleted && g[i].event.box == g[j].event.box {
        SameBoxAfter(h, conv, i, j);
      }
      assert h[i].deleted || h[j].deleted || h[i].event.sourceId.None? || !SameKey(Five, h[i].event, h[j].event);
    }
  }

  /** Two live rows share a cashbox afterwards only if they did before. */
  lemma SameBoxAfter(history: seq<Entry>, conv: Conversion, i: nat, j: nat)
    requires CleanTargets(history, conv)
    requires i < |history| && j < |history| && !history[i].deleted && !history[j].deleted
    requires MovedEntry(history[i], conv.into).event.box == MovedEntry(history[j], conv.into).event.box
    ensures history[i].event.box == history[j].event.box
  {
  }

  // ---- What moved ----------------------------------------------------------------------------------

  /** Each converted cashbox is retired, its balances sit in exactly one live cashbox, and every one of
      its history rows, deleted ones included, is there too. */
  lemma ConvertedMovesWhole(users: Users, before: Ledger, mid: map<BoxId, Cashbox>, conv: Conversion, after: Ledger, l: BoxId)
    requires Run(users, before, mid, conv, after) && l in conv.into
    ensures var t := conv.into[l];
            && l in after.boxes && after.boxes[l].deleted && LiveBox(after, t) && after.boxes[t].kind.BRANCH?
            && after.boxes[t].balance == before.boxes[l].balance
            && after.boxes[t].cash == before.boxes[l].cash && after.boxes[t].card == before.boxes[l].card
            && (forall u :: u in conv.from && conv.from[u] == l ==> u == t)
            && (forall i :: 0 <= i < |before.history| && before.history[i].event.box == l ==> after.history[i].event.box == t)
            && (forall i :: 0 <= i < |after.history| ==> after.history[i].event.box != l)
  {
    RunFacts(users, before, mid, conv, after);
    var t := conv.into[l];
    assert t in conv.from && conv.from[t] == l;
    forall i | 0 <= i < |after.history| ensures after.history[i].event.box != l {
      assert after.history[i] == MovedEntry(before.history[i], conv.into);
    }
  }

  // ---- The total -----------------------------------------------------------------------------------

  function LiveIds(boxes: map<BoxId, Cashbox>): set<BoxId> {
    set id | id in boxes && !boxes[id].deleted
  }

  function Balances(boxes: map<BoxId, Cashbox>): BoxId -> int {
    id => if id in boxes then boxes[id].balance else 0
  }

  ghost function LiveTotal(boxes: map<BoxId, Cashbox>): int {
    Sum(LiveIds(boxes), Balances(boxes))
  }

  /** The manager cashboxes retired without a successor. */
  ghost function Dropped(users: Users, mid: map<BoxId, Cashbox>, conv: Conversion): set<BoxId> {
    set id | id in mid && Legacy(users, mid, id) && id !in conv.into
  }

  /** What a target gains: the balance of the cashbox it takes over. */
  function Gain(conv: Conversion, boxes: map<BoxId, Cashbox>): BoxId -> int {
    t => if t in conv.from then Balances(boxes)(conv.from[t]) else 0
  }

  lemma {:induction false} SumPlus(s: set<BoxId>, f: BoxId -> int, g: BoxId -> int, h: BoxId -> int)
    requires forall k :: k in s ==> h(k) == f(k) + g(k)
    ensures Sum(s, h) == Sum(s, f) + Sum(s, g)
    decreases |s|
  {
    if k :| k in s {
      SumTakeOut(s, f, k);
      SumTakeOut(s, g, k);
      SumTakeOut(s, h, k);
      SumPlus(s - {k}, f, g, h);
    }
  }

  /** Targets and the cashboxes they take over pair up. */
  lemma {:induction false} GainsAreBalances(conv: Conversion, boxes: map<BoxId, Cashbox>, ts: set<BoxId>, ls: set<BoxId>)
    requires Inverse(conv) && ts <= conv.from.Keys
    requires forall l :: l in ls <==> l in conv.into && conv.into[l] in ts
    ensures Sum(ts, Gain(conv, boxes)) == Sum(ls, Balances(boxes))
    decreases |ts|
  {
    if t :| t in ts {
      var l := conv.from[t];
      SumTakeOut(ts, Gain(conv, boxes), t);
      SumTakeOut(ls, Balances(boxes), l);
      GainsAreBalances(conv, boxes, ts - {t}, ls - {l});
    } else {
      assert ls == {};
    }
  }

  lemma {:induction false} ZeroSum(s: set<BoxId>, f: BoxId -> int)
    requires forall k :: k in s ==> f(k) == 0
    ensures Sum(s, f) == 0
    decreases |s|
  {
    if k :| k in s {
      SumTakeOut(s, f, k);
      ZeroSum(s - {k}, f);
    }
  }

  /** The live total falls by exactly the balances of the manager cashboxes that were not converted. */
  lemma TotalFallsByDropped(users: Users, before: Ledger, mid: map<BoxId, Cashbox>, conv: Conversion, after: Ledger)
    requires Run(users, before, mid, conv, after)
    ensures LiveTotal(after.boxes) == LiveTotal(before.boxes) - Sum(Dropped(users, mid, conv), Balances(before.boxes))
  {
    RunFacts(users, before, mid, conv, after);
    var live, live' := LiveIds(before.boxes), LiveIds(after.boxes);
    var bal, gain := Balances(before.boxes), Gain(conv, before.boxes);
    AfterIsBeforePlusGain(users, before, mid, conv, after);
    SumPlus(live', bal, gain, Balances(after.boxes));
    GainOfLive(users, before, mid, conv, after);
    KeptAndRetired(users, before, mid, conv, after);
  }

  lemma AfterIsBeforePlusGain(users: Users, before: Ledger, mid: map<BoxId, Cashbox>, conv: Conversion, after: Ledger)
    requires Run(users, before, mid, conv, after)
    ensures forall id :: id in LiveIds(after.boxes) ==>
              Balances(after.boxes)(id) == Balances(before.boxes)(id) + Gain(conv, before.boxes)(id)
  {
    RunFacts(users, before, mid, conv, after);
    forall id | id in LiveIds(after.boxes)
      ensures Balances(after.boxes)(id) == Balances(before.boxes)(id) + Gain(conv, before.boxes)(id)
    {
      assert !Legacy(users, mid, id);
    }
  }

  lemma TargetsAreLive(users: Users, before: Ledger, mid: map<BoxId, Cashbox>, conv: Conversion, after: Ledger)
    requires Run(users, before, mid, conv, after)
    ensures conv.from.Keys <= LiveIds(after.boxes) && Inverse(conv)
  {
    RunFacts(users, before, mid, conv, after);
    hide Run;
    forall t | t in conv.from ensures t in LiveIds(after.boxes) {
      AfterTarget(users, before, mid, conv, after, t);
    }
  }

  lemma GainOfLive(users: Users, before: Ledger, mid: map<BoxId, Cashbox>, conv: Conversion, after: Ledger)
    requires Run(users, before, mid, conv, after)
    ensures Sum(LiveIds(after.boxes), Gain(conv, before.boxes)) == Sum(conv.into.Keys, Balances(before.boxes))
  {
    TargetsAreLive(users, before, mid, conv, after);
    SumGains(conv, before.boxes, LiveIds(after.boxes));
  }

  lemma SumGains(conv: Conversion, boxes: map<BoxId, Cashbox>, live: set<BoxId>)
    requires Inverse(conv) && conv.from.Keys <= live
    ensures Sum(live, Gain(conv, boxes)) == Sum(conv.into.Keys, Balances(boxes))
  {
    var ts, rest := conv.from.Keys, live - conv.from.Keys;
    SumUnion(ts, rest, Gain(conv, boxes));
    assert ts + rest == live;
    ZeroSum(rest, Gain(conv, boxes));
    GainsAreBalances(conv, boxes, ts, conv.into.Keys);
  }

  lemma KeptAndRetired(users: Users, before: Ledger, mid: map<BoxId, Cashbox>, conv: Conversion, after: Ledger)
    requires Run(users, before, mid, conv, after)
    ensures Sum(LiveIds(after.boxes), Balances(before.boxes)) + Sum(conv.into.Keys, Balances(before.boxes))
            + Sum(Dropped(users, mid, conv), Balances(before.boxes)) == LiveTotal(before.boxes)
  {
    RunFacts(users, before, mid, conv, after);
    var bal := Balances(before.boxes);
    var live, live' := LiveIds(before.boxes), LiveIds(after.boxes);
    var kept := live * live';
    var converted, dropped := conv.into.Keys, Dropped(users, mid, conv);
    SumUnion(kept, live' - kept, bal);
    assert kept + (live' - kept) == live';
    NewBoxesHoldNothing(users, before, mid, conv, after);
    ZeroSum(live' - kept, bal);
    SumUnion(kept, converted, bal);
    SumUnion(kept + converted, dropped, bal);
    LiveSplits(users, before, mid, conv, after);
  }

  lemma NewBoxesHoldNothing(users: Users, before: Ledger, mid: map<BoxId, Cashbox>, conv: Conversion, after: Ledger)
    requires Run(users, before, mid, conv, after)
    ensures forall id :: id in LiveIds(after.boxes) && id !in LiveIds(before.boxes) ==> Balances(before.boxes)(id) == 0
  {
    forall id | id in LiveIds(after.boxes) && id !in LiveIds(before.boxes) ensures id !in before.boxes {
    }
  }

  lemma RetiredWereLive(users: Users, before: Ledger, mid: map<BoxId, Cashbox>, conv: Conversion, after: Ledger, id: BoxId)
    requires Run(users, before, mid, conv, after)
    ensures (id in LiveIds(before.boxes) && id !in LiveIds(after.boxes)) <==> Legacy(users, mid, id)
  {
    if Legacy(users, mid, id) {
      assert LiveOf(mid, id, FOR_COURIER);
    }
    if id in before.boxes {
      assert after.boxes[id] == FinalBox(users, mid, conv, id);
    }
  }

  /** A live cashbox was kept, converted or dropped. */
  lemma LiveSplits(users: Users, before: Ledger, mid: map<BoxId, Cashbox>, conv: Conversion, after: Ledger)
    requires Run(users, before, mid, conv, after)
    ensures var kept := LiveIds(before.boxes) * LiveIds(after.boxes);
            && kept !! conv.into.Keys
            && kept + conv.into.Keys !! Dropped(users, mid, conv)
            && kept + conv.into.Keys + Dropped(users, mid, conv) == LiveIds(before.boxes)
  {
    ConversionFacts(users, mid, before.history, conv);
    forall id ensures (id in LiveIds(before.boxes) && id !in LiveIds(after.boxes)) <==> Legacy(users, mid, id) {
      RetiredWereLive(users, before, mid, conv, after, id);
    }
  }

  /** Two managers of one branch, each with a cashbox of their own, block each other: neither cashbox is
      converted, and both are dropped. */
  lemma TwoManagersBlockEachOther(users: Users, before: Ledger, mid: map<BoxId, Cashbox>, conv: Conversion, after: Ledger,
                                  r: RowId, s: RowId, l: BoxId, m: BoxId, t: BoxId)
    requires BranchRules.OneActiveRowPerUser(users) && Run(users, before, mid, conv, after)
    requires Joins(users, mid, before.history, r, l, t) && Joins(users, mid, before.history, s, m, t) && l != m
    ensures l in Dropped(users, mid, conv) && m in Dropped(users, mid, conv)
  {
    BlockedByOther(users, before, mid, conv, r, s, l, m, t);
    BlockedByOther(users, before, mid, conv, s, r, m, l, t);
  }

  lemma BlockedByOther(users: Users, before: Ledger, mid: map<BoxId, Cashbox>, conv: Conversion,
                       r: RowId, s: RowId, l: BoxId, m: BoxId, t: BoxId)
    requires BranchRules.OneActiveRowPerUser(users)
    requires IsConversion(users, mid, before.history, conv, ManagedBranches(users))
    requires Joins(users, mid, before.history, r, l, t) && Joins(users, mid, before.history, s, m, t) && l != m
    ensures l !in conv.into
  {
  }

  /** A witness: two managers of one branch, with 5.00 and 3.00 that their histories account for. The
      migration retires both cashboxes, converts neither, and 8.00 leave the live total. */
  lemma EightAreDropped(users: Users, before: Ledger) returns (mid: map<BoxId, Cashbox>, conv: Conversion, after: Ledger)
    requires users == TwoManagers() && before == TwoCashboxes()
    ensures Run(users, before, mid, conv, after) && Reconciles(before)
    ensures LiveTotal(after.boxes) == LiveTotal(before.boxes) - 800
  {
    hide Reconciles, Provisioned, IsConversion, Migrated;
    mid := before.boxes[12 := EmptyBranchBox(1)];
    conv := Conversion(map[], map[]);
    after := Ledger(Retired(users, TookOver(mid, conv)), Moved(before.history, conv.into));
    TwoManagersConvertNothing(users, before, mid, conv);
    StatementsMigrate(users, before, mid, conv);
    TwoCashboxesReconcile(before);
    TotalFallsByDropped(users, before, mid, conv, after);
    BothAreDropped(users, before, mid, conv);
  }

  lemma BothAreDropped(users: Users, before: Ledger, mid: map<BoxId, Cashbox>, conv: Conversion)
    requires users == TwoManagers() && before == TwoCashboxes()
    requires mid == before.boxes[12 := EmptyBranchBox(1)] && conv == Conversion(map[], map[])
    ensures Sum(Dropped(users, mid, conv), Balances(before.boxes)) == 800
  {
    assert ManagerRow(users, 0) && ManagerRow(users, 1);
    assert Legacy(users, mid, 10) && Legacy(users, mid, 11) && !Legacy(users, mid, 12);
    assert mid.Keys == {10, 11, 12};
    assert Dropped(users, mid, conv) == {10, 11};
    SumTakeOut({10, 11}, Balances(before.boxes), 10);
    assert {10, 11} - {10} == {11};
    SumTakeOut({11}, Balances(before.boxes), 11);
    assert {11} - {11} == {};
  }

  function TwoManagers(): Users {
    map[0 := BranchRules.Assignment(1, 7, BranchRules.MANAGER, false), 1 := BranchRules.Assignment(1, 8, BranchRules.MANAGER, false)]
  }

  function TwoCashboxes(): Ledger {
    Ledger(map[10 := Cashbox(FOR_COURIER, 7, 500, 500, 0, false), 11 := Cashbox(FOR_COURIER, 8, 300, 300, 0, false)],
           [Entry(Sell(10, 1, "", 500), false), Entry(Sell(11, 2, "", 300), false)])
  }

  lemma TwoManagersConvertNothing(users: Users, before: Ledger, mid: map<BoxId, Cashbox>, conv: Conversion)
    requires users == TwoManagers() && before == TwoCashboxes()
    requires mid == before.boxes[12 := EmptyBranchBox(1)] && conv == Conversion(map[], map[])
    ensures Provisioned(users, before.boxes, mid)
    ensures IsConversion(users, mid, before.history, conv, ManagedBranches(users))
  {
    assert ManagerRow(users, 0) && ManagerRow(users, 1) && 1 in ManagedBranches(users);
    assert LiveOf(mid, 12, BRANCH) && HasBranchBox(mid, 1);
    assert NoLiveHistory(before.history, 12);
    assert Joins(users, mid, before.history, 0, 10, 12) && Joins(users, mid, before.history, 1, 11, 12);
    forall r, l, t ensures !OnlyJoin(users, mid, before.history, r, l, t) {
    }
  }

  lemma TwoCashboxesReconcile(l: Ledger)
    requires l == TwoCashboxes()
    ensures Reconciles(l)
  {
    var h := l.history;
    assert h == [h[0]] + [h[1]] && h[..1] == [h[0]];
    forall id | LiveBox(l, id) ensures SignedSum(h, id) == l.boxes[id].balance {
      assert SignedSum([h[0]][..0], id) == 0;
      assert SignedSum([h[0]], id) == if id == 10 then 500 else 0;
    }
  }
}
