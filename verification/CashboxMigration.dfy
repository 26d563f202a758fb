/** The migration of manager cashboxes to branch cashboxes, statement by statement. */
module CashboxMigration {
  import opened Prelude
  import opened CashboxLedger
  import BranchRules

  type Users = BranchRules.Assignments
  type RowId = BranchRules.RowId

  /** A branch cashbox is keyed by its branch: its `user` column holds the branch id. */
  predicate LiveOf(boxes: map<BoxId, Cashbox>, id: BoxId, kind: BoxKind) {
    id in boxes && !boxes[id].deleted && boxes[id].kind == kind
  }

  predicate ManagerRow(users: Users, r: RowId) {
    BranchRules.Active(users, r) && users[r].role.MANAGER?
  }

  function ManagedBranches(users: Users): set<nat> {
    set r | r in users && ManagerRow(users, r) :: users[r].branch
  }

  predicate HasBranchBox(boxes: map<BoxId, Cashbox>, branch: nat) {
    exists id :: id in boxes && LiveOf(boxes, id, BRANCH) && boxes[id].user == branch
  }

  /** A live courier cashbox owned by an active manager. */
  predicate Legacy(users: Users, boxes: map<BoxId, Cashbox>, id: BoxId) {
    LiveOf(boxes, id, FOR_COURIER) && exists r :: r in users && ManagerRow(users, r) && users[r].user == boxes[id].user
  }

  predicate NoLiveHistory(history: seq<Entry>, id: BoxId) {
    forall i :: 0 <= i < |history| ==> history[i].deleted || history[i].event.box != id
  }

  predicate Untouched(boxes: map<BoxId, Cashbox>, history: seq<Entry>, id: BoxId) {
    LiveOf(boxes, id, BRANCH) && boxes[id].balance == 0 && boxes[id].cash == 0 && boxes[id].card == 0
    && NoLiveHistory(history, id)
  }

  /** One row of the conversion join: a manager row, the manager's cashbox, the branch's cashbox. */
  predicate Joins(users: Users, boxes: map<BoxId, Cashbox>, history: seq<Entry>, r: RowId, legacy: BoxId, target: BoxId) {
    && r in users && ManagerRow(users, r)
    && LiveOf(boxes, legacy, FOR_COURIER) && boxes[legacy].user == users[r].user
    && Untouched(boxes, history, target) && boxes[target].user == users[r].branch
  }

  /** HAVING COUNT(*) = 1: the join row is the only one of its branch. */
  ghost predicate OnlyJoin(users: Users, boxes: map<BoxId, Cashbox>, history: seq<Entry>, r: RowId, legacy: BoxId, target: BoxId) {
    && Joins(users, boxes, history, r, legacy, target)
    && forall r', l', t' :: Joins(users, boxes, history, r', l', t') && boxes[t'].user == boxes[target].user ==>
         r' == r && l' == legacy && t' == target
  }

  /** The conversion table: `from[t]` is the cashbox that `t` takes over, `into` the way back. */
  datatype Conversion = Conversion(from: map<BoxId, BoxId>, into: map<BoxId, BoxId>)

  ghost predicate Inverse(conv: Conversion) {
    && (forall t :: t in conv.from ==> conv.from[t] in conv.into && conv.into[conv.from[t]] == t)
    && (forall l :: l in conv.into ==> conv.into[l] in conv.from && conv.from[conv.into[l]] == l)
  }

  /** The table holds the lone join row of each branch in `branches` that has one, and nothing else. */
  ghost predicate IsConversion(users: Users, boxes: map<BoxId, Cashbox>, history: seq<Entry>, conv: Conversion, branches: set<nat>) {
    && Inverse(conv)
    && (forall t :: t in conv.from ==>
          t in boxes && boxes[t].user in branches && exists r :: OnlyJoin(users, boxes, history, r, conv.from[t], t))
    && (forall r, l, t :: OnlyJoin(users, boxes, history, r, l, t) && boxes[t].user in branches ==>
          t in conv.from && conv.from[t] == l)
  }

  function EmptyBranchBox(branch: nat): Cashbox {
    Cashbox(BRANCH, branch, 0, 0, 0, false)
  }

  /** The first statement: one empty cashbox for each managed branch that has none. */
  ghost predicate Provisioned(users: Users, before: map<BoxId, Cashbox>, after: map<BoxId, Cashbox>) {
    && before.Keys <= after.Keys
    && (forall id :: id in before ==> after[id] == before[id])
    && (forall id :: id in after && id !in before ==>
          after[id] == EmptyBranchBox(after[id].user) && after[id].user in ManagedBranches(users)
          && !HasBranchBox(before, after[id].user))
    && (forall id, id' :: id in after && id' in after && id !in before && id' !in before && after[id].user == after[id'].user ==> id == id')
    && (forall b :: b in ManagedBranches(users) ==> HasBranchBox(after, b))
  }

  function TakeOver(target: Cashbox, legacy: Cashbox): Cashbox {
    target.(balance := legacy.balance, cash := legacy.cash, card := legacy.card)
  }

  /** A history row follows its cashbox. */
  function MovedEntry(e: Entry, into: map<BoxId, BoxId>): Entry {
    if e.event.box in into then e.(event := e.event.(box := into[e.event.box])) else e
  }

  function FinalBox(users: Users, boxes: map<BoxId, Cashbox>, conv: Conversion, id: BoxId): Cashbox
    requires id in boxes
  {
    if Legacy(users, boxes, id) then boxes[id].(deleted := true)
    else if id in conv.from && conv.from[id] in boxes then TakeOver(boxes[id], boxes[conv.from[id]])
    else boxes[id]
  }

  /** What the five statements do together; `mid` is the cashbox table after the first of them. */
  ghost predicate Migrated(users: Users, before: Ledger, mid: map<BoxId, Cashbox>, conv: Conversion, after: Ledger) {
    && Provisioned(users, before.boxes, mid)
    && IsConversion(users, mid, before.history, conv, ManagedBranches(users))
    && after.boxes.Keys == mid.Keys
    && (forall id :: id in mid ==> after.boxes[id] == FinalBox(users, mid, conv, id))
    && |after.history| == |before.history|
    && (forall i :: 0 <= i < |before.history| ==> after.history[i] == MovedEntry(before.history[i], conv.into))
  }

  // ---- The migration -----------------------------------------------------------------------------

  class FinanceTables {
    var boxes: map<BoxId, Cashbox>
    var history: seq<Entry>
    var nextId: BoxId

    constructor (ledger: Ledger, nextId: BoxId)
      ensures Now() == ledger && this.nextId == nextId
    {
      boxes, history := ledger.boxes, ledger.history;
      this.nextId := nextId;
    }

    ghost function Now(): Ledger
      reads this
    {
      Ledger(boxes, history)
    }

    ghost predicate IdsBelowNext()
      reads this
    {
      forall id :: id in boxes ==> id < nextId
    }

    method Provision(users: Users)
      requires IdsBelowNext()
      modifies this`boxes, this`nextId
      ensures IdsBelowNext() && Provisioned(users, old(boxes), boxes)
    {
      ghost var before := boxes;
      var branches := InSomeOrder(ManagedBranches(users));
      for i := 0 to |branches|
        invariant IdsBelowNext()
        invariant ProvisionedFor(users, before, boxes, branches[..i])
      {
        assert branches[..i + 1] == branches[..i] + [branches[i]];
        assert branches[i] in branches && branches[i] in ManagedBranches(users);
        if !HasBranchBox(boxes, branches[i]) {
          ProvisionOne(users, before, boxes, branches[..i], branches[i], nextId);
          boxes := boxes[nextId := EmptyBranchBox(branches[i])];
          nextId := nextId + 1;
        }
      }
      assert branches[..|branches|] == branches;
    }

    method BuildConversion(users: Users) returns (conv: Conversion)
      requires BranchRules.OneActiveRowPerUser(users)
      ensures IsConversion(users, boxes, history, conv, ManagedBranches(users))
    {
      conv := Conversion(map[], map[]);
      var branches := InSomeOrder(ManagedBranches(users));
      for i := 0 to |branches|
        invariant IsConversion(users, boxes, history, conv, Elements(branches[..i]))
      {
        var b := branches[i];
        assert b !in branches[..i];
        assert branches[..i + 1] == branches[..i] + [b];
        assert Elements(branches[..i + 1]) == Elements(branches[..i]) + {b};
        var rows := set r, l, t | r in users && l in boxes && t in boxes && boxes[t].user == b
                                  && Joins(users, boxes, history, r, l, t) :: (r, l, t);
        if |rows| == 1 {
          var row :| row in rows;
          LoneRow(users, boxes, history, b, rows, row);
          ConvertOne(users, boxes, history, conv, Elements(branches[..i]), row.0, row.1, row.2);
          conv := Conversion(conv.from[row.2 := row.1], conv.into[row.1 := row.2]);
        } else {
          NoLoneRow(users, boxes, history, b, rows);
          ConvertNone(users, boxes, history, conv, Elements(branches[..i]), b);
        }
      }
      assert branches[..|branches|] == branches;
      assert Elements(branches) == ManagedBranches(users);
    }

    /** The five statements in order. The unique index on active assignments lets no manager's cashbox
        be claimed by two branches. */
    method Up(users: Users) returns (ghost mid: map<BoxId, Cashbox>, ghost conv: Conversion)
      requires BranchRules.OneActiveRowPerUser(users) && IdsBelowNext()
      modifies this
      ensures Migrated(users, old(Now()), mid, conv, Now())
    {
      Provision(users);
      mid := boxes;
      var conversion := BuildConversion(users);
      conv := conversion;
      StatementsMigrate(users, old(Now()), mid, conv);
      boxes := TookOver(boxes, conversion);
      history := Moved(history, conversion.into);
      boxes := Retired(users, boxes);
    }
  }

  // The last three statements, each over the whole table.

  function TookOver(boxes: map<BoxId, Cashbox>, conv: Conversion): map<BoxId, Cashbox> {
    map id | id in boxes ::
      if id in conv.from && conv.from[id] in boxes then TakeOver(boxes[id], boxes[conv.from[id]]) else boxes[id]
  }

  function Moved(history: seq<Entry>, into: map<BoxId, BoxId>): seq<Entry> {
    seq(|history|, i requires 0 <= i < |history| => MovedEntry(history[i], into))
  }

  function Retired(users: Users, boxes: map<BoxId, Cashbox>): map<BoxId, Cashbox> {
    map id | id in boxes :: if Legacy(users, boxes, id) then boxes[id].(deleted := true) else boxes[id]
  }

  lemma StatementsMigrate(users: Users, before: Ledger, mid: map<BoxId, Cashbox>, conv: Conversion)
    requires Provisioned(users, before.boxes, mid)
    requires IsConversion(users, mid, before.history, conv, ManagedBranches(users))
    ensures Migrated(users, before, mid, conv, Ledger(Retired(users, TookOver(mid, conv)), Moved(before.history, conv.into)))
  {
    ConversionFacts(users, mid, before.history, conv);
    forall id | id in mid ensures Retired(users, TookOver(mid, conv))[id] == FinalBox(users, mid, conv, id) {
      RetireAfterTakeOver(users, mid, conv, id);
    }
  }

  /** Taking over changes no owner, kind or deletion flag, so it does not change who is retired. */
  lemma RetireAfterTakeOver(users: Users, mid: map<BoxId, Cashbox>, conv: Conversion, id: BoxId)
    requires id in mid && (id in conv.from ==> LiveOf(mid, id, BRANCH))
    ensures Retired(users, TookOver(mid, conv))[id] == FinalBox(users, mid, conv, id)
  {
    var moved := TookOver(mid, conv);
    assert moved[id].user == mid[id].user && moved[id].kind == mid[id].kind && moved[id].deleted == mid[id].deleted;
    assert Legacy(users, moved, id) <==> Legacy(users, mid, id);
  }

  function Elements(s: seq<nat>): set<nat> {
    set x | x in s
  }

  ghost predicate ProvisionedFor(users: Users, before: map<BoxId, Cashbox>, after: map<BoxId, Cashbox>, branches: seq<nat>) {
    && before.Keys <= after.Keys
    && (forall id :: id in before ==> after[id] == before[id])
    && (forall id :: id in after && id !in before ==>
          after[id] == EmptyBranchBox(after[id].user) && after[id].user in ManagedBranches(users)
          && !HasBranchBox(before, after[id].user))
    && (forall id, id' :: id in after && id' in after && id !in before && id' !in before && after[id].user == after[id'].user ==> id == id')
    && (forall b :: b in branches ==> HasBranchBox(after, b))
  }

  lemma ProvisionOne(users: Users, before: map<BoxId, Cashbox>, now: map<BoxId, Cashbox>, branches: seq<nat>, b: nat, newId: BoxId)
    requires ProvisionedFor(users, before, now, branches) && newId !in now
    requires b in ManagedBranches(users) && !HasBranchBox(now, b)
    ensures ProvisionedFor(users, before, now[newId := EmptyBranchBox(b)], branches + [b])
  {
    var after := now[newId := EmptyBranchBox(b)];
    assert LiveOf(after, newId, BRANCH);
    forall c | HasBranchBox(before, c) ensures HasBranchBox(now, c) {
      var id :| id in before && LiveOf(before, id, BRANCH) && before[id].user == c;
      assert LiveOf(now, id, BRANCH);
    }
    forall c | c in branches ensures HasBranchBox(after, c) {
      var id :| id in now && LiveOf(now, id, BRANCH) && now[id].user == c;
      assert LiveOf(after, id, BRANCH);
    }
    forall id | id in now && id !in before ensures now[id].user != b {
      assert LiveOf(now, id, BRANCH);
    }
  }

  lemma LoneRow(users: Users, boxes: map<BoxId, Cashbox>, history: seq<Entry>, b: nat,
                rows: set<(RowId, BoxId, BoxId)>, row: (RowId, BoxId, BoxId))
    requires forall r: RowId, l: BoxId, t: BoxId :: (r, l, t) in rows <==> Joins(users, boxes, history, r, l, t) && boxes[t].user == b
    requires |rows| == 1 && row in rows
    ensures OnlyJoin(users, boxes, history, row.0, row.1, row.2) && boxes[row.2].user == b
  {
    assert |rows - {row}| == 0;
    assert rows == {row};
    assert (row.0, row.1, row.2) in rows;
  }

  lemma NoLoneRow(users: Users, boxes: map<BoxId, Cashbox>, history: seq<Entry>, b: nat, rows: set<(RowId, BoxId, BoxId)>)
    requires forall r: RowId, l: BoxId, t: BoxId :: (r, l, t) in rows <==> Joins(users, boxes, history, r, l, t) && boxes[t].user == b
    ensures forall r, l, t :: OnlyJoin(users, boxes, history, r, l, t) && boxes[t].user == b ==> |rows| == 1
  {
    forall r: RowId, l: BoxId, t: BoxId | OnlyJoin(users, boxes, history, r, l, t) && boxes[t].user == b
      ensures |rows| == 1
    {
      forall row | row in rows ensures row == (r, l, t) {
        assert (row.0, row.1, row.2) in rows;
      }
      assert (r, l, t) in rows;
      assert rows == {(r, l, t)};
    }
  }

  lemma ConvertOne(users: Users, boxes: map<BoxId, Cashbox>, history: seq<Entry>, conv: Conversion, seen: set<nat>,
                   r: RowId, l: BoxId, t: BoxId)
    requires BranchRules.OneActiveRowPerUser(users)
    requires IsConversion(users, boxes, history, conv, seen)
    requires OnlyJoin(users, boxes, history, r, l, t) && boxes[t].user !in seen
    ensures IsConversion(users, boxes, history, Conversion(conv.from[t := l], conv.into[l := t]), seen + {boxes[t].user})
  {
    assert l !in conv.into && t !in conv.from;
  }

  lemma ConvertNone(users: Users, boxes: map<BoxId, Cashbox>, history: seq<Entry>, conv: Conversion, seen: set<nat>, b: nat)
    requires IsConversion(users, boxes, history, conv, seen)
    requires forall r, l, t :: OnlyJoin(users, boxes, history, r, l, t) ==> boxes[t].user != b
    ensures IsConversion(users, boxes, history, conv, seen + {b})
  {
  }

  /** A target is an untouched branch cashbox, and what it takes over is a manager's courier cashbox. */
  lemma ConversionFacts(users: Users, boxes: map<BoxId, Cashbox>, history: seq<Entry>, conv: Conversion)
    requires IsConversion(users, boxes, history, conv, ManagedBranches(users))
    ensures forall t :: t in conv.from ==> Untouched(boxes, history, t) && Legacy(users, boxes, conv.from[t])
    ensures forall l :: l in conv.into ==> Legacy(users, boxes, l) && Untouched(boxes, history, conv.into[l])
  {
    forall t | t in conv.from ensures Untouched(boxes, history, t) && Legacy(users, boxes, conv.from[t]) {
      var r :| OnlyJoin(users, boxes, history, r, conv.from[t], t);
    }
  }
}
