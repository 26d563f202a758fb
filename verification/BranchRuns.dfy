/** Whole runs of the branch service: any sequence of restarts and requests, starting from empty tables. */
module BranchRuns {
  import opened Prelude
  import opened BranchTable
  import opened BranchWalks
  import opened BranchRules
  import opened BranchInvariants
  import opened BranchCycles
  import opened BranchRequests
  import opened BranchQueries
  import BranchTree

  /** One call, with the answers it got from the database and the other services. A start reads its
      configuration anew. */
  datatype Event =
    | Startup(hq: HqConfig, newId: Id, hqRow: Option<Id>, now: int)
    | Create(dto: CreateDto, newId: Id, hqRow: Option<Id>, now: int)
    | Update(who: Requester, id: Id, change: UpdateDto, hqRow: Option<Id>)
    | Delete(who: Requester, id: Id, orders: DeleteReply)
    | Assign(who: Requester, branch: Id, user: UserId, asked: Option<Role>, identity: UserReply,
             pairRow: Option<RowId>, newRow: RowId)
    | Remove(who: Requester, branch: Id, user: UserId)

  /** The answers are ones the database can give. */
  ghost predicate Possible(s: State, e: Event) {
    match e
    case Startup(_, newId, hqRow, _) => newId !in s.branches && HqAnswer(s.branches, hqRow)
    case Create(_, newId, hqRow, _) => newId !in s.branches && HqAnswer(s.branches, hqRow)
    case Update(_, _, _, hqRow) => HqAnswer(s.branches, hqRow)
    case Assign(_, branch, user, _, _, pairRow, newRow) => newRow !in s.users && PairAnswer(s.users, branch, user, pairRow)
    case _ => true
  }

  /** The state after one call; a call that throws changes nothing. */
  ghost function Apply(s: State, e: Event): State
    requires Possible(s, e)
  {
    match e
    case Startup(hq, newId, hqRow, now) =>
      (match StartupResult(s.branches, hq, newId, hqRow, now)
       case Ok(t) => s.(branches := t)
       case Err(_) => s)
    case Create(dto, newId, hqRow, now) =>
      (match CreateResult(s.branches, dto, hqRow, now)
       case Ok(row) => s.(branches := s.branches[newId := row])
       case Err(_) => s)
    case Update(who, id, change, hqRow) =>
      (match UpdateResult(s, who, id, change, hqRow)
       case Ok(t) => s.(branches := t)
       case Err(_) => s)
    case Delete(who, id, orders) =>
      (match DeleteResult(s, who, id, orders)
       case Ok(t) => s.(branches := t)
       case Err(_) => s)
    case Assign(who, branch, user, asked, identity, pairRow, newRow) =>
      (match AssignResult(s, who, branch, user, asked, identity, pairRow, newRow)
       case Ok(u) => s.(users := u)
       case Err(_) => s)
    case Remove(who, branch, user) =>
      (match RemoveResult(s, who, branch, user)
       case Ok(u) => s.(users := u)
       case Err(_) => s)
  }

  const EMPTY := State(map[], map[])

  /** `states[i]` is the state before `events[i]`. */
  ghost predicate IsRun(states: seq<State>, events: seq<Event>) {
    && |states| == |events| + 1
    && states[0] == EMPTY
    && forall i :: 0 <= i < |events| ==>
         Possible(states[i], events[i]) && states[i + 1] == Apply(states[i], events[i])
  }

  /** At a restart the configured HQ code is not on a lesser live branch. */
  ghost predicate RestartSafe(s: State, e: Event) {
    e.Startup? ==> HqCodeFree(s.branches, e.hq)
  }

  // ---- One step ----------------------------------------------------------------------------------

  /** The unique indexes survive every call: no write gets past one. */
  lemma StepKeepsIndexes(s: State, e: Event)
    requires Possible(s, e) && Indexed(s) && AssignmentsSound(s)
    ensures Indexed(Apply(s, e))
  {
    var t := s.branches;
    match e
    case Startup(hq, newId, hqRow, now) =>
      if StartupResult(t, hq, newId, hqRow, now).Ok? {
        StartupKeepsIndexes(t, hq, newId, hqRow, now);
      }
    case Create(dto, newId, hqRow, now) =>
      if CreateResult(t, dto, hqRow, now).Ok? {
        NewRowKeepsIndexes(t, newId, CreateResult(t, dto, hqRow, now).value);
      }
    case Update(who, id, change, hqRow) =>
      if UpdateResult(s, who, id, change, hqRow).Ok? {
        var row := UpdatedRow(t, id, change, Placement(t, id, change, hqRow).value);
        ChangedRowKeepsIndexes(t, id, row);
        RelevelKeepsIndexes(t[id := row], id, row.level);
      }
    case Delete(who, id, orders) =>
      if DeleteResult(s, who, id, orders).Ok? {
        ChangedRowKeepsIndexes(t, id, t[id].(deleted := true, status := INACTIVE));
      }
    case Assign(who, branch, user, asked, identity, pairRow, newRow) =>
      if AssignResult(s, who, branch, user, asked, identity, pairRow, newRow).Ok? {
        AssignKeepsSound(s, who, branch, user, asked, identity, pairRow, newRow);
      }
    case Remove(who, branch, user) =>
      if RemoveResult(s, who, branch, user).Ok? {
        RemoveKeepsSound(s, who, branch, user);
      }
  }

  lemma NewRowKeepsIndexes(t: Table, newId: Id, row: Branch)
    requires CodesUnique(t) && LiveNamesUnique(t) && newId !in t
    requires row.code.Some? ==> !CodeStored(t, row.code.value, None)
    requires !NameTaken(t, row.name, None)
    ensures CodesUnique(t[newId := row]) && LiveNamesUnique(t[newId := row])
  {
  }

  lemma ChangedRowKeepsIndexes(t: Table, id: Id, row: Branch)
    requires CodesUnique(t) && LiveNamesUnique(t) && id in t
    requires row.code == t[id].code || (row.code.Some? && !CodeStored(t, row.code.value, Some(id)))
    requires row.deleted || !NameTaken(t, row.name, Some(id)) || (Live(t, id) && row.name == t[id].name)
    ensures CodesUnique(t[id := row]) && LiveNamesUnique(t[id := row])
  {
  }

  lemma RelevelKeepsIndexes(t: Table, id: Id, top: int)
    requires CodesUnique(t) && LiveNamesUnique(t)
    ensures CodesUnique(Relevelled(t, id, top)) && LiveNamesUnique(Relevelled(t, id, top))
  {
    var u := Relevelled(t, id, top);
    forall x | x in u ensures u[x].code == t[x].code && u[x].name == t[x].name && (Live(u, x) <==> Live(t, x)) {
    }
  }

  lemma StartupKeepsIndexes(t: Table, hq: HqConfig, newId: Id, hqRow: Option<Id>, now: int)
    requires CodesUnique(t) && LiveNamesUnique(t) && HqAnswer(t, hqRow) && newId !in t
    requires StartupResult(t, hq, newId, hqRow, now).Ok?
    ensures var u := StartupResult(t, hq, newId, hqRow, now).value; CodesUnique(u) && LiveNamesUnique(u)
  {
    var u := StartupResult(t, hq, newId, hqRow, now).value;
    if exists x :: CarriesCode(t, x, hq.code) {
      var x: Id :| CarriesCode(t, x, hq.code) && u == t[x := t[x].(kind := HQ, level := 0, parent := None)];
      ChangedRowKeepsIndexes(t, x, u[x]);
    } else if hqRow.Some? {
      ChangedRowKeepsIndexes(t, hqRow.value, u[hqRow.value]);
    } else {
      NewRowKeepsIndexes(t, newId, u[newId]);
    }
  }

  /** Every call keeps the assignment table sound, whatever state the tree is in. */
  lemma StepKeepsAssignments(s: State, e: Event)
    requires Possible(s, e) && AssignmentsSound(s)
    ensures AssignmentsSound(Apply(s, e))
  {
    match e
    case Delete(who, id, orders) =>
      if DeleteResult(s, who, id, orders).Ok? {
        DeleteKeepsSound(s, who, id, orders);
      }
    case Assign(who, branch, user, asked, identity, pairRow, newRow) =>
      if AssignResult(s, who, branch, user, asked, identity, pairRow, newRow).Ok? {
        AssignKeepsSound(s, who, branch, user, asked, identity, pairRow, newRow);
      }
    case Remove(who, branch, user) =>
      if RemoveResult(s, who, branch, user).Ok? {
        RemoveKeepsSound(s, who, branch, user);
      }
    case _ =>
      forall x | Live(s.branches, x) ensures Live(Apply(s, e).branches, x) {
      }
  }

  /** One call keeps the tree exactly when it is not an unsafe restart. */
  lemma StepKeepsTree(s: State, e: Event)
    requires Possible(s, e) && Indexed(s) && IsTree(s.branches)
    ensures RestartSafe(s, e) <==> IsTree(Apply(s, e).branches)
  {
    match e
    case Startup(hq, newId, hqRow, now) =>
      if StartupResult(s.branches, hq, newId, hqRow, now).Ok? {
        StartupKeepsTree(s.branches, hq, newId, hqRow, now);
      }
    case Create(dto, newId, hqRow, now) =>
      if CreateResult(s.branches, dto, hqRow, now).Ok? {
        CreateKeepsTree(s.branches, dto, hqRow, now, newId);
      }
    case Update(who, id, change, hqRow) =>
      if UpdateResult(s, who, id, change, hqRow).Ok? {
        UpdateKeepsTree(s, who, id, change, hqRow);
      }
    case Delete(who, id, orders) =>
      if DeleteResult(s, who, id, orders).Ok? {
        DeleteKeepsTree(s, who, id, orders);
      }
    case _ =>
  }

  /** Who may change a branch: only a privileged caller or an active manager of that very branch. */
  lemma ChangesNeedTheManager(s: State, e: Event)
    requires Possible(s, e) && Apply(s, e) != s && !e.Startup? && !e.Create?
    ensures var branch := if e.Update? || e.Delete? then e.id else e.branch;
            e.who.privileged || ManagesBranch(s.users, e.who, branch)
  {
    var branch := if e.Update? || e.Delete? then e.id else e.branch;
    if !e.who.privileged {
      assert branch in WritableBranches(s.users, e.who.id.value);
      var r :| r in s.users && ActiveFor(s.users, r, e.who.id.value) && s.users[r].role.MANAGER? && s.users[r].branch == branch;
    }
  }

  // ---- Every run ---------------------------------------------------------------------------------

  /** On every run, at every point: codes and live names are unique, a user has at most one active
      assignment, a branch-user pair has at most one row, and active rows point at live branches. */
  lemma {:induction false} RunKeepsAssignments(states: seq<State>, events: seq<Event>, n: nat)
    requires IsRun(states, events) && n < |states|
    ensures AssignmentsSound(states[n]) && Indexed(states[n])
  {
    if n > 0 {
      RunKeepsAssignments(states, events, n - 1);
      StepKeepsAssignments(states[n - 1], events[n - 1]);
      StepKeepsIndexes(states[n - 1], events[n - 1]);
    }
  }

  /** A run stays a hierarchy throughout if and only if every restart in it was safe. */
  lemma {:induction false} RunKeepsHierarchy(states: seq<State>, events: seq<Event>)
    requires IsRun(states, events)
    ensures (forall i :: 0 <= i < |events| ==> RestartSafe(states[i], events[i]))
       <==> (forall i :: 0 <= i < |states| ==> IsHierarchy(states[i].branches))
  {
    if forall i :: 0 <= i < |events| ==> RestartSafe(states[i], events[i]) {
      forall i | 0 <= i < |states| ensures IsHierarchy(states[i].branches) {
        SafeRunIsTree(states, events, i);
        TreeIsHierarchy(states[i].branches);
      }
    }
    if forall i :: 0 <= i < |states| ==> IsHierarchy(states[i].branches) {
      forall i | 0 <= i < |events| ensures RestartSafe(states[i], events[i]) {
        RunKeepsAssignments(states, events, i);
        TreeIsHierarchy(states[i].branches);
        TreeIsHierarchy(states[i + 1].branches);
        StepKeepsTree(states[i], events[i]);
      }
    }
  }

  lemma {:induction false} SafeRunIsTree(states: seq<State>, events: seq<Event>, n: nat)
    requires IsRun(states, events) && n < |states|
    requires forall i :: 0 <= i < n ==> RestartSafe(states[i], events[i])
    ensures IsTree(states[n].branches)
  {
    if n > 0 {
      SafeRunIsTree(states, events, n - 1);
      RunKeepsAssignments(states, events, n - 1);
      StepKeepsTree(states[n - 1], events[n - 1]);
    }
  }

  lemma StepNeverCycles(s: State, e: Event)
    requires Possible(s, e) && CycleFree(s.branches)
    ensures CycleFree(Apply(s, e).branches)
  {
    match e
    case Startup(hq, newId, hqRow, now) =>
      if StartupResult(s.branches, hq, newId, hqRow, now).Ok? {
        StartupNoCycle(s.branches, hq, newId, hqRow, now);
      }
    case Create(dto, newId, hqRow, now) =>
      if CreateResult(s.branches, dto, hqRow, now).Ok? {
        CreateNoCycle(s.branches, dto, hqRow, now, newId);
      }
    case Update(who, id, change, hqRow) =>
      if UpdateResult(s, who, id, change, hqRow).Ok? {
        UpdateNoCycle(s, who, id, change, hqRow);
      }
    case Delete(who, id, orders) =>
      if DeleteResult(s, who, id, orders).Ok? {
        DeleteNoCycle(s, who, id, orders);
      }
    case _ =>
  }

  /** On every run, unsafe restarts included, no live branch is ever its own ancestor. */
  lemma {:induction false} RunNeverCycles(states: seq<State>, events: seq<Event>, n: nat)
    requires IsRun(states, events) && n < |states|
    ensures CycleFree(states[n].branches)
  {
    if n > 0 {
      RunNeverCycles(states, events, n - 1);
      StepNeverCycles(states[n - 1], events[n - 1]);
    }
  }

  /** So at every point of every run the subtree queries and the breadth-first walks end, and the nested
      view lists every live branch exactly once. */
  lemma RunKeepsReadersSound(states: seq<State>, events: seq<Event>, n: nat, ids: seq<Id>, roots: seq<Id>, kids: map<Id, seq<Id>>)
    requires IsRun(states, events) && n < |states| && BranchTree.PlacedOnce(states[n].branches, roots, kids)
    ensures RootsOffCycles(states[n].branches, ids)
    ensures Lists(BranchTree.FlattenAll(BranchTree.Forest(states[n].branches, kids, roots)), LiveIds(states[n].branches))
  {
    RunNeverCycles(states, events, n);
    BranchTree.FlatteningIsPermutation(states[n].branches, roots, kids);
  }

  // ---- Where couriers sit --------------------------------------------------------------------------

  /** No accepted update turns a branch that has a courier into a pickup point. */
  ghost predicate CourierSafe(s: State, e: Event) {
    e.Update? && UpdateResult(s, e.who, e.id, e.change, e.hqRow).Ok? ==>
      !(NextKind(s.branches, e.id, e.change).PICKUP? && CourierAt(s.users, e.id))
  }

  lemma StepKeepsCouriersPlaced(s: State, e: Event)
    requires Possible(s, e) && AssignmentsSound(s) && CouriersPlaced(s)
    ensures CouriersPlaced(Apply(s, e)) <==> CourierSafe(s, e)
  {
    match e
    case Startup(hq, newId, hqRow, now) =>
      if StartupResult(s.branches, hq, newId, hqRow, now).Ok? {
        NoNewPickup(s, StartupResult(s.branches, hq, newId, hqRow, now).value);
      }
    case Create(dto, newId, hqRow, now) =>
      if CreateResult(s.branches, dto, hqRow, now).Ok? {
        NoNewPickup(s, s.branches[newId := CreateResult(s.branches, dto, hqRow, now).value]);
      }
    case Update(who, id, change, hqRow) =>
      if UpdateResult(s, who, id, change, hqRow).Ok? {
        UpdateAndCouriers(s, who, id, change, hqRow);
      }
    case Delete(who, id, orders) =>
      if DeleteResult(s, who, id, orders).Ok? {
        NoNewPickup(s, DeleteResult(s, who, id, orders).value);
      }
    case Assign(who, branch, user, asked, identity, pairRow, newRow) =>
      if AssignResult(s, who, branch, user, asked, identity, pairRow, newRow).Ok? {
        AssignKeepsCouriersPlaced(s, who, branch, user, asked, identity, pairRow, newRow);
      }
    case Remove(who, branch, user) =>
      if RemoveResult(s, who, branch, user).Ok? {
        RemoveKeepsCouriersPlaced(s, who, branch, user);
      }
  }

  /** A changed table in which every live pickup point was a live one before, or is a new row. */
  lemma NoNewPickup(s: State, t: Table)
    requires AssignmentsSound(s) && CouriersPlaced(s)
    requires forall x :: x in s.branches && Live(t, x) && t[x].kind.PICKUP? ==> Live(s.branches, x) && s.branches[x].kind.PICKUP?
    ensures CouriersPlaced(State(t, s.users))
  {
    forall b | Live(t, b) && CourierAt(s.users, b) ensures !t[b].kind.PICKUP? {
      var r :| Active(s.users, r) && s.users[r].role.COURIER? && s.users[r].branch == b;
      assert Live(s.branches, b);
    }
  }

  lemma RemoveKeepsCouriersPlaced(s: State, who: Requester, branch: Id, user: UserId)
    requires CouriersPlaced(s) && RemoveResult(s, who, branch, user).Ok?
    ensures CouriersPlaced(State(s.branches, RemoveResult(s, who, branch, user).value))
  {
    var after := RemoveResult(s, who, branch, user).value;
    forall b | Live(s.branches, b) && CourierAt(after, b) ensures !s.branches[b].kind.PICKUP? {
      var r :| Active(after, r) && after[r].role.COURIER? && after[r].branch == b;
      assert Active(s.users, r) && s.users[r].role.COURIER? && s.users[r].branch == b;
    }
  }

  /** A run keeps couriers off pickup points throughout if and only if every update in it was safe. */
  lemma {:induction false} RunKeepsCouriersPlaced(states: seq<State>, events: seq<Event>)
    requires IsRun(states, events)
    ensures (forall i :: 0 <= i < |events| ==> CourierSafe(states[i], events[i]))
       <==> (forall i :: 0 <= i < |states| ==> CouriersPlaced(states[i]))
  {
    if forall i :: 0 <= i < |events| ==> CourierSafe(states[i], events[i]) {
      forall i | 0 <= i < |states| ensures CouriersPlaced(states[i]) {
        SafeRunPlacesCouriers(states, events, i);
      }
    }
    if forall i :: 0 <= i < |states| ==> CouriersPlaced(states[i]) {
      forall i | 0 <= i < |events| ensures CourierSafe(states[i], events[i]) {
        RunKeepsAssignments(states, events, i);
        assert CouriersPlaced(states[i + 1]);
        StepKeepsCouriersPlaced(states[i], events[i]);
      }
    }
  }

  lemma {:induction false} SafeRunPlacesCouriers(states: seq<State>, events: seq<Event>, n: nat)
    requires IsRun(states, events) && n < |states|
    requires forall i :: 0 <= i < n ==> CourierSafe(states[i], events[i])
    ensures CouriersPlaced(states[n])
  {
    if n > 0 {
      SafeRunPlacesCouriers(states, events, n - 1);
      RunKeepsAssignments(states, events, n - 1);
      StepKeepsCouriersPlaced(states[n - 1], events[n - 1]);
    }
  }

  // ---- Witnesses -----------------------------------------------------------------------------------

  const CODE := "HQ-TSHKNT"
  const CONFIG := HqConfig(CODE, "hq toshkent", "toshkent")
  const ADMIN := Requester(true, Some(1))
  const FIRST := Branch("hq toshkent", "toshkent", None, HQ, 0, Some(CODE), ACTIVE, 0, false)
  const SECOND := Branch("chilonzor", "", Some(1), PICKUP, 1, Some(CODE), ACTIVE, 1, false)
  const STARTED := State(map[1 := FIRST], map[])

  /** One more call on a run. */
  lemma Then(states: seq<State>, events: seq<Event>, s: State, e: Event, t: State) returns (states': seq<State>, events': seq<Event>)
    requires IsRun(states, events) && s == states[|events|] && Possible(s, e) && t == Apply(s, e)
    ensures IsRun(states', events') && states' == states + [t] && events' == events + [e]
  {
    hide Apply, Possible;
    states', events' := states + [t], events + [e];
    forall i | 0 <= i < |events'| ensures Possible(states'[i], events'[i]) && states'[i + 1] == Apply(states'[i], events'[i]) {
    }
  }

  lemma StartedRun() returns (states: seq<State>, events: seq<Event>)
    ensures IsRun(states, events) && states == [EMPTY, STARTED] && |events| == 1
  {
    assert Apply(EMPTY, Startup(CONFIG, 1, None, 0)) == STARTED;
    states, events := Then([EMPTY], [], EMPTY, Startup(CONFIG, 1, None, 0), STARTED);
  }

  /** Start, give the HQ another code, open a pickup point under the freed code, restart: two HQs. */
  lemma UnsafeRestartIsReachable() returns (states: seq<State>, events: seq<Event>)
    ensures IsRun(states, events) && |events| == 4
    ensures LiveHq(states[4].branches, 1) && LiveHq(states[4].branches, 2) && !IsHierarchy(states[4].branches)
  {
    var recode := UpdateDto(None, None, None, None, Some("HQ-2"), None);
    var open := CreateDto("chilonzor", "", Some(1), Some(PICKUP), CODE);
    var restart := Startup(CONFIG, 3, Some(1), 2);
    states, events := StartedRun();
    RecodeHq(recode);
    states, events := Then(states, events, STARTED, Update(ADMIN, 1, recode, Some(1)), RECODED);
    OpenUnderFreedCode();
    states, events := Then(states, events, RECODED, Create(open, 2, Some(1), 1), REOPENED);
    SecondHq(REOPENED, 2, restart);
    states, events := Then(states, events, REOPENED, restart, Apply(REOPENED, restart));
  }

  const RECODED := State(map[1 := FIRST.(code := Some("HQ-2"))], map[])
  const REOPENED := State(map[1 := FIRST.(code := Some("HQ-2")), 2 := SECOND], map[])

  lemma OpenUnderFreedCode()
    ensures Apply(RECODED, Create(CreateDto("chilonzor", "", Some(1), Some(PICKUP), CODE), 2, Some(1), 1)) == REOPENED
  {
    assert RECODED.branches[2 := SECOND] == REOPENED.branches;
  }

  /** A restart under the code of a branch that is not the HQ makes that branch a second HQ. */
  lemma SecondHq(s: State, x: Id, e: Event)
    requires Possible(s, e) && e.Startup? && CodesUnique(s.branches) && CarriesCode(s.branches, x, e.hq.code)
    requires LiveHq(s.branches, 1) && x != 1
    ensures LiveHq(Apply(s, e).branches, 1) && LiveHq(Apply(s, e).branches, x) && !IsHierarchy(Apply(s, e).branches)
  {
    var y :| CarriesCode(s.branches, y, e.hq.code)
             && Apply(s, e).branches == s.branches[y := s.branches[y].(kind := HQ, level := 0, parent := None)];
    OneRowPerCode(s.branches, x, y, e.hq.code);
  }

  lemma RecodeHq(recode: UpdateDto)
    requires recode == UpdateDto(None, None, None, None, Some("HQ-2"), None)
    ensures UpdateResult(STARTED, ADMIN, 1, recode, Some(1)) == Ok(RECODED.branches)
  {
    var t := map[1 := FIRST];
    assert CodeWellFormed("HQ-2");
    var u: Table := t[1 := FIRST.(code := Some("HQ-2"))];
    assert !Under(u, 1, 1);
    assert Relevelled(u, 1, 0) == u;
    assert UpdateHeadError(t, 1, recode) == None;
    assert Placement(t, 1, recode, Some(1)) == Ok((None, 0));
    assert UpdatedRow(t, 1, recode, (None, 0)) == FIRST.(code := Some("HQ-2"));
    assert !CodeStored(t, "HQ-2", Some(1));
    assert u == map[1 := FIRST.(code := Some("HQ-2"))];
    assert UpdateResult(State(t, map[]), ADMIN, 1, recode, Some(1)) == Ok(u);
  }

  const REGIONAL_2 := Branch("chilonzor", "", Some(1), REGIONAL, 1, Some("B-2"), ACTIVE, 1, false)
  const TWO_BRANCHES := State(map[1 := FIRST, 2 := REGIONAL_2], map[])

  lemma OpenSecond()
    ensures Apply(STARTED, Create(CreateDto("chilonzor", "", Some(1), Some(REGIONAL), "B-2"), 2, Some(1), 1)) == TWO_BRANCHES
  {
    assert CodeWellFormed("B-2");
    assert STARTED.branches[2 := REGIONAL_2] == TWO_BRANCHES.branches;
  }

  /** Start, open a branch, restart with its code configured as the HQ's: two HQs. */
  lemma ReconfiguredRestartIsReachable() returns (states: seq<State>, events: seq<Event>)
    ensures IsRun(states, events) && |events| == 3
    ensures LiveHq(states[3].branches, 1) && LiveHq(states[3].branches, 2) && !IsHierarchy(states[3].branches)
  {
    var open := CreateDto("chilonzor", "", Some(1), Some(REGIONAL), "B-2");
    var restart := Startup(HqConfig("B-2", "hq toshkent", "toshkent"), 3, Some(1), 2);
    states, events := StartedRun();
    OpenSecond();
    states, events := Then(states, events, STARTED, Create(open, 2, Some(1), 1), TWO_BRANCHES);
    SecondHq(TWO_BRANCHES, 2, restart);
    states, events := Then(states, events, TWO_BRANCHES, restart, Apply(TWO_BRANCHES, restart));
  }

  /** Start, delete the HQ, restart: the deleted row still holds the code, so there is no HQ from then on. */
  lemma RefusedRestartIsReachable() returns (states: seq<State>, events: seq<Event>)
    ensures IsRun(states, events) && |events| == 3
    ensures HqAnswer(states[2].branches, None) && StartupResult(states[2].branches, CONFIG, 2, None, 1) == Err(UniqueIndex)
    ensures forall x :: !Live(states[3].branches, x)
  {
    var s2 := State(map[1 := FIRST.(deleted := true, status := INACTIVE)], map[]);
    states, events := StartedRun();
    DeleteHq(s2);
    states, events := Then(states, events, STARTED, Delete(ADMIN, 1, NoData), s2);
    assert CodeStored(s2.branches, CODE, None);
    states, events := Then(states, events, s2, Startup(CONFIG, 2, None, 1), s2);
  }

  lemma DeleteHq(after: State)
    requires after == State(map[1 := FIRST.(deleted := true, status := INACTIVE)], map[])
    ensures Apply(STARTED, Delete(ADMIN, 1, NoData)) == after
  {
    assert Children(STARTED.branches, 1) == {};
    assert STARTED.branches[1 := FIRST.(deleted := true, status := INACTIVE)] == after.branches;
  }

  /** Start, open a regional branch, give it a courier, retype it: a courier sits in a pickup point. */
  lemma MisplacedCourierIsReachable() returns (states: seq<State>, events: seq<Event>)
    ensures IsRun(states, events) && |events| == 4
    ensures CouriersPlaced(states[3]) && !CouriersPlaced(states[4])
  {
    var open := CreateDto("chilonzor", "", Some(1), Some(REGIONAL), "B-2");
    var retype := UpdateDto(None, None, None, Some(Some(PICKUP)), None, None);
    var assign, update := Assign(ADMIN, 2, 7, None, Found(Some(COURIER)), None, 0), Update(ADMIN, 2, retype, Some(1));
    states, events := StartedRun();
    OpenSecond();
    states, events := Then(states, events, STARTED, Create(open, 2, Some(1), 1), TWO_BRANCHES);
    var s3 := TWO_BRANCHES.(users := map[0 := Assignment(2, 7, COURIER, false)]);
    assert Apply(TWO_BRANCHES, assign) == s3;
    states, events := Then(states, events, TWO_BRANCHES, assign, s3);
    RetypeToPickup(s3, retype);
    states, events := Then(states, events, s3, update, Apply(s3, update));
    assert CourierAt(s3.users, 2);
    assert CouriersPlaced(s3);
    UpdateAndCouriers(s3, ADMIN, 2, retype, Some(1));
  }

  lemma RetypeToPickup(s: State, retype: UpdateDto)
    requires s.branches == TWO_BRANCHES.branches && retype == UpdateDto(None, None, None, Some(Some(PICKUP)), None, None)
    ensures UpdateResult(s, ADMIN, 2, retype, Some(1)).Ok?
  {
    var t := s.branches;
    assert WalkUp(t, 2, 1, 1) == ReachesTop;
    assert ParentVerdict(t, 2, 1) == Accepted;
    assert UpdateHeadError(t, 2, retype) == None;
    assert Placement(t, 2, retype, Some(1)) == Ok((Some(1), 1));
  }
}
