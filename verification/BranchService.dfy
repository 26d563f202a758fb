/** The branch service itself: tables updated row by row, proved against the rules. */
module BranchService {
  import opened Prelude
  import opened BranchTable
  import opened BranchWalks
  import opened BranchRules

  /** A finished walk decides the verdict. */
  lemma FateIsVerdict(t: Table, branch: Id, parent: Id, n: nat)
    requires WalkUp(t, branch, parent, n) != Running
    ensures ParentVerdict(t, branch, parent) == match WalkUp(t, branch, parent, n)
                                                case ReachesTop => Accepted
                                                case MeetsDeadRow => ParentMissing
                                                case _ => Cyclic
  {
    var fate := WalkUp(t, branch, parent, n);
    if EndsAs(t, branch, parent, ReachesTop) {
      OneFate(t, branch, parent, ReachesTop, fate);
    }
    if EndsAs(t, branch, parent, MeetsDeadRow) {
      OneFate(t, branch, parent, MeetsDeadRow, fate);
    }
  }

  /** The walk from `start` is at `cur` after `steps` steps. */
  ghost predicate Arrives(t: Table, branch: Id, start: Id, steps: nat, cur: Id) {
    forall m: nat {:trigger WalkUp(t, branch, start, m)} ::
      m >= steps ==> WalkUp(t, branch, start, m) == WalkUp(t, branch, cur, m - steps)
  }

  /** The walk from `parent` is at `cur`, having passed each visited row `v` at step `at[v]`. */
  ghost predicate Trail(t: Table, branch: Id, parent: Id, at: map<Id, nat>, steps: nat, cur: Id) {
    && Arrives(t, branch, parent, steps, cur)
    && forall v :: v in at ==> at[v] < steps && Live(t, v) && Arrives(t, branch, v, steps - at[v], cur)
  }

  /** What the loop's three exits mean. */
  lemma TrailFate(t: Table, branch: Id, parent: Id, at: map<Id, nat>, steps: nat, cur: Id)
    requires Trail(t, branch, parent, at, steps, cur)
    ensures cur == branch || cur in at ==> ParentVerdict(t, branch, parent) == Cyclic
    ensures cur != branch && !Live(t, cur) ==> ParentVerdict(t, branch, parent) == ParentMissing
    ensures WalkUp(t, branch, parent, 1 + steps) == WalkUp(t, branch, cur, 1)
  {
    FateAt(t, branch, parent, steps, cur);
    if cur in at {
      RevisitIsCyclic(t, branch, parent, cur, steps, steps - at[cur]);
    }
  }

  lemma FateAt(t: Table, branch: Id, parent: Id, steps: nat, cur: Id)
    requires Arrives(t, branch, parent, steps, cur)
    ensures cur == branch ==> ParentVerdict(t, branch, parent) == Cyclic
    ensures cur != branch && !Live(t, cur) ==> ParentVerdict(t, branch, parent) == ParentMissing
    ensures WalkUp(t, branch, parent, 1 + steps) == WalkUp(t, branch, cur, 1)
  {
    assert WalkUp(t, branch, parent, 1 + steps) == WalkUp(t, branch, cur, 1);
    if WalkUp(t, branch, parent, 1 + steps) != Running {
      FateIsVerdict(t, branch, parent, 1 + steps);
    }
  }

  lemma ArrivesNext(t: Table, branch: Id, start: Id, steps: nat, cur: Id)
    requires Arrives(t, branch, start, steps, cur)
    requires cur != branch && Live(t, cur) && t[cur].parent.Some?
    ensures Arrives(t, branch, start, steps + 1, t[cur].parent.value)
  {
    forall m: nat | m >= steps + 1
      ensures WalkUp(t, branch, start, m) == WalkUp(t, branch, t[cur].parent.value, m - (steps + 1))
    {
      assert WalkUp(t, branch, start, m) == WalkUp(t, branch, cur, m - steps);
    }
  }

  lemma TrailStep(t: Table, branch: Id, parent: Id, at: map<Id, nat>, steps: nat, cur: Id)
    requires Trail(t, branch, parent, at, steps, cur)
    requires cur != branch && cur !in at && Live(t, cur) && t[cur].parent.Some?
    ensures Trail(t, branch, parent, at[cur := steps], steps + 1, t[cur].parent.value)
  {
    ArrivesNext(t, branch, parent, steps, cur);
    ArrivesNext(t, branch, cur, 0, cur);
    forall v | v in at ensures Arrives(t, branch, v, steps + 1 - at[v], t[cur].parent.value) {
      ArrivesNext(t, branch, v, steps - at[v], cur);
    }
  }

  /** A walk that comes back to a visited row is cyclic. */
  lemma RevisitIsCyclic(t: Table, branch: Id, parent: Id, cur: Id, steps: nat, d: nat)
    requires d > 0 && Arrives(t, branch, cur, d, cur) && Arrives(t, branch, parent, steps, cur)
    ensures ParentVerdict(t, branch, parent) == Cyclic
  {
    forall n: nat ensures WalkUp(t, branch, parent, n) == Running {
      LoopNeverEnds(t, branch, cur, d, n);
      if WalkUp(t, branch, parent, n) != Running {
        WalkUpSettles(t, branch, parent, n, n + steps);
      }
    }
  }

  /** The table with the rows met so far relevelled. */
  ghost function Painted(t: Table, root: Id, depth: map<Id, nat>, top: int): Table {
    map x | x in t :: if x in depth && x != root then t[x].(level := top + depth[x]) else t[x]
  }

  ghost function WithLevel(t: Table, kids: seq<Id>, level: int): Table {
    map x | x in t :: if x in kids then t[x].(level := level) else t[x]
  }

  function Pairs(kids: seq<Id>, level: int): seq<(Id, int)> {
    seq(|kids|, i requires 0 <= i < |kids| => (kids[i], level))
  }

  lemma PaintedChildren(t: Table, root: Id, depth: map<Id, nat>, top: int, p: Id)
    ensures Children(Painted(t, root, depth, top), p) == Children(t, p)
  {
    var u := Painted(t, root, depth, top);
    forall c ensures c in Children(u, p) <==> c in Children(t, p) {
    }
  }

  lemma PaintKids(t: Table, now: Table, root: Id, depth: map<Id, nat>, top: int, p: Id, level: int, kids: seq<Id>)
    requires p in depth && root in depth && level == top + depth[p]
    requires forall c :: c in kids ==> c !in depth
    requires now == Painted(t, root, depth, top)
    ensures WithLevel(now, kids, level + 1) == Painted(t, root, WithKids(depth, p, kids), top)
  {
  }

  /** A call that succeeds stores its result and reports no error; one that fails stores nothing. */
  ghost predicate Stored<T>(result: Result<T, Error>, before: T, after: T, error: Option<Error>) {
    match result
    case Ok(value) => error == None && after == value
    case Err(e) => error == Some(e) && after == before
  }

  class Service {
    var branches: Table
    var users: Assignments
    const hq: HqConfig

    constructor (hq: HqConfig)
      ensures branches == map[] && users == map[] && this.hq == hq
    {
      this.hq := hq;
      branches, users := map[], map[];
    }

    ghost function Now(): State
      reads this
    {
      State(branches, users)
    }

    /** `find({ parent_id, isDeleted: false })`, in the order the database happens to choose. */
    method FindChildren(parent: Id) returns (kids: seq<Id>)
      ensures Lists(kids, Children(branches, parent))
    {
      kids := InSomeOrder(Children(branches, parent));
    }

    method FindHq() returns (row: Option<Id>)
      ensures HqAnswer(branches, row)
    {
      var hqs := set x | x in branches && LiveHq(branches, x);
      if hqs == {} {
        row := None;
        forall x | x in branches ensures !LiveHq(branches, x) {
          assert x !in hqs;
        }
      } else {
        var x :| x in hqs;
        row := Some(x);
      }
    }

    /** Climbs from `parentId` with a set of visited rows; ends on any table, cyclic ones included. */
    method EnsureNotCyclicParent(branchId: Id, parentId: Id) returns (verdict: Verdict)
      ensures verdict == ParentVerdict(branches, branchId, parentId)
    {
      ghost var t := branches;
      if branchId == parentId {
        FateIsVerdict(t, branchId, parentId, 1);
        return Cyclic;
      }
      var visited: set<Id> := {};
      var current := Some(parentId);
      ghost var steps: nat := 0;
      ghost var at: map<Id, nat> := map[];
      while current.Some?
        invariant visited <= t.Keys && visited == at.Keys
        invariant current.Some? ==> Trail(t, branchId, parentId, at, steps, current.value)
        invariant current.None? ==> WalkUp(t, branchId, parentId, steps) == ReachesTop
        decreases t.Keys - visited, current.Some?
      {
        var id := current.value;
        TrailFate(t, branchId, parentId, at, steps, id);
        if id == branchId {
          return Cyclic;
        }
        if id in visited {
          return Cyclic;
        }
        visited := visited + {id};
        if !Live(branches, id) {
          return ParentMissing;
        }
        current := branches[id].parent;
        if current.Some? {
          TrailStep(t, branchId, parentId, at, steps, id);
        }
        at := at[id := steps];
        steps := steps + 1;
      }
      FateIsVerdict(t, branchId, parentId, steps);
      return Accepted;
    }

    /** The inner loop of the rebalance: save each child whose level is off, and queue every child. */
    method RelevelChildren(kids: seq<Id>, level: int, queue: seq<(Id, int)>) returns (longer: seq<(Id, int)>)
      requires Distinct(kids) && forall c :: c in kids ==> c in branches
      modifies this`branches
      ensures branches == WithLevel(old(branches), kids, level)
      ensures longer == queue + Pairs(kids, level)
    {
      ghost var t := branches;
      longer := queue;
      for i := 0 to |kids|
        invariant branches == WithLevel(t, kids[..i], level)
        invariant longer == queue + Pairs(kids[..i], level)
      {
        var child := kids[i];
        assert kids[..i + 1] == kids[..i] + [child];
        if branches[child].level != level {
          branches := branches[child := branches[child].(level := level)];
        }
        longer := longer + [(child, level)];
      }
      assert kids[..|kids|] == kids;
    }

    /** Breadth first and without a visited set. It ends because `rootId` is off every cycle. */
    method RebalanceDescendantLevels(rootId: Id, rootLevel: int)
      requires OffCycle(branches, rootId)
      modifies this`branches
      ensures branches == Relevelled(old(branches), rootId, rootLevel)
    {
      ghost var t := branches;
      var queue := [(rootId, rootLevel)];
      ghost var depth: map<Id, nat> := map[rootId := 0];
      ghost var done: set<Id>, ids := {}, [rootId];
      RebalancingStart(t, rootId, rootLevel);
      while |queue| > 0
        invariant Rebalancing(t, branches, rootId, rootLevel, depth, done, ids, queue)
        decreases t.Keys + {rootId} - done
      {
        var (parent, level) := queue[0];
        var kids := FindChildren(parent);
        RebalancingStep(t, branches, rootId, rootLevel, depth, done, ids, queue, parent, level, kids);
        queue := RelevelChildren(kids, level + 1, queue[1..]);
        depth, done, ids := WithKids(depth, parent, kids), done + {parent}, ids[1..] + kids;
      }
      RebalancingDone(t, branches, rootId, rootLevel, depth, done, ids, queue);
    }

    method EnsureHqBranch(newId: Id, now: int) returns (error: Option<Error>, ghost hqRow: Option<Id>)
      requires CodesUnique(branches) && newId !in branches
      modifies this`branches
      ensures HqAnswer(old(branches), hqRow)
      ensures Stored(StartupResult(old(branches), hq, newId, hqRow, now), old(branches), branches, error)
    {
      var anyHq := FindHq();
      hqRow := anyHq;
      var byCode := set x | x in branches && CarriesCode(branches, x, hq.code);
      if byCode != {} {
        var x :| x in byCode;
        assert forall y :: CarriesCode(branches, y, hq.code) ==> y == x;
        ghost var repaired := branches[x := branches[x].(kind := HQ, level := 0, parent := None)];
        if branches[x].kind != HQ || branches[x].level != 0 || branches[x].parent != None {
          branches := branches[x := branches[x].(kind := HQ, level := 0, parent := None)];
        }
        assert branches == repaired;
        return None, hqRow;
      }
      assert forall x :: CarriesCode(branches, x, hq.code) ==> x in byCode;
      if anyHq.Some? {
        var row := branches[anyHq.value];
        if row.code.None? {
          row := row.(code := Some(hq.code));
        }
        if row.parent != None || row.level != 0 {
          row := row.(parent := None, level := 0);
        }
        if branches[anyHq.value].code.None? && CodeStored(branches, hq.code, anyHq) {
          return Some(UniqueIndex), hqRow;
        }
        branches := branches[anyHq.value := row];
        return None, hqRow;
      }
      if CodeStored(branches, hq.code, None) || NameTaken(branches, hq.name, None) {
        return Some(UniqueIndex), hqRow;
      }
      branches := branches[newId := Branch(hq.name, hq.details, None, HQ, 0, Some(hq.code), ACTIVE, now, false)];
      return None, hqRow;
    }

    method CreateBranch(dto: CreateDto, newId: Id, now: int) returns (r: Result<Branch, Error>, ghost hqRow: Option<Id>)
      requires newId !in branches
      modifies this`branches
      ensures HqAnswer(old(branches), hqRow)
      ensures r == CreateResult(old(branches), dto, hqRow, now)
      ensures branches == if r.Ok? then old(branches)[newId := r.value] else old(branches)
    {
      var existingHq := FindHq();
      hqRow := existingHq;
      if dto.name == "" { return Err(BadRequest), hqRow; }
      if NameTaken(branches, dto.name, None) { return Err(Conflict), hqRow; }
      if dto.kind.None? { return Err(BadRequest), hqRow; }
      if !CodeWellFormed(dto.code) { return Err(BadRequest), hqRow; }
      if CodeTaken(branches, dto.code, None) { return Err(Conflict), hqRow; }
      var level := 0;
      if dto.kind.value == HQ {
        if dto.parent.Some? { return Err(BadRequest), hqRow; }
        if existingHq.Some? { return Err(Conflict), hqRow; }
      } else {
        if dto.parent.None? { return Err(BadRequest), hqRow; }
        if !Live(branches, dto.parent.value) { return Err(NotFound), hqRow; }
        level := branches[dto.parent.value].level + 1;
      }
      if CodeStored(branches, dto.code, None) { return Err(UniqueIndex), hqRow; }
      var saved := Branch(dto.name, dto.details, dto.parent, dto.kind.value, level, Some(dto.code), ACTIVE, now, false);
      branches := branches[newId := saved];
      return Ok(saved), hqRow;
    }

    /** The first checks of an update, and the row with its new name, details and code and the type it is to
        get. */
    method Describe(id: Id, dto: UpdateDto) returns (error: Option<Error>, row: Branch, kind: BranchType)
      requires Live(branches, id)
      ensures error == UpdateHeadError(branches, id, dto)
      ensures error.None? ==> kind == NextKind(branches, id, dto)
      ensures error.None? ==> row == branches[id].(name := if dto.name.Some? then dto.name.value else branches[id].name,
                                                   details := if dto.details.Some? then dto.details.value else branches[id].details,
                                                   code := if dto.code.Some? then dto.code else branches[id].code)
    {
      row, kind := branches[id], branches[id].kind;
      if dto.name.Some? {
        if dto.name.value == "" { return Some(BadRequest), row, kind; }
        if dto.name.value != row.name && NameTaken(branches, dto.name.value, Some(id)) { return Some(Conflict), row, kind; }
        row := row.(name := dto.name.value);
      }
      if dto.details.Some? { row := row.(details := dto.details.value); }
      if dto.kind.Some? {
        if dto.kind.value.None? { return Some(BadRequest), row, kind; }
        kind := dto.kind.value.value;
      }
      if dto.code.Some? {
        if !CodeWellFormed(dto.code.value) { return Some(BadRequest), row, kind; }
        if CodeTaken(branches, dto.code.value, Some(id)) { return Some(Conflict), row, kind; }
        row := row.(code := dto.code);
      }
      return None, row, kind;
    }

    /** Where the row may hang, with the level that goes with it. */
    method Place(id: Id, dto: UpdateDto, kind: BranchType) returns (place: Result<(Option<Id>, int), Error>, ghost hqRow: Option<Id>)
      requires Live(branches, id) && kind == NextKind(branches, id, dto)
      ensures HqAnswer(branches, hqRow)
      ensures place == Placement(branches, id, dto, hqRow)
      ensures place.Ok? && place.value.0.Some? ==> ParentVerdict(branches, id, place.value.0.value) == Accepted
    {
      var existingHq := FindHq();
      hqRow := existingHq;
      var nextParent := if dto.parent.Some? then dto.parent.value else branches[id].parent;
      if kind == HQ {
        if nextParent.Some? { return Err(BadRequest), hqRow; }
        if existingHq.Some? && existingHq.value != id { return Err(Conflict), hqRow; }
        return Ok((None, 0)), hqRow;
      }
      if nextParent.None? { return Err(BadRequest), hqRow; }
      var verdict := EnsureNotCyclicParent(id, nextParent.value);
      if verdict == Cyclic { return Err(BadRequest), hqRow; }
      if verdict == ParentMissing { return Err(NotFound), hqRow; }
      if !Live(branches, nextParent.value) { return Err(NotFound), hqRow; }
      return Ok((nextParent, branches[nextParent.value].level + 1)), hqRow;
    }

    method UpdateBranch(who: Requester, id: Id, dto: UpdateDto) returns (error: Option<Error>, ghost hqRow: Option<Id>)
      modifies this`branches
      ensures HqAnswer(old(branches), hqRow)
      ensures Stored(UpdateResult(old(Now()), who, id, dto, hqRow), old(branches), branches, error)
    {
      var anyHq := FindHq();
      hqRow := anyHq;
      if !CanWrite(users, who, id) { return Some(Forbidden), hqRow; }
      if !Live(branches, id) { return Some(NotFound), hqRow; }
      var row := branches[id];
      var head, kind;
      head, row, kind := Describe(id, dto);
      if head.Some? { return head, hqRow; }
      var place;
      place, hqRow := Place(id, dto, kind);
      if place.Err? { return Some(place.error), hqRow; }
      row := row.(parent := place.value.0, level := place.value.1, kind := kind);
      if dto.status.Some? {
        if dto.status.value.Unparsable? { return Some(BadRequest), hqRow; }
        if dto.status.value.Parsed? { row := row.(status := dto.status.value.status); }
      }
      if dto.code.Some? && CodeStored(branches, dto.code.value, Some(id)) { return Some(UniqueIndex), hqRow; }
      assert row == UpdatedRow(branches, id, dto, place.value);
      AcceptedIsOffCycle(branches, id, row);
      branches := branches[id := row];
      RebalanceDescendantLevels(id, row.level);
      return None, hqRow;
    }

    method DeleteBranch(who: Requester, id: Id, reply: DeleteReply) returns (error: Option<Error>)
      modifies this`branches
      ensures Stored(DeleteResult(old(Now()), who, id, reply), old(branches), branches, error)
    {
      if !CanWrite(users, who, id) { return Some(Forbidden); }
      if !Live(branches, id) { return Some(NotFound); }
      if |Children(branches, id)| > 0 { return Some(BadRequest); }
      if exists r :: r in users && Active(users, r) && users[r].branch == id { return Some(BadRequest); }
      if reply.Unreachable? { return Some(BadRequest); }
      if reply.Counts? && (reply.orders > 0 || reply.batches > 0) { return Some(BadRequest); }
      branches := branches[id := branches[id].(deleted := true, status := INACTIVE)];
      return None;
    }

    method AssignUser(who: Requester, branch: Id, user: UserId, asked: Option<Role>, reply: UserReply, newId: RowId)
      returns (error: Option<Error>, ghost pairRow: Option<RowId>)
      requires newId !in users
      modifies this`users
      ensures PairAnswer(old(users), branch, user, pairRow)
      ensures Stored(AssignResult(old(Now()), who, branch, user, asked, reply, pairRow, newId), old(users), users, error)
    {
      var pairs := set r | r in users && users[r].branch == branch && users[r].user == user;
      var existing := None;
      if pairs != {} {
        var r :| r in pairs;
        existing := Some(r);
      } else {
        assert forall r :: r in users && users[r].branch == branch && users[r].user == user ==> r in pairs;
      }
      pairRow := existing;
      if !CanWrite(users, who, branch) { return Some(Forbidden), pairRow; }
      if !Live(branches, branch) { return Some(NotFound), pairRow; }
      match reply {
        case UnknownUser => return Some(NotFound), pairRow;
        case IdentityDown => return Some(BadGateway), pairRow;
        case Found(None) => return Some(BadRequest), pairRow;
        case Found(Some(role)) =>
          if asked.Some? && asked.value != role { return Some(BadRequest), pairRow; }
          if role == COURIER {
            if branches[branch].kind == PICKUP { return Some(Forbidden), pairRow; }
            if !who.privileged && !ManagesBranch(users, who, branch) { return Some(Forbidden), pairRow; }
          }
          if AssignedElsewhere(users, branch, user) { return Some(Conflict), pairRow; }
          if existing.Some? && !users[existing.value].deleted { return Some(Conflict), pairRow; }
          if exists r :: r in users && ActiveFor(users, r, user) { return Some(UniqueIndex), pairRow; }
          if existing.Some? {
            users := users[existing.value := users[existing.value].(deleted := false, role := role)];
          } else {
            users := users[newId := Assignment(branch, user, role, false)];
          }
          return None, pairRow;
      }
    }

    method RemoveUser(who: Requester, branch: Id, user: UserId) returns (error: Option<Error>)
      requires OneActiveRowPerUser(users)
      modifies this`users
      ensures Stored(RemoveResult(old(Now()), who, branch, user), old(users), users, error)
    {
      if !CanWrite(users, who, branch) { return Some(Forbidden); }
      var rows := set r | r in users && ActivePair(users, r, branch, user);
      if rows == {} {
        assert forall r :: ActivePair(users, r, branch, user) ==> r in rows;
        return Some(NotFound);
      }
      var row :| row in rows;
      assert ActivePair(users, row, branch, user);
      users := users[row := users[row].(deleted := true)];
      return None;
    }
  }

  /** The loop invariant of the rebalance: a frontier over the table as it was, its queue with the
      levels attached, and the table as it is now. */
  ghost predicate Rebalancing(t: Table, now: Table, root: Id, top: int, depth: map<Id, nat>, done: set<Id>,
                              ids: seq<Id>, queue: seq<(Id, int)>) {
    && Frontier(t, root, depth, done, ids)
    && Queued(queue, ids, depth, top)
    && now == Painted(t, root, depth, top)
  }

  lemma RebalancingStart(t: Table, root: Id, top: int)
    ensures Rebalancing(t, t, root, top, map[root := 0], {}, [root], [(root, top)])
  {
    FrontierStart(t, root);
  }

  lemma PaintedIsRelevelled(t: Table, root: Id, top: int, depth: map<Id, nat>)
    requires forall x :: Under(t, root, x) <==> x in depth && x != root
    requires forall x :: Under(t, root, x) ==> DepthUnder(t, root, x) == depth[x]
    ensures Painted(t, root, depth, top) == Relevelled(t, root, top)
  {
    forall x | x in t ensures Painted(t, root, depth, top)[x] == Relevelled(t, root, top)[x] {
    }
  }

  lemma RebalancingDone(t: Table, now: Table, root: Id, top: int, depth: map<Id, nat>, done: set<Id>,
                        ids: seq<Id>, queue: seq<(Id, int)>)
    requires Rebalancing(t, now, root, top, depth, done, ids, queue) && OffCycle(t, root) && queue == []
    ensures now == Relevelled(t, root, top)
  {
    assert ids == [];
    FrontierIsUnder(t, root, depth, done);
    PaintedIsRelevelled(t, root, top, depth);
  }

  lemma RebalancingStep(t: Table, now: Table, root: Id, top: int, depth: map<Id, nat>, done: set<Id>,
                        ids: seq<Id>, queue: seq<(Id, int)>, p: Id, level: int, kids: seq<Id>)
    requires Rebalancing(t, now, root, top, depth, done, ids, queue) && OffCycle(t, root)
    requires |queue| > 0 && queue[0] == (p, level) && Lists(kids, Children(now, p))
    ensures p in depth && p !in done && p in t.Keys + {root}
    ensures forall c :: c in kids ==> c in now
    ensures Rebalancing(t, WithLevel(now, kids, level + 1), root, top, WithKids(depth, p, kids), done + {p},
                        ids[1..] + kids, queue[1..] + Pairs(kids, level + 1))
  {
    HeadOfQueue(t, root, top, depth, done, ids, queue, p, level);
    PaintedChildren(t, root, depth, top, p);
    assert Children(now, p) == Children(t, p);
    FrontierStep(t, root, depth, done, ids, kids);
    PaintKids(t, now, root, depth, top, p, level, kids);
    QueuedStep(queue, ids, depth, top, p, level, kids);
    var now', depth' := WithLevel(now, kids, level + 1), WithKids(depth, p, kids);
    var done', ids', queue' := done + {p}, ids[1..] + kids, queue[1..] + Pairs(kids, level + 1);
    assert Frontier(t, root, depth', done', ids');
    assert Queued(queue', ids', depth', top);
    assert now' == Painted(t, root, depth', top);
    assert Rebalancing(t, now', root, top, depth', done', ids', queue');
    forall c | c in kids ensures c in now {
      assert c in Children(now, p);
    }
  }

  lemma HeadOfQueue(t: Table, root: Id, top: int, depth: map<Id, nat>, done: set<Id>, ids: seq<Id>,
                    queue: seq<(Id, int)>, p: Id, level: int)
    requires Frontier(t, root, depth, done, ids) && Queued(queue, ids, depth, top)
    requires |queue| > 0 && queue[0] == (p, level)
    ensures p == ids[0] && level == top + depth[p]
    ensures p in depth && p !in done && p in t.Keys + {root} && root in depth
  {
    assert ids[0] in ids;
    FrontierBounded(t, root, depth, done, ids);
  }

  /** The queue of pairs holds the waiting ids with their expected levels. */
  ghost predicate Queued(queue: seq<(Id, int)>, ids: seq<Id>, depth: map<Id, nat>, top: int) {
    && |queue| == |ids|
    && forall i :: 0 <= i < |ids| ==> ids[i] in depth && queue[i] == (ids[i], top + depth[ids[i]])
  }

  lemma QueuedStep(queue: seq<(Id, int)>, ids: seq<Id>, depth: map<Id, nat>, top: int, p: Id, level: int, kids: seq<Id>)
    requires Queued(queue, ids, depth, top) && |ids| > 0
    requires p in depth && level == top + depth[p]
    requires forall c :: c in kids ==> c !in depth
    ensures Queued(queue[1..] + Pairs(kids, level + 1), ids[1..] + kids, WithKids(depth, p, kids), top)
  {
  }
}
