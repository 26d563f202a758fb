/** What each request on the branches does, said in the fields of the request and of the rows alone. */
module BranchRequests {
  import opened Prelude
  import opened BranchTable
  import opened BranchWalks
  import opened BranchRules

  /** The caller may write the branch: a privileged one, or one with an active manager row there. */
  ghost predicate Writer(users: Assignments, who: Requester, branch: Id) {
    who.privileged
    || exists r :: r in users && !users[r].deleted && users[r].role == MANAGER && users[r].branch == branch
                   && who.id == Some(users[r].user)
  }

  lemma WriterMayWrite(users: Assignments, who: Requester, branch: Id)
    ensures CanWrite(users, who, branch) <==> Writer(users, who, branch)
    ensures ManagesBranch(users, who, branch) <==> Writer(users, who.(privileged := false), branch)
  {
    if ManagesBranch(users, who, branch) {
      var r :| r in users && ActiveFor(users, r, who.id.value) && users[r].branch == branch && users[r].role.MANAGER?;
    }
    if r :| r in users && !users[r].deleted && users[r].role == MANAGER && users[r].branch == branch
            && who.id == Some(users[r].user) {
      assert ActiveFor(users, r, who.id.value);
    }
    if who.id.Some? && branch in WritableBranches(users, who.id.value) {
      var r :| r in users && ActiveFor(users, r, who.id.value) && users[r].role.MANAGER? && users[r].branch == branch;
    }
    if !who.privileged && Writer(users, who, branch) {
      var r :| r in users && !users[r].deleted && users[r].role == MANAGER && users[r].branch == branch
               && who.id == Some(users[r].user);
      assert ActiveFor(users, r, who.id.value);
    }
  }

  /** Capital letters, digits and dashes, 2 to 32 of them. */
  ghost predicate CodeShape(code: string) {
    2 <= |code| <= 32 && forall c :: c in code ==> 'A' <= c <= 'Z' || '0' <= c <= '9' || c == '-'
  }

  lemma ShapeIsWellFormed(code: string)
    ensures CodeWellFormed(code) <==> CodeShape(code)
  {
    if CodeShape(code) {
      forall i | 0 <= i < |code| ensures CodeChar(code[i]) {
        assert code[i] in code;
      }
    }
  }

  ghost predicate NameFree(t: Table, name: string, except: Option<Id>) {
    forall x :: x in t && !t[x].deleted && Some(x) != except ==> t[x].name != name
  }

  /** No row, deleted ones included, has the code. */
  ghost predicate CodeFree(t: Table, code: string, except: Option<Id>) {
    forall x :: x in t && Some(x) != except ==> t[x].code != Some(code)
  }

  lemma FreeIsNotTaken(t: Table, name: string, code: string, except: Option<Id>)
    ensures NameFree(t, name, except) <==> !NameTaken(t, name, except)
    ensures CodeFree(t, code, except) <==> !CodeStored(t, code, except)
    ensures CodeFree(t, code, except) ==> !CodeTaken(t, code, except)
  {
  }

  // ---- Create ------------------------------------------------------------------------------------

  /** A creation is accepted exactly when its name and code are free and well formed, its type is known,
      and it is the first HQ without a parent or a lesser branch under a live one; it stores the row asked
      for, active, one level below that parent. */
  lemma CreateDoesAsAsked(t: Table, dto: CreateDto, hqRow: Option<Id>, now: int)
    requires HqAnswer(t, hqRow)
    ensures var r := CreateResult(t, dto, hqRow, now);
            && (r.Ok? <==>
                  && dto.name != "" && NameFree(t, dto.name, None)
                  && CodeShape(dto.code) && CodeFree(t, dto.code, None)
                  && dto.kind.Some?
                  && if dto.kind == Some(HQ) then dto.parent == None && forall x :: x in t ==> t[x].deleted || t[x].kind != HQ
                     else dto.parent.Some? && dto.parent.value in t && !t[dto.parent.value].deleted)
            && (r.Ok? ==>
                  && r.value.name == dto.name && r.value.details == dto.details && r.value.code == Some(dto.code)
                  && Some(r.value.kind) == dto.kind && r.value.parent == dto.parent
                  && r.value.level == (if dto.parent.Some? then t[dto.parent.value].level + 1 else 0)
                  && r.value.status == ACTIVE && r.value.createdAt == now && !r.value.deleted)
  {
    ShapeIsWellFormed(dto.code);
    FreeIsNotTaken(t, dto.name, dto.code, None);
  }

  // ---- Update ------------------------------------------------------------------------------------

  /** The value asked for, or the one there was. */
  ghost predicate AskedOrKept<T>(asked: Option<T>, before: T, after: T) {
    match asked
    case Some(value) => after == value
    case None => after == before
  }

  /** Where the changed row is asked to hang may be granted: nowhere for the HQ, and for any other branch
      under a chain of live rows that ends and does not pass the branch itself. */
  ghost predicate PlaceGranted(t: Table, id: Id, hqRow: Option<Id>, kind: BranchType, parent: Option<Id>) {
    match parent
    case None => kind == HQ && (hqRow == None || hqRow == Some(id))
    case Some(p) => kind != HQ && ChainReachesTop(t, p) && !OnChain(t, id, p)
  }

  /** An update is accepted exactly when the caller may write the branch, which is live, and every field
      asked for can be had. */
  lemma UpdateAcceptedWhen(s: State, who: Requester, id: Id, dto: UpdateDto, hqRow: Option<Id>)
    ensures var t := s.branches;
            UpdateResult(s, who, id, dto, hqRow).Ok? <==>
              && Writer(s.users, who, id) && id in t && !t[id].deleted
              && (dto.name.Some? ==> dto.name.value != "" && (dto.name.value == t[id].name || NameFree(t, dto.name.value, Some(id))))
              && (dto.code.Some? ==> CodeShape(dto.code.value) && CodeFree(t, dto.code.value, Some(id)))
              && dto.kind != Some(None) && dto.status != Some(Unparsable)
              && exists kind, parent ::
                   AskedOrKept(dto.kind, Some(t[id].kind), Some(kind)) && AskedOrKept(dto.parent, t[id].parent, parent)
                   && PlaceGranted(t, id, hqRow, kind, parent)
  {
    var t := s.branches;
    WriterMayWrite(s.users, who, id);
    if Live(t, id) {
      if dto.code.Some? {
        ShapeIsWellFormed(dto.code.value);
        FreeIsNotTaken(t, "", dto.code.value, Some(id));
      }
      if dto.name.Some? {
        FreeIsNotTaken(t, dto.name.value, "", Some(id));
      }
      if dto.kind != Some(None) {
        PlacementGranted(t, id, dto, hqRow);
      }
    }
  }

  lemma PlacementGranted(t: Table, id: Id, dto: UpdateDto, hqRow: Option<Id>)
    requires Live(t, id) && dto.kind != Some(None)
    ensures Placement(t, id, dto, hqRow).Ok? <==>
              exists kind, parent ::
                AskedOrKept(dto.kind, Some(t[id].kind), Some(kind)) && AskedOrKept(dto.parent, t[id].parent, parent)
                && PlaceGranted(t, id, hqRow, kind, parent)
  {
    var kind := if dto.kind.Some? then dto.kind.value.value else t[id].kind;
    var parent := if dto.parent.Some? then dto.parent.value else t[id].parent;
    assert AskedOrKept(dto.kind, Some(t[id].kind), Some(kind)) && AskedOrKept(dto.parent, t[id].parent, parent);
    if parent.Some? {
      AcceptedMeaning(t, id, parent.value);
      TopIsLive(t, parent.value);
    }
  }

  lemma TopIsLive(t: Table, p: Id)
    ensures ChainReachesTop(t, p) ==> Live(t, p)
  {
  }

  /** An accepted update, on any table, stores what was asked and keeps the rest: the branch hangs where the
      request says, one level below that parent, and every other field is the requested one where given and
      the old one where not. */
  lemma UpdateDoesAsAsked(s: State, who: Requester, id: Id, dto: UpdateDto, hqRow: Option<Id>)
    requires UpdateResult(s, who, id, dto, hqRow).Ok?
    ensures var t, v := s.branches, UpdateResult(s, who, id, dto, hqRow).value;
            && v.Keys == t.Keys && id in t && !t[id].deleted && !v[id].deleted
            && AskedOrKept(dto.parent, t[id].parent, v[id].parent)
            && AskedOrKept(dto.kind, Some(t[id].kind), Some(v[id].kind))
            && AskedOrKept(dto.name, t[id].name, v[id].name)
            && AskedOrKept(dto.details, t[id].details, v[id].details)
            && (if dto.code.Some? then v[id].code == dto.code else v[id].code == t[id].code)
            && (match dto.status
                case Some(Parsed(status)) => v[id].status == status
                case _ => v[id].status == t[id].status)
            && v[id].createdAt == t[id].createdAt
            && (match v[id].parent
                case None => v[id].level == 0
                case Some(p) => ChildOf(v, id, p) && p in v && !v[p].deleted && v[id].level == v[p].level + 1)
  {
    var t := s.branches;
    var place := Placement(t, id, dto, hqRow).value;
    var row := UpdatedRow(t, id, dto, place);
    AcceptedIsOffCycle(t, id, row);
    var u := t[id := row];
    assert !Under(u, id, id);
    if row.parent.Some? {
      var p := row.parent.value;
      AcceptedMeaning(t, id, p);
      NewParentNotUnder(t, id, row, p);
    }
  }

  lemma NewParentNotUnder(t: Table, id: Id, row: Branch, p: Id)
    requires Live(t, id) && !row.deleted && !OnChain(t, id, p)
    ensures p != id && !Under(t[id := row], id, p)
  {
    var u := t[id := row];
    assert Below(t, id, id, 0);
    if Under(u, id, p) {
      ReachedInNewReachedInOld(t, u, id, p, DepthUnder(u, id, p));
      assert false;
    }
  }

  // ---- Delete ------------------------------------------------------------------------------------

  /** A deletion is accepted exactly when the caller may write the live branch, it has no live child and no
      active user, and the order service answers without pending orders or batches; it marks the one row. */
  lemma DeleteDoesAsAsked(s: State, who: Requester, id: Id, reply: DeleteReply)
    ensures var t, r := s.branches, DeleteResult(s, who, id, reply);
            && (r.Ok? <==>
                  && Writer(s.users, who, id) && id in t && !t[id].deleted
                  && (forall c :: c in t && !t[c].deleted ==> t[c].parent != Some(id))
                  && (forall u :: u in s.users && !s.users[u].deleted ==> s.users[u].branch != id)
                  && (reply == NoData || reply == Counts(0, 0)))
            && (r.Ok? ==>
                  && r.value.Keys == t.Keys && r.value[id] == t[id].(deleted := true, status := INACTIVE)
                  && forall x :: x in t && x != id ==> r.value[x] == t[x])
  {
    WriterMayWrite(s.users, who, id);
    assert Children(s.branches, id) == {} <==> forall c :: c in s.branches ==> c !in Children(s.branches, id);
  }

  // ---- Assign and remove -------------------------------------------------------------------------

  ghost predicate ActiveRow(users: Assignments, r: RowId, branch: Id, user: UserId, role: Role) {
    r in users && users[r] == Assignment(branch, user, role, false)
  }

  /** An assignment is accepted exactly when the caller may write the live branch, the identity service
      names a branch role that agrees with the one asked for, a courier is not put in a pickup point, and the
      user has no active row; it leaves one active row with that role, in the place of a removed one if
      there is one. The further check on who places couriers refuses nobody that got this far. */
  lemma AssignDoesAsAsked(s: State, who: Requester, branch: Id, user: UserId, asked: Option<Role>, reply: UserReply,
                          pairRow: Option<RowId>, newId: RowId)
    requires PairAnswer(s.users, branch, user, pairRow) && newId !in s.users
    ensures var r := AssignResult(s, who, branch, user, asked, reply, pairRow, newId);
            && (r.Ok? <==>
                  && Writer(s.users, who, branch) && branch in s.branches && !s.branches[branch].deleted
                  && reply.Found? && reply.role.Some? && (asked == None || asked == reply.role)
                  && (reply.role == Some(COURIER) ==> s.branches[branch].kind != PICKUP)
                  && forall q :: q in s.users && !s.users[q].deleted ==> s.users[q].user != user)
            && (r.Ok? ==>
                  var row := if pairRow.Some? then pairRow.value else newId;
                  && r.value.Keys == s.users.Keys + {row} && ActiveRow(r.value, row, branch, user, reply.role.value)
                  && forall q :: q in s.users && q != row ==> r.value[q] == s.users[q])
  {
    WriterMayWrite(s.users, who, branch);
    if !who.privileged && Writer(s.users, who, branch) {
      var m :| m in s.users && !s.users[m].deleted && s.users[m].role == MANAGER && s.users[m].branch == branch
               && who.id == Some(s.users[m].user);
      assert ActiveFor(s.users, m, who.id.value);
      assert ManagesBranch(s.users, who, branch);
    }
    assert forall q :: q in s.users ==> (ActiveFor(s.users, q, user) <==> !s.users[q].deleted && s.users[q].user == user);
  }

  /** Why an assignment that nothing else stands against is refused: a conflict when the user is active on
      another branch, or active in the very row of the pair; and by the unique index when another row of
      the user is active. */
  lemma AssignRefusedAsTaken(s: State, who: Requester, branch: Id, user: UserId, role: Role, pairRow: Option<RowId>, newId: RowId)
    requires PairAnswer(s.users, branch, user, pairRow) && newId !in s.users
    requires Writer(s.users, who, branch) && branch in s.branches && !s.branches[branch].deleted
    requires role == COURIER ==> s.branches[branch].kind != PICKUP
    ensures var r := AssignResult(s, who, branch, user, None, Found(Some(role)), pairRow, newId);
            var taken := exists q :: q in s.users && !s.users[q].deleted && s.users[q].user == user;
            var elsewhere := exists q :: q in s.users && !s.users[q].deleted && s.users[q].user == user && s.users[q].branch != branch;
            && (r.Err? <==> taken)
            && (taken ==> r == Err(if elsewhere || (pairRow.Some? && !s.users[pairRow.value].deleted) then Conflict else UniqueIndex))
  {
    WriterMayWrite(s.users, who, branch);
    assert forall q :: q in s.users ==> (ActiveFor(s.users, q, user) <==> !s.users[q].deleted && s.users[q].user == user);
  }

  /** A removal is accepted exactly when the caller may write the branch and the user has an active row
      there; it marks that row. */
  lemma RemoveDoesAsAsked(s: State, who: Requester, branch: Id, user: UserId, row: RowId)
    requires OneActiveRowPerUser(s.users)
    ensures var r := RemoveResult(s, who, branch, user);
            && (r.Ok? <==> Writer(s.users, who, branch) && exists q, role :: ActiveRow(s.users, q, branch, user, role))
            && (r.Ok? && row in s.users ==>
                  && r.value.Keys == s.users.Keys
                  && r.value[row] == if ActiveRow(s.users, row, branch, user, s.users[row].role) then s.users[row].(deleted := true)
                                     else s.users[row])
  {
    WriterMayWrite(s.users, who, branch);
    var r := RemoveResult(s, who, branch, user);
    if q :| ActivePair(s.users, q, branch, user) {
      assert ActiveRow(s.users, q, branch, user, s.users[q].role);
    }
    if q, role :| ActiveRow(s.users, q, branch, user, role) {
      assert ActivePair(s.users, q, branch, user);
    }
    if r.Ok? && row in s.users {
      var q :| ActivePair(s.users, q, branch, user) && r.value == s.users[q := s.users[q].(deleted := true)];
      assert Active(s.users, q);
      assert Active(s.users, row) <==> !s.users[row].deleted;
    }
  }

  // ---- Startup -----------------------------------------------------------------------------------

  lemma OneRowPerCode(t: Table, x: Id, y: Id, code: string)
    requires CodesUnique(t) && CarriesCode(t, x, code) && CarriesCode(t, y, code)
    ensures x == y
  {
    assert t[x].code.Some? && t[x].code == t[y].code;
  }

  /** The repair touches one row at most: a live one that carries the configured code becomes a top-level
      HQ; failing that, a live HQ is put at the top and given the code if it has none; failing that, a new
      HQ is made from the configuration, unless the code is stored already or the name in use. */
  lemma StartupDoesAsConfigured(t: Table, hq: HqConfig, newId: Id, hqRow: Option<Id>, now: int, x: Id)
    requires CodesUnique(t) && HqAnswer(t, hqRow) && newId !in t
    requires if exists y :: y in t && !t[y].deleted && t[y].code == Some(hq.code) then
               x in t && !t[x].deleted && t[x].code == Some(hq.code)
             else hqRow == Some(x) || (hqRow == None && x == newId)
    ensures var r := StartupResult(t, hq, newId, hqRow, now);
            && (x in t ==>
                  && (r.Err? <==> t[x].code == None && !CodeFree(t, hq.code, Some(x)))
                  && (r.Ok? ==>
                        && r.value.Keys == t.Keys
                        && r.value[x] == t[x].(kind := HQ, parent := None, level := 0,
                                               code := if t[x].code == None then Some(hq.code) else t[x].code)))
            && (x !in t ==>
                  && (r.Err? <==> !CodeFree(t, hq.code, None) || !NameFree(t, hq.name, None))
                  && (r.Ok? ==>
                        && r.value.Keys == t.Keys + {newId}
                        && r.value[newId] == Branch(hq.name, hq.details, None, HQ, 0, Some(hq.code), ACTIVE, now, false)))
            && (r.Ok? ==> forall y :: y in t && y != x ==> r.value[y] == t[y])
  {
    FreeIsNotTaken(t, hq.name, hq.code, None);
    FreeIsNotTaken(t, hq.name, hq.code, Some(x));
    if y :| y in t && !t[y].deleted && t[y].code == Some(hq.code) {
      assert CarriesCode(t, y, hq.code) && CarriesCode(t, x, hq.code);
      var z :| CarriesCode(t, z, hq.code) && StartupResult(t, hq, newId, hqRow, now)
                 == Ok(t[z := t[z].(kind := HQ, level := 0, parent := None)]);
      OneRowPerCode(t, x, z, hq.code);
    }
  }
}
