/** What each branch operation does to the stored rows, as functions of the state.

    A thrown exception and a refused unique index are both an `Err`, and leave the state alone. */
module BranchRules {
  import opened Prelude
  import opened BranchTable
  import opened BranchWalks

  type UserId = nat
  type RowId = nat

  datatype Role = MANAGER | REGISTRATOR | COURIER

  datatype Assignment = Assignment(branch: Id, user: UserId, role: Role, deleted: bool)

  type Assignments = map<RowId, Assignment>

  datatype State = State(branches: Table, users: Assignments)

  datatype Error = BadRequest | Forbidden | NotFound | Conflict | BadGateway | UniqueIndex

  /** `id` is absent for an anonymous caller; `privileged` covers superadmin and admin. */
  datatype Requester = Requester(privileged: bool, id: Option<UserId>)

  datatype HqConfig = HqConfig(code: string, name: string, details: string)

  // ---- Access -----------------------------------------------------------------------------------

  predicate Active(users: Assignments, r: RowId) {
    r in users && !users[r].deleted
  }

  predicate ActiveFor(users: Assignments, r: RowId, user: UserId) {
    Active(users, r) && users[r].user == user
  }

  /** The branches a non-privileged caller may write: those it manages. */
  function WritableBranches(users: Assignments, user: UserId): set<Id> {
    set r | r in users && ActiveFor(users, r, user) && users[r].role.MANAGER? :: users[r].branch
  }

  predicate CanWrite(users: Assignments, who: Requester, branch: Id) {
    who.privileged || (who.id.Some? && branch in WritableBranches(users, who.id.value))
  }

  // ---- Names and codes --------------------------------------------------------------------------

  predicate NameTaken(t: Table, name: string, except: Option<Id>) {
    exists x :: x in t && !t[x].deleted && t[x].name == name && Some(x) != except
  }

  predicate CodeTaken(t: Table, code: string, except: Option<Id>) {
    exists x :: x in t && !t[x].deleted && t[x].code == Some(code) && Some(x) != except
  }

  /** The unique index on `code` does not look at `is_deleted`. */
  predicate CodeStored(t: Table, code: string, except: Option<Id>) {
    exists x :: x in t && t[x].code == Some(code) && Some(x) != except
  }

  predicate CodeChar(c: char) {
    'A' <= c <= 'Z' || '0' <= c <= '9' || c == '-'
  }

  predicate CodeWellFormed(code: string) {
    2 <= |code| <= 32 && forall i :: 0 <= i < |code| ==> CodeChar(code[i])
  }

  // ---- Startup ----------------------------------------------------------------------------------

  predicate CarriesCode(t: Table, x: Id, code: string) {
    Live(t, x) && t[x].code == Some(code)
  }

  /** The row an unordered `findOne` of a live HQ hands back. */
  predicate HqAnswer(t: Table, row: Option<Id>) {
    match row
    case None => forall x :: x in t ==> !LiveHq(t, x)
    case Some(x) => LiveHq(t, x)
  }

  ghost function StartupResult(t: Table, hq: HqConfig, newId: Id, hqRow: Option<Id>, now: int): Result<Table, Error>
    requires HqAnswer(t, hqRow)
  {
    if exists x :: CarriesCode(t, x, hq.code) then
      var x :| CarriesCode(t, x, hq.code);
      Ok(t[x := t[x].(kind := HQ, level := 0, parent := None)])
    else if hqRow.Some? then
      var h := hqRow.value;
      if t[h].code.None? && CodeStored(t, hq.code, Some(h)) then Err(UniqueIndex)
      else Ok(t[h := t[h].(code := if t[h].code.None? then Some(hq.code) else t[h].code, parent := None, level := 0)])
    else if CodeStored(t, hq.code, None) || NameTaken(t, hq.name, None) then Err(UniqueIndex)
    else Ok(t[newId := Branch(hq.name, hq.details, None, HQ, 0, Some(hq.code), ACTIVE, now, false)])
  }

  // ---- Create -----------------------------------------------------------------------------------

  /** `kind` is absent when the given type does not parse. */
  datatype CreateDto = CreateDto(name: string, details: string, parent: Option<Id>, kind: Option<BranchType>, code: string)

  function CreateResult(t: Table, dto: CreateDto, hqRow: Option<Id>, now: int): Result<Branch, Error> {
    if dto.name == "" then Err(BadRequest)
    else if NameTaken(t, dto.name, None) then Err(Conflict)
    else if dto.kind.None? then Err(BadRequest)
    else if !CodeWellFormed(dto.code) then Err(BadRequest)
    else if CodeTaken(t, dto.code, None) then Err(Conflict)
    else
      var row := (level: int) =>
        Branch(dto.name, dto.details, dto.parent, dto.kind.value, level, Some(dto.code), ACTIVE, now, false);
      var unique := !CodeStored(t, dto.code, None);
      if dto.kind.value.HQ? then
        if dto.parent.Some? then Err(BadRequest)
        else if hqRow.Some? then Err(Conflict)
        else if unique then Ok(row(0)) else Err(UniqueIndex)
      else
        if dto.parent.None? then Err(BadRequest)
        else if !Live(t, dto.parent.value) then Err(NotFound)
        else if unique then Ok(row(t[dto.parent.value].level + 1)) else Err(UniqueIndex)
  }

  // ---- Update -----------------------------------------------------------------------------------

  datatype StatusArg = Blank | Unparsable | Parsed(status: Status)

  /** `None` stands for a property the request leaves out. */
  datatype UpdateDto = UpdateDto(
    name: Option<string>,
    details: Option<string>,
    parent: Option<Option<Id>>,
    kind: Option<Option<BranchType>>,
    code: Option<string>,
    status: Option<StatusArg>)

  /** The checks on name, type and code, which come before the parent is looked at. */
  function UpdateHeadError(t: Table, id: Id, dto: UpdateDto): Option<Error>
    requires Live(t, id)
  {
    if dto.name == Some("") then Some(BadRequest)
    else if dto.name.Some? && dto.name.value != t[id].name && NameTaken(t, dto.name.value, Some(id)) then Some(Conflict)
    else if dto.kind == Some(None) then Some(BadRequest)
    else if dto.code.Some? && !CodeWellFormed(dto.code.value) then Some(BadRequest)
    else if dto.code.Some? && CodeTaken(t, dto.code.value, Some(id)) then Some(Conflict)
    else None
  }

  function NextKind(t: Table, id: Id, dto: UpdateDto): BranchType
    requires Live(t, id)
  {
    if dto.kind.Some? && dto.kind.value.Some? then dto.kind.value.value else t[id].kind
  }

  function NextParent(t: Table, id: Id, dto: UpdateDto): Option<Id>
    requires Live(t, id)
  {
    if dto.parent.Some? then dto.parent.value else t[id].parent
  }

  /** Where the row may hang, as parent and level, or why it may not. */
  ghost function Placement(t: Table, id: Id, dto: UpdateDto, hqRow: Option<Id>): Result<(Option<Id>, int), Error>
    requires Live(t, id)
  {
    var parent := NextParent(t, id, dto);
    if NextKind(t, id, dto).HQ? then
      if parent.Some? then Err(BadRequest)
      else if hqRow.Some? && hqRow != Some(id) then Err(Conflict)
      else Ok((None, 0))
    else if parent.None? then Err(BadRequest)
    else match ParentVerdict(t, id, parent.value)
      case Cyclic => Err(BadRequest)
      case ParentMissing => Err(NotFound)
      case Accepted => if Live(t, parent.value) then Ok((parent, t[parent.value].level + 1)) else Err(NotFound)
  }

  function UpdatedRow(t: Table, id: Id, dto: UpdateDto, place: (Option<Id>, int)): Branch
    requires Live(t, id)
  {
    t[id].(
      name := if dto.name.Some? then dto.name.value else t[id].name,
      details := if dto.details.Some? then dto.details.value else t[id].details,
      code := if dto.code.Some? then dto.code else t[id].code,
      kind := NextKind(t, id, dto),
      parent := place.0,
      level := place.1,
      status := if dto.status.Some? && dto.status.value.Parsed? then dto.status.value.status else t[id].status)
  }

  ghost function UpdateResult(s: State, who: Requester, id: Id, dto: UpdateDto, hqRow: Option<Id>): Result<Table, Error> {
    var t := s.branches;
    if !CanWrite(s.users, who, id) then Err(Forbidden)
    else if !Live(t, id) then Err(NotFound)
    else if UpdateHeadError(t, id, dto).Some? then Err(UpdateHeadError(t, id, dto).value)
    else match Placement(t, id, dto, hqRow)
      case Err(e) => Err(e)
      case Ok(place) =>
        if dto.status == Some(Unparsable) then Err(BadRequest)
        else if dto.code.Some? && CodeStored(t, dto.code.value, Some(id)) then Err(UniqueIndex)
        else Ok(Relevelled(t[id := UpdatedRow(t, id, dto, place)], id, place.1))
  }

  // ---- Delete -----------------------------------------------------------------------------------

  /** The order service's answer; `NoData` is a reply without a payload. */
  datatype DeleteReply = Unreachable | NoData | Counts(orders: nat, batches: nat)

  function DeleteResult(s: State, who: Requester, id: Id, reply: DeleteReply): Result<Table, Error> {
    var t := s.branches;
    if !CanWrite(s.users, who, id) then Err(Forbidden)
    else if !Live(t, id) then Err(NotFound)
    else if Children(t, id) != {} then Err(BadRequest)
    else if exists r :: r in s.users && Active(s.users, r) && s.users[r].branch == id then Err(BadRequest)
    else match reply
      case Unreachable => Err(BadRequest)
      case Counts(orders, batches) =>
        if orders > 0 || batches > 0 then Err(BadRequest) else Ok(t[id := t[id].(deleted := true, status := INACTIVE)])
      case NoData => Ok(t[id := t[id].(deleted := true, status := INACTIVE)])
  }

  // ---- Assign and remove users ------------------------------------------------------------------

  /** The identity service's answer; a user whose role is none of the three has no branch role. */
  datatype UserReply = UnknownUser | IdentityDown | Found(role: Option<Role>)

  /** What an unordered `findOne` on a branch-user pair, deleted or not, hands back. */
  predicate PairAnswer(users: Assignments, branch: Id, user: UserId, row: Option<RowId>) {
    match row
    case None => forall r :: r in users ==> users[r].branch != branch || users[r].user != user
    case Some(r) => r in users && users[r].branch == branch && users[r].user == user
  }

  predicate AssignedElsewhere(users: Assignments, branch: Id, user: UserId) {
    exists r :: r in users && ActiveFor(users, r, user) && users[r].branch != branch
  }

  predicate ManagesBranch(users: Assignments, who: Requester, branch: Id) {
    who.id.Some? && exists r :: r in users && ActiveFor(users, r, who.id.value)
                             && users[r].branch == branch && users[r].role.MANAGER?
  }

  function AssignResult(s: State, who: Requester, branch: Id, user: UserId, asked: Option<Role>, reply: UserReply,
                        pairRow: Option<RowId>, newId: RowId): Result<Assignments, Error>
    requires PairAnswer(s.users, branch, user, pairRow)
  {
    if !CanWrite(s.users, who, branch) then Err(Forbidden)
    else if !Live(s.branches, branch) then Err(NotFound)
    else if reply.UnknownUser? then Err(NotFound)
    else if reply.IdentityDown? then Err(BadGateway)
    else if reply.role.None? then Err(BadRequest)
    else if asked.Some? && asked != reply.role then Err(BadRequest)
    else if reply.role.value.COURIER? && s.branches[branch].kind.PICKUP? then Err(Forbidden)
    else if reply.role.value.COURIER? && !who.privileged && !ManagesBranch(s.users, who, branch) then Err(Forbidden)
    else if AssignedElsewhere(s.users, branch, user) then Err(Conflict)
    else if pairRow.None? then
      if exists r :: r in s.users && ActiveFor(s.users, r, user) then Err(UniqueIndex)
      else Ok(s.users[newId := Assignment(branch, user, reply.role.value, false)])
    else
      var r := pairRow.value;
      if !s.users[r].deleted then Err(Conflict)
      else if exists q :: q in s.users && ActiveFor(s.users, q, user) then Err(UniqueIndex)
      else Ok(s.users[r := s.users[r].(deleted := false, role := reply.role.value)])
  }

  /** The active row of a branch-user pair, which the partial unique index makes the only one. */
  predicate ActivePair(users: Assignments, r: RowId, branch: Id, user: UserId) {
    ActiveFor(users, r, user) && users[r].branch == branch
  }

  ghost function RemoveResult(s: State, who: Requester, branch: Id, user: UserId): Result<Assignments, Error> {
    if !CanWrite(s.users, who, branch) then Err(Forbidden)
    else if !exists r :: ActivePair(s.users, r, branch, user) then Err(NotFound)
    else
      var r :| ActivePair(s.users, r, branch, user);
      Ok(s.users[r := s.users[r].(deleted := true)])
  }

  // ---- What the database itself keeps ------------------------------------------------------------

  /** Branch codes are unique over all rows, deleted ones included. */
  ghost predicate CodesUnique(t: Table) {
    forall x, y :: x in t && y in t && t[x].code.Some? && t[x].code == t[y].code ==> x == y
  }

  ghost predicate LiveNamesUnique(t: Table) {
    forall x, y :: Live(t, x) && Live(t, y) && t[x].name == t[y].name ==> x == y
  }

  ghost predicate OneActiveRowPerUser(users: Assignments) {
    forall q, r :: Active(users, q) && Active(users, r) && users[q].user == users[r].user ==> q == r
  }

  ghost predicate Indexed(s: State) {
    CodesUnique(s.branches) && LiveNamesUnique(s.branches) && OneActiveRowPerUser(s.users)
  }
}
