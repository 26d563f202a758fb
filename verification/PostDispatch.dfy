/** Dispatching the orders of a post from the HQ to a branch (dispatchPostToBranch). */
module PostDispatch {
  import opened Prelude
  import opened BranchTable
  import opened BranchRules
  import opened BranchRequests

  type OrderId = nat
  type PostId = nat

  datatype OrderStatus =
    | CREATED | NEW | RECEIVED | ON_THE_ROAD | WAITING | WAITING_CUSTOMER | SOLD | CANCELLED
    | RETURNED_TO_MARKET | PAID | PARTLY_PAID | CANCELLED_SENT | CLOSED

  datatype Holder = Nobody | AtBranch(branch: Id) | WithCourier(courier: UserId)

  datatype Order = Order(
    branch: Option<Id>,
    holder: Holder,
    post: Option<PostId>,
    batch: Option<nat>,
    status: OrderStatus,
    deleted: bool)

  type Orders = map<OrderId, Order>

  predicate Blocked(o: Order) {
    o.status.CANCELLED? || o.status.CLOSED?
  }

  /** The logistics service's listing of a post: some known orders, each once. It asks the order service,
      which shows live orders only, and adds orders cancelled out of the post; so the listing need not be
      the orders whose `post` is that post. */
  ghost predicate Listing(orders: Orders, listed: seq<OrderId>) {
    Distinct(listed) && forall o :: o in listed ==> o in orders
  }

  /** The orders a dispatch moves: listed, selected, not deleted, cancelled or closed. */
  function Movable(orders: Orders, listed: seq<OrderId>, selected: seq<OrderId>): set<OrderId> {
    set o | o in orders && o in listed && o in selected && !orders[o].deleted && !Blocked(orders[o])
  }

  /** Selected orders of the listing that the order service books on another branch. */
  function Misplaced(orders: Orders, listed: seq<OrderId>, selected: seq<OrderId>, source: Id): set<OrderId> {
    set o | o in orders && o in listed && o in selected && orders[o].branch != Some(source)
  }

  /** `posts` is the logistics service's answer: the post each order joins at its destination. */
  function Moved(o: Order, destination: Id, post: Option<PostId>): Order {
    o.(branch := Some(destination), holder := AtBranch(destination), post := post, batch := None, status := ON_THE_ROAD)
  }

  function Lookup(posts: map<OrderId, PostId>, o: OrderId): Option<PostId> {
    if o in posts then Some(posts[o]) else None
  }

  function AfterDispatch(orders: Orders, moving: set<OrderId>, destination: Id, posts: map<OrderId, PostId>): Orders {
    map o | o in orders :: if o in moving then Moved(orders[o], destination, Lookup(posts, o)) else orders[o]
  }

  /** The post is deleted when everything listed has moved. */
  function PostsAfter(live: set<PostId>, post: PostId, listed: seq<OrderId>, moving: set<OrderId>): set<PostId> {
    if moving == (set o | o in listed) then live - {post} else live
  }

  predicate HasManager(users: Assignments, branch: Id) {
    exists r :: r in users && Active(users, r) && users[r].branch == branch && users[r].role.MANAGER?
  }

  /** The checks made before any order is looked at. */
  function AccessError(s: State, who: Requester, source: Id, destination: Id): Option<Error> {
    if !Live(s.branches, source) || !Live(s.branches, destination) then Some(NotFound)
    else if !s.branches[source].kind.HQ? then Some(Forbidden)
    else if !HasManager(s.users, destination) then Some(BadRequest)
    else if !CanWrite(s.users, who, source) then Some(Forbidden)
    else None
  }

  class OrderDesk {
    var orders: Orders
    var posts: set<PostId>

    constructor (orders: Orders, posts: set<PostId>)
      ensures this.orders == orders && this.posts == posts
    {
      this.orders, this.posts := orders, posts;
    }

    /** `listed` is the logistics service's listing of the post, `replies` its later answer with the
        destination posts. A refused dispatch changes no order and no post. */
    method Dispatch(s: State, who: Requester, source: Id, post: PostId, destination: Id, selected: seq<OrderId>,
                    listed: seq<OrderId>, replies: map<OrderId, PostId>) returns (r: Result<seq<OrderId>, Error>)
      requires Listing(orders, listed)
      modifies this
      ensures r.Ok? <==> && AccessError(s, who, source, destination).None?
                         && Movable(old(orders), listed, selected) != {}
                         && Misplaced(old(orders), listed, selected, source) == {}
      ensures r.Err? ==> orders == old(orders) && posts == old(posts)
      ensures r.Err? ==> r.error == AccessError(s, who, source, destination).GetOr(BadRequest)
      ensures r.Ok? ==> Lists(r.value, Movable(old(orders), listed, selected))
      ensures r.Ok? ==> orders == AfterDispatch(old(orders), Movable(old(orders), listed, selected), destination, replies)
      ensures r.Ok? ==> posts == PostsAfter(old(posts), post, listed, Movable(old(orders), listed, selected))
      ensures orders.Keys == old(orders).Keys
      ensures r.Ok? ==> forall o :: o in r.value ==>
                o in old(orders)
                && orders[o] == Order(Some(destination), AtBranch(destination), if o in replies then Some(replies[o]) else None,
                                      None, ON_THE_ROAD, old(orders)[o].deleted)
      ensures r.Ok? ==> forall o :: o in old(orders) && o !in r.value ==> orders[o] == old(orders)[o]
    {
      ghost var before := orders;
      if !Live(s.branches, source) || !Live(s.branches, destination) {
        return Err(NotFound);
      }
      if s.branches[source].kind != HQ {
        return Err(Forbidden);
      }
      if !HasManager(s.users, destination) {
        return Err(BadRequest);
      }
      if !CanWrite(s.users, who, source) {
        return Err(Forbidden);
      }
      if |listed| == 0 || |selected| == 0 {
        return Err(BadRequest);
      }
      var eligible, misplaced := Sift(selected, source, listed);
      if |eligible| == 0 {
        return Err(BadRequest);
      }
      if misplaced > 0 {
        return Err(BadRequest);
      }
      MoveAll(eligible, destination, replies);
      assert (set o | o in eligible) == Movable(before, listed, selected);
      if |eligible| == |listed| {
        posts := posts - {post};
      }
      SameCountSameSet(eligible, Movable(before, listed, selected), listed, set o | o in listed);
      return Ok(eligible);
    }

    /** One pass over the listing: the selected orders that may move, and how many are booked elsewhere. */
    method Sift(selected: seq<OrderId>, source: Id, listed: seq<OrderId>) returns (eligible: seq<OrderId>, misplaced: nat)
      requires Listing(orders, listed)
      ensures misplaced == 0 <==> Misplaced(orders, listed, selected, source) == {}
      ensures misplaced == 0 ==> Lists(eligible, Movable(orders, listed, selected))
      ensures misplaced == 0 ==> (|eligible| == 0 <==> Movable(orders, listed, selected) == {})
    {
      ghost var before := orders;
      eligible, misplaced := [], 0;
      for i := 0 to |listed|
        invariant Distinct(eligible)
        invariant forall o :: o in eligible <==> o in listed[..i] && o in Fit(before, listed, selected, source)
        invariant misplaced == 0 ==> forall o :: o in listed[..i] ==> o !in Misplaced(before, listed, selected, source)
        invariant misplaced > 0 ==> Misplaced(before, listed, selected, source) != {}
      {
        var id := listed[i];
        assert listed[..i + 1] == listed[..i] + [id];
        assert id in listed && id !in listed[..i];
        assert id in Misplaced(before, listed, selected, source) <==> id in selected && before[id].branch != Some(source);
        if id in selected {
          if orders[id].branch != Some(source) {
            misplaced := misplaced + 1;
          } else if !orders[id].deleted && orders[id].status != CANCELLED && orders[id].status != CLOSED {
            eligible := eligible + [id];
          }
        }
      }
      assert listed[..|listed|] == listed;
      EligibleIsMovable(before, selected, source, listed, eligible, misplaced);
    }

    /** The update loop: one order at a time. */
    method MoveAll(eligible: seq<OrderId>, destination: Id, replies: map<OrderId, PostId>)
      requires Distinct(eligible) && forall o :: o in eligible ==> o in orders
      modifies this`orders
      ensures orders == AfterDispatch(old(orders), (set o | o in eligible), destination, replies)
    {
      ghost var before := orders;
      for i := 0 to |eligible|
        invariant orders == AfterDispatch(before, (set o | o in eligible[..i]), destination, replies)
      {
        var id := eligible[i];
        assert id in eligible && id !in eligible[..i];
        assert eligible[..i + 1] == eligible[..i] + [id];
        var destinationPost := if id in replies then Some(replies[id]) else None;
        orders := orders[id := orders[id].(branch := Some(destination), holder := AtBranch(destination), post := destinationPost,
                                           batch := None, status := ON_THE_ROAD)];
      }
      assert eligible[..|eligible|] == eligible;
    }
  }

  function Fit(orders: Orders, listed: seq<OrderId>, selected: seq<OrderId>, source: Id): set<OrderId> {
    Movable(orders, listed, selected) - Misplaced(orders, listed, selected, source)
  }

  lemma EligibleIsMovable(orders: Orders, selected: seq<OrderId>, source: Id, listed: seq<OrderId>,
                          eligible: seq<OrderId>, misplaced: int)
    requires Listing(orders, listed) && Distinct(eligible)
    requires forall o :: o in eligible <==> o in listed && o in Fit(orders, listed, selected, source)
    requires misplaced == 0 ==> forall o :: o in listed ==> o !in Misplaced(orders, listed, selected, source)
    requires misplaced != 0 ==> Misplaced(orders, listed, selected, source) != {}
    ensures misplaced == 0 <==> Misplaced(orders, listed, selected, source) == {}
    ensures misplaced == 0 ==> Lists(eligible, Movable(orders, listed, selected))
    ensures |eligible| == 0 && misplaced == 0 ==> Movable(orders, listed, selected) == {}
    ensures |eligible| > 0 && misplaced == 0 ==> Movable(orders, listed, selected) != {}
  {
    assert |eligible| > 0 ==> eligible[0] in eligible;
  }

  /** Comparing the two counts, as the code does, decides whether the whole post has moved. */
  lemma SameCountSameSet(a: seq<OrderId>, s: set<OrderId>, b: seq<OrderId>, u: set<OrderId>)
    requires Lists(a, s) && Lists(b, u) && s <= u
    ensures |a| == |b| <==> s == u
  {
    CountIsSize(a, s);
    CountIsSize(b, u);
    assert u == s + (u - s);
  }

  lemma {:induction false} CountIsSize(q: seq<OrderId>, s: set<OrderId>)
    requires Lists(q, s)
    ensures |q| == |s|
    decreases |q|
  {
    if q != [] {
      var init, last := q[..|q| - 1], q[|q| - 1];
      assert q == init + [last];
      assert forall i :: 0 <= i < |init| ==> q[i] == init[i];
      assert last !in init;
      CountIsSize(init, s - {last});
    }
  }

  // ---- What a dispatch does, order by order -------------------------------------------------------

  /** The dispatch is open exactly to a caller who is privileged or an active manager of the source, a live
      HQ, towards a live branch with an active manager. */
  lemma AccessGrantedWhen(s: State, who: Requester, source: Id, destination: Id)
    ensures AccessError(s, who, source, destination) == None <==>
              && source in s.branches && !s.branches[source].deleted && s.branches[source].kind == HQ
              && destination in s.branches && !s.branches[destination].deleted
              && (exists r :: r in s.users && !s.users[r].deleted && s.users[r].branch == destination && s.users[r].role == MANAGER)
              && Writer(s.users, who, source)
  {
    WriterMayWrite(s.users, who, source);
    if r :| r in s.users && !s.users[r].deleted && s.users[r].branch == destination && s.users[r].role == MANAGER {
      assert Active(s.users, r);
    }
  }

  /** The moved orders are the listed and selected ones that are neither deleted nor cancelled nor closed;
      each is then booked on the destination and held by it, in no batch, on the road, in the post the
      reply names or in none. Every other order is as it was. */
  lemma DispatchDoesAsAsked(orders: Orders, listed: seq<OrderId>, selected: seq<OrderId>, destination: Id,
                            replies: map<OrderId, PostId>, o: OrderId)
    requires o in orders
    ensures var moving := Movable(orders, listed, selected);
            var after := AfterDispatch(orders, moving, destination, replies);
            && (o in moving <==> o in listed && o in selected && !orders[o].deleted
                                 && orders[o].status != CANCELLED && orders[o].status != CLOSED)
            && after.Keys == orders.Keys
            && after[o] == if o in moving
                           then Order(Some(destination), AtBranch(destination), if o in replies then Some(replies[o]) else None,
                                      None, ON_THE_ROAD, orders[o].deleted)
                           else orders[o]
  {
  }

  /** Whatever is listed and selected next: a dispatch from the same source that includes a moved order is
      refused, since the order is booked elsewhere now, unless it was dispatched to the source itself. */
  lemma SecondDispatchIsRefused(orders: Orders, listed: seq<OrderId>, selected: seq<OrderId>, source: Id, destination: Id,
                                replies: map<OrderId, PostId>, again: seq<OrderId>, o: OrderId)
    requires o in Movable(orders, listed, selected) && o in again
    ensures var after := AfterDispatch(orders, Movable(orders, listed, selected), destination, replies);
            && (destination != source ==> Misplaced(after, again, again, source) != {})
            && (destination == source ==> o !in Misplaced(after, again, again, source))
  {
    var after := AfterDispatch(orders, Movable(orders, listed, selected), destination, replies);
    assert destination != source ==> o in Misplaced(after, again, again, source);
  }

  // ---- No order is left pointing at a deleted post ------------------------------------------------

  ghost predicate PostsExist(orders: Orders, live: set<PostId>) {
    forall o :: o in orders && orders[o].post.Some? ==> orders[o].post.value in live
  }

  /** An order that points at the post when the dispatch is over: it was in the post and did not move,
      or it moved and the logistics service put it back there. */
  predicate EndsInPost(orders: Orders, moving: set<OrderId>, post: PostId, replies: map<OrderId, PostId>, o: OrderId) {
    if o in moving then o in replies && replies[o] == post
    else o in orders && orders[o].post == Some(post)
  }

  /** After a dispatch every order's post exists, except exactly when everything listed has moved, so that
      the post is deleted, and an order still ends in it. */
  lemma NoDanglingPost(orders: Orders, live: set<PostId>, post: PostId, listed: seq<OrderId>, selected: seq<OrderId>,
                       destination: Id, replies: map<OrderId, PostId>)
    requires Listing(orders, listed) && PostsExist(orders, live)
    requires forall o :: o in replies ==> replies[o] in live
    ensures var moving := Movable(orders, listed, selected);
            PostsExist(AfterDispatch(orders, moving, destination, replies), PostsAfter(live, post, listed, moving))
            <==> !(moving == (set o | o in listed) && exists o :: EndsInPost(orders, moving, post, replies, o))
  {
    var moving := Movable(orders, listed, selected);
    var after, live' := AfterDispatch(orders, moving, destination, replies), PostsAfter(live, post, listed, moving);
    if o :| moving == (set o | o in listed) && EndsInPost(orders, moving, post, replies, o) {
      assert after[o].post == Some(post);
    } else {
      forall o | o in after && after[o].post.Some? ensures after[o].post.value in live' {
        assert after[o].post == Some(post) ==> EndsInPost(orders, moving, post, replies, o);
      }
    }
  }

  /** When no reply names the post again, the exception is an order of the post that the listing left out,
      for whatever reason. */
  lemma OnlyUnlistedOrdersDangle(orders: Orders, live: set<PostId>, post: PostId, listed: seq<OrderId>,
                                 selected: seq<OrderId>, destination: Id, replies: map<OrderId, PostId>)
    requires Listing(orders, listed) && PostsExist(orders, live)
    requires forall o :: o in replies ==> replies[o] in live && replies[o] != post
    ensures var moving := Movable(orders, listed, selected);
            PostsExist(AfterDispatch(orders, moving, destination, replies), PostsAfter(live, post, listed, moving))
            <==> || (exists o :: o in listed && o !in moving)
                 || forall o :: o in orders && orders[o].post == Some(post) ==> o in listed
  {
    var moving := Movable(orders, listed, selected);
    NoDanglingPost(orders, live, post, listed, selected, destination, replies);
    if moving == (set o | o in listed) {
      forall o | o in orders && orders[o].post == Some(post)
        ensures o !in listed <==> EndsInPost(orders, moving, post, replies, o)
      {
        assert o in moving <==> o in listed;
      }
    } else {
      assert moving <= set o | o in listed;
    }
  }

  /** When every live order of the post is listed, whatever else is, and no reply names the post again, the
      exception is an order soft-deleted inside the post. */
  lemma OnlyDeletedOrdersDangle(orders: Orders, live: set<PostId>, post: PostId, listed: seq<OrderId>,
                                selected: seq<OrderId>, destination: Id, replies: map<OrderId, PostId>)
    requires Listing(orders, listed) && PostsExist(orders, live)
    requires forall o :: o in orders && orders[o].post == Some(post) && !orders[o].deleted ==> o in listed
    requires forall o :: o in replies ==> replies[o] in live && replies[o] != post
    ensures var moving := Movable(orders, listed, selected);
            PostsExist(AfterDispatch(orders, moving, destination, replies), PostsAfter(live, post, listed, moving))
            <==> || (exists o :: o in listed && o !in moving)
                 || forall o :: o in orders && orders[o].post == Some(post) ==> !orders[o].deleted
  {
    OnlyUnlistedOrdersDangle(orders, live, post, listed, selected, destination, replies);
    var moving := Movable(orders, listed, selected);
    forall o | o in listed && o in moving ensures !orders[o].deleted {
    }
  }

  /** A witness: a post with one live and one soft-deleted order. The live one is dispatched, the post is
      deleted with it, and the deleted order points at a post that is gone. */
  lemma DeletedOrderDangles(orders: Orders, home: Order, gone: Order, branch: Id)
    requires home == Order(Some(1), AtBranch(1), Some(5), None, RECEIVED, false)
    requires gone == home.(deleted := true) && orders == map[10 := home, 11 := gone] && branch == 2
    ensures var moving := Movable(orders, [10], [10]);
            && PostsExist(orders, {5}) && Listing(orders, [10]) && moving == {10}
            && PostsAfter({5}, 5, [10], moving) == {}
            && !PostsExist(AfterDispatch(orders, moving, branch, map[]), {})
  {
    var moving := Movable(orders, [10], [10]);
    assert moving == {10} == set o | o in [10];
    assert {5} - {5} == {};
    assert AfterDispatch(orders, moving, branch, map[])[11].post == Some(5);
  }
}
