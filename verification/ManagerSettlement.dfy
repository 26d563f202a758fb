/** What a branch manager still owes the HQ (buildManagerSettlement), in hundredths. */
module ManagerSettlement {
  import opened Prelude

  /** A sold order as the order service returns it. Amounts that are missing or not finite are absent. */
  datatype Order = Order(
    id: string,
    totalPrice: int,
    toCenter: bool,
    courier: string,
    courierShare: Option<int>,
    courierTariff: Option<int>,
    branchCashboxAmount: Option<int>,
    branchShare: int)

  datatype Tariff = Tariff(home: int, center: int)

  type Tariffs = map<string, Tariff>

  function Max(a: int, b: int): int {
    if a > b then a else b
  }

  /** The courier's own tariff, when the order names a known courier. */
  function LiveTariff(o: Order, tariffs: Tariffs): int {
    if o.courier != "" && o.courier in tariffs
    then (if o.toCenter then tariffs[o.courier].center else tariffs[o.courier].home)
    else 0
  }

  function CourierShare(o: Order, tariffs: Tariffs): int {
    Max(o.courierShare.GetOr(o.courierTariff.GetOr(LiveTariff(o, tariffs))), 0)
  }

  function HqPayable(o: Order, tariffs: Tariffs): int {
    Max(o.branchCashboxAmount.GetOr(Max(o.totalPrice, 0) - CourierShare(o, tariffs) - Max(o.branchShare, 0)), 0)
  }

  // ---- Who gets what of one order ------------------------------------------------------------------

  /** What the courier keeps: the share stored with the order, else the tariff stored with it, else the
      courier's own tariff for the place of delivery, else nothing; never less than nothing. */
  lemma CourierShareBySource(o: Order, tariffs: Tariffs)
    ensures o.courierShare != None ==> CourierShare(o, tariffs) == Max(o.courierShare.value, 0)
    ensures o.courierShare == None && o.courierTariff != None ==> CourierShare(o, tariffs) == Max(o.courierTariff.value, 0)
    ensures o.courierShare == None && o.courierTariff == None ==>
              CourierShare(o, tariffs) == if o.courier == "" || o.courier !in tariffs then 0
                                          else if o.toCenter then Max(tariffs[o.courier].center, 0)
                                          else Max(tariffs[o.courier].home, 0)
  {
  }

  /** The HQ gets the amount stored with the order, if there is one; else the price is shared out without
      remainder: the courier's part, the branch's part and the HQ's part make up the price, unless the first
      two exceed it already and the HQ gets nothing. */
  lemma PriceIsSharedOut(o: Order, tariffs: Tariffs)
    requires o.totalPrice >= 0 && o.branchShare >= 0
    ensures o.branchCashboxAmount != None ==>
              HqPayable(o, tariffs) == if o.branchCashboxAmount.value < 0 then 0 else o.branchCashboxAmount.value
    ensures o.branchCashboxAmount == None ==>
              if CourierShare(o, tariffs) + o.branchShare <= o.totalPrice
              then CourierShare(o, tariffs) + o.branchShare + HqPayable(o, tariffs) == o.totalPrice
              else HqPayable(o, tariffs) == 0
  {
  }

  /** Negative prices and branch shares count as nothing. */
  lemma NegativesCountAsNothing(o: Order, tariffs: Tariffs)
    ensures o.totalPrice < 0 ==> HqPayable(o, tariffs) == HqPayable(o.(totalPrice := 0), tariffs)
    ensures o.branchShare < 0 ==> HqPayable(o, tariffs) == HqPayable(o.(branchShare := 0), tariffs)
  {
  }

  // ---- Merging the two fetches ---------------------------------------------------------------------

  /** A JavaScript Map built from the orders: the last order under an id wins. */
  function ById(orders: seq<Order>): map<string, Order> {
    if orders == [] then map[]
    else ById(orders[..|orders| - 1])[orders[|orders| - 1].id := orders[|orders| - 1]]
  }

  /** Its keys, in the order they first appeared. */
  function Keys(orders: seq<Order>): seq<string> {
    if orders == [] then []
    else
      var keys, last := Keys(orders[..|orders| - 1]), orders[|orders| - 1].id;
      if last in keys then keys else keys + [last]
  }

  /** Array.from(map.values()). */
  function Merged(orders: seq<Order>): (merged: seq<Order>)
    ensures |merged| == |Keys(orders)|
  {
    KeysAreById(orders);
    seq(|Keys(orders)|, i requires 0 <= i < |Keys(orders)| =>
          assert Keys(orders)[i] in Keys(orders); ById(orders)[Keys(orders)[i]])
  }

  lemma {:induction false} KeysAreById(orders: seq<Order>)
    ensures Distinct(Keys(orders))
    ensures forall k :: k in Keys(orders) <==> k in ById(orders)
    ensures forall k :: k in ById(orders) ==> ById(orders)[k].id == k && ById(orders)[k] in orders
    ensures forall o :: o in orders ==> o.id in ById(orders)
  {
    if orders != [] {
      var init, last := orders[..|orders| - 1], orders[|orders| - 1];
      KeysAreById(init);
      assert orders == init + [last];
    }
  }

  /** The reduce over the merged orders. */
  function TotalPayable(orders: seq<Order>, tariffs: Tariffs): int {
    if orders == [] then 0 else TotalPayable(orders[..|orders| - 1], tariffs) + HqPayable(orders[|orders| - 1], tariffs)
  }

  function PayableOf(tariffs: Tariffs): Order -> int {
    o => HqPayable(o, tariffs)
  }

  function Members(orders: seq<Order>): set<Order> {
    set o | o in orders
  }

  lemma DropLast(orders: seq<Order>)
    requires Distinct(orders) && orders != []
    ensures Distinct(orders[..|orders| - 1])
    ensures orders[|orders| - 1] !in orders[..|orders| - 1]
    ensures Members(orders) == Members(orders[..|orders| - 1]) + {orders[|orders| - 1]}
  {
    var init, last := orders[..|orders| - 1], orders[|orders| - 1];
    assert orders == init + [last];
    assert forall i :: 0 <= i < |init| ==> orders[i] == init[i];
  }

  lemma {:induction false} TotalIsSum(orders: seq<Order>, tariffs: Tariffs)
    requires Distinct(orders)
    ensures TotalPayable(orders, tariffs) == Sum(Members(orders), PayableOf(tariffs))
  {
    if orders != [] {
      var init, last := orders[..|orders| - 1], orders[|orders| - 1];
      DropLast(orders);
      TotalIsSum(init, tariffs);
      SumPut(Members(init), PayableOf(tariffs), last);
    }
  }

  /** The merged orders are pairwise different, and are the winning order of each id. */
  lemma MergedHoldsWinners(orders: seq<Order>)
    ensures Distinct(Merged(orders))
    ensures forall o: Order :: o in Merged(orders) <==> o.id in ById(orders) && ById(orders)[o.id] == o
  {
    KeysAreById(orders);
    var keys, merged := Keys(orders), Merged(orders);
    forall i | 0 <= i < |merged| ensures merged[i].id == keys[i] && keys[i] in ById(orders) && merged[i] == ById(orders)[keys[i]] {
      assert keys[i] in keys;
    }
    forall o: Order | o.id in ById(orders) && ById(orders)[o.id] == o ensures o in merged {
      assert o.id in keys;
      var i :| 0 <= i < |keys| && keys[i] == o.id;
      assert merged[i] == o;
    }
  }

  /** What the order found under an id owes. */
  function PayableIn(found: map<string, Order>, tariffs: Tariffs): string -> int {
    id => if id in found then HqPayable(found[id], tariffs) else 0
  }

  function Ids(orders: seq<Order>): set<string> {
    set o | o in orders :: o.id
  }

  /** Each order id is counted once, whether or not the fetches agree about it: the debt is the sum, over
      the ids of both fetches, of what the winning order owes. */
  lemma DebtCountsEachOrderOnce(branch: seq<Order>, couriers: seq<Order>, tariffs: Tariffs)
    ensures TotalPayable(Merged(branch + couriers), tariffs)
         == Sum(Ids(branch + couriers), PayableIn(ById(branch + couriers), tariffs))
  {
    var all := branch + couriers;
    KeysAreById(all);
    var merged, keys := Merged(all), Keys(all);
    forall i | 0 <= i < |keys| ensures merged[i] == ById(all)[keys[i]] {
    }
    TotalOverKeys(ById(all), merged, keys, tariffs);
    assert KeySet(keys) == Ids(all);
  }

  function KeySet(keys: seq<string>): set<string> {
    set k | k in keys
  }

  lemma LastKey(keys: seq<string>)
    requires keys != [] && Distinct(keys)
    ensures var init, last := keys[..|keys| - 1], keys[|keys| - 1];
            Distinct(init) && last !in KeySet(init) && KeySet(keys) == KeySet(init) + {last}
  {
    var init, last := keys[..|keys| - 1], keys[|keys| - 1];
    assert keys == init + [last];
    assert forall i :: 0 <= i < |init| ==> keys[i] == init[i];
  }

  lemma {:induction false} TotalOverKeys(found: map<string, Order>, merged: seq<Order>, keys: seq<string>, tariffs: Tariffs)
    requires Distinct(keys) && |merged| == |keys|
    requires forall i :: 0 <= i < |keys| ==> keys[i] in found && merged[i] == found[keys[i]]
    ensures TotalPayable(merged, tariffs) == Sum(KeySet(keys), PayableIn(found, tariffs))
    decreases |keys|
  {
    hide HqPayable;
    if keys == [] {
      assert KeySet(keys) == {};
    } else {
      var n := |keys| - 1;
      LastKey(keys);
      hide KeySet, Distinct;
      TotalOverKeys(found, merged[..n], keys[..n], tariffs);
      SumPut(KeySet(keys[..n]), PayableIn(found, tariffs), keys[n]);
    }
  }

  /** The two fetches report the same order under the same id. */
  ghost predicate Agree(orders: seq<Order>) {
    forall o, p :: o in orders && p in orders && o.id == p.id ==> o == p
  }

  /** When the fetches agree, it does not matter how they overlap, repeat or order their rows. */
  lemma OverlapDoesNotMatter(a: seq<Order>, b: seq<Order>, c: seq<Order>, d: seq<Order>, tariffs: Tariffs)
    requires Agree(a + b) && forall o :: o in a + b <==> o in c + d
    ensures TotalPayable(Merged(a + b), tariffs) == TotalPayable(Merged(c + d), tariffs)
  {
    AgreeingTotal(a + b, tariffs);
    AgreeingTotal(c + d, tariffs);
    assert Members(a + b) == Members(c + d);
  }

  lemma AgreeingTotal(all: seq<Order>, tariffs: Tariffs)
    requires Agree(all)
    ensures TotalPayable(Merged(all), tariffs) == Sum(Members(all), PayableOf(tariffs))
  {
    MergedHoldsWinners(all);
    KeysAreById(all);
    assert Members(Merged(all)) == Members(all);
    TotalIsSum(Merged(all), tariffs);
  }

  /** When the fetches disagree about an order, the couriers' answer is the one that counts. */
  lemma {:induction false} CouriersAnswerWins(branch: seq<Order>, couriers: seq<Order>, id: string)
    requires id in ById(couriers)
    ensures id in ById(branch + couriers) && ById(branch + couriers)[id] == ById(couriers)[id]
  {
    var last := couriers[|couriers| - 1];
    assert (branch + couriers)[..|branch + couriers| - 1] == branch + couriers[..|couriers| - 1];
    if last.id != id {
      CouriersAnswerWins(branch, couriers[..|couriers| - 1], id);
    }
  }

  // ---- What the fetches leave out ------------------------------------------------------------------

  /** The order service returns at most this many rows unless it is asked for all. */
  const FETCH_CAP := 100

  /** The newest matching orders, as far as one fetch shows them. */
  function Fetched(matching: seq<Order>): seq<Order> {
    if |matching| <= FETCH_CAP then matching else matching[..FETCH_CAP]
  }

  /** The orders that match either fetch and are shown by neither. */
  function CutOff(branch: seq<Order>, couriers: seq<Order>): set<Order> {
    Members(branch + couriers) - Members(Fetched(branch) + Fetched(couriers))
  }

  /** The shown debt is the debt over all matching orders less what the cut-off orders owe, so the two are
      the same if and only if no cut-off order owes anything. */
  lemma ShownDebtIffNothingCut(branch: seq<Order>, couriers: seq<Order>, tariffs: Tariffs)
    requires Agree(branch + couriers)
    ensures var shown := TotalPayable(Merged(Fetched(branch) + Fetched(couriers)), tariffs);
            var full := TotalPayable(Merged(branch + couriers), tariffs);
            && shown == full - Sum(CutOff(branch, couriers), PayableOf(tariffs)) <= full
            && (shown == full <==> forall o :: o in CutOff(branch, couriers) ==> HqPayable(o, tariffs) == 0)
  {
    var all, few := branch + couriers, Fetched(branch) + Fetched(couriers);
    var cut, payable := CutOff(branch, couriers), PayableOf(tariffs);
    FetchedAreMatching(branch, couriers);
    AgreeingTotal(all, tariffs);
    AgreeingTotal(few, tariffs);
    SumUnion(Members(few), cut, payable);
    assert Members(few) + cut == Members(all);
    SumOfNonNegatives(cut, payable);
    assert forall o :: payable(o) == HqPayable(o, tariffs);
  }

  lemma FetchedAreMatching(branch: seq<Order>, couriers: seq<Order>)
    ensures forall o :: o in Fetched(branch) + Fetched(couriers) ==> o in branch + couriers
  {
  }

  /** A sold order of 1.00 that owes all of it to the HQ; its id has `n` letters. */
  function Sold(n: nat): Order {
    Order(seq(n, i => 'x'), 100, false, "", None, None, Some(100), 0)
  }

  /** A witness: with 101 such orders in the branch the shown debt is 1.00 too low. */
  lemma OneOrderTooMany(branch: seq<Order>, tariffs: Tariffs)
    requires |branch| == 101 && forall i :: 0 <= i < |branch| ==> branch[i] == Sold(i)
    ensures TotalPayable(Merged(Fetched(branch) + Fetched([])), tariffs) == TotalPayable(Merged(branch + []), tariffs) - 100
  {
    SoldAgree(branch);
    ShownDebtIffNothingCut(branch, [], tariffs);
    var last := branch[FETCH_CAP];
    OnlyLastCut(branch, last);
    SumTakeOut({last}, PayableOf(tariffs), last);
    assert {last} - {last} == {};
  }

  lemma SoldAgree(branch: seq<Order>)
    requires forall i :: 0 <= i < |branch| ==> branch[i] == Sold(i)
    ensures Agree(branch + [])
  {
    forall i | 0 <= i < |branch| ensures |branch[i].id| == i {
    }
  }

  lemma OnlyLastCut(branch: seq<Order>, last: Order)
    requires |branch| == FETCH_CAP + 1 && forall i :: 0 <= i < |branch| ==> branch[i] == Sold(i)
    requires last == branch[FETCH_CAP]
    ensures CutOff(branch, []) == {last}
  {
    var few := Fetched(branch) + Fetched([]);
    assert branch + [] == branch && few == branch[..FETCH_CAP];
    assert branch == few + [last];
    forall i | 0 <= i < FETCH_CAP ensures few[i] != last {
      assert |few[i].id| == i && |last.id| == FETCH_CAP;
    }
  }

  // ---- Remittances ---------------------------------------------------------------------------------

  /** Math.round to a whole unit: halves go up. */
  function Round(amount: int): int {
    (amount + 50) / 100 * 100
  }

  /** The reduce over the remittance history: only positive amounts count. */
  function Paid(remittances: seq<int>): int {
    if remittances == [] then 0
    else Paid(remittances[..|remittances| - 1]) + Max(remittances[|remittances| - 1], 0)
  }

  function Plain(remittances: seq<int>): int {
    if remittances == [] then 0
    else Plain(remittances[..|remittances| - 1]) + remittances[|remittances| - 1]
  }

  /** What is shown as still owed. */
  function Remaining(branch: seq<Order>, couriers: seq<Order>, tariffs: Tariffs, remittances: seq<int>): int {
    Max(Round(TotalPayable(Merged(branch + couriers), tariffs)) - Paid(remittances), 0)
  }

  /** The shown debt in numbers: the total to the nearest whole unit, halves up, less every positive
      remittance, and never below zero. */
  lemma RemainingInNumbers(branch: seq<Order>, couriers: seq<Order>, tariffs: Tariffs, remittances: seq<int>, whole: int)
    requires whole % 100 == 0 && -50 < whole - TotalPayable(Merged(branch + couriers), tariffs) <= 50
    ensures var owed := whole - Positive(remittances);
            Remaining(branch, couriers, tariffs, remittances) == if owed < 0 then 0 else owed
  {
    PaidIsPositive(remittances);
    assert Round(TotalPayable(Merged(branch + couriers), tariffs)) == whole;
  }

  ghost function Positive(remittances: seq<int>): int {
    if remittances == [] then 0 else (if remittances[0] > 0 then remittances[0] else 0) + Positive(remittances[1..])
  }

  lemma {:induction false} PaidIsPositive(remittances: seq<int>)
    ensures Paid(remittances) == Positive(remittances)
    decreases |remittances|
  {
    if remittances != [] {
      var init, last := remittances[..|remittances| - 1], remittances[|remittances| - 1];
      PaidIsPositive(init);
      assert remittances == init + [last];
      PositiveAppend(init, last);
    }
  }

  lemma {:induction false} PositiveAppend(remittances: seq<int>, last: int)
    ensures Positive(remittances + [last]) == Positive(remittances) + (if last > 0 then last else 0)
  {
    if remittances == [] {
      assert [] + [last] == [last] && [last][1..] == [];
    } else {
      assert (remittances + [last])[1..] == remittances[1..] + [last];
      PositiveAppend(remittances[1..], last);
    }
  }

  lemma {:induction false} PaidIsPlain(remittances: seq<int>)
    requires forall i :: 0 <= i < |remittances| ==> remittances[i] >= 0
    ensures Paid(remittances) == Plain(remittances)
  {
    if remittances != [] {
      PaidIsPlain(remittances[..|remittances| - 1]);
    }
  }

  /** Remittances totalling `p`, however split, leave what one remittance of `p` leaves. */
  lemma SplitDoesNotMatter(branch: seq<Order>, couriers: seq<Order>, tariffs: Tariffs, remittances: seq<int>, p: int)
    requires forall i :: 0 <= i < |remittances| ==> remittances[i] >= 0
    requires Plain(remittances) == p
    ensures Remaining(branch, couriers, tariffs, remittances)
         == Max(Round(TotalPayable(Merged(branch + couriers), tariffs)) - p, 0)
         == Remaining(branch, couriers, tariffs, [p])
  {
    PaidIsPlain(remittances);
    PlainNonNegative(remittances);
    assert [p][..0] == [];
    assert Paid([p]) == p;
  }

  lemma {:induction false} PlainNonNegative(remittances: seq<int>)
    requires forall i :: 0 <= i < |remittances| ==> remittances[i] >= 0
    ensures Plain(remittances) >= 0
  {
    if remittances != [] {
      PlainNonNegative(remittances[..|remittances| - 1]);
    }
  }

  /** The shown debt after each remittance: it falls by the remittance and stops at zero. */
  function PayDown(debt: int, remittances: seq<int>): int {
    if remittances == [] then Max(debt, 0)
    else Max(PayDown(debt, remittances[..|remittances| - 1]) - Max(remittances[|remittances| - 1], 0), 0)
  }

  /** Paying down step by step ends where subtracting the total would. */
  lemma {:induction false} PayDownIsRemaining(branch: seq<Order>, couriers: seq<Order>, tariffs: Tariffs, remittances: seq<int>)
    ensures Remaining(branch, couriers, tariffs, remittances)
         == PayDown(Round(TotalPayable(Merged(branch + couriers), tariffs)), remittances)
  {
    if remittances != [] {
      PayDownIsRemaining(branch, couriers, tariffs, remittances[..|remittances| - 1]);
    }
  }
}
