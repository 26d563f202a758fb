/** Cashbox balances and their history: one balance update per business event, however often the event
    is delivered (updateBalance in the finance service and the history's unique index).

    Money is counted in hundredths. */
module CashboxLedger {
  import opened Prelude

  type BoxId = nat

  datatype BoxKind = MAIN | FOR_COURIER | FOR_MARKET | BRANCH

  datatype Operation = INCOME | EXPENSE

  datatype PayMethod = CASH | CLICK | CLICK_TO_MARKET

  datatype Source =
    | COURIER_PAYMENT | BRANCH_TO_MAIN | MARKET_PAYMENT | MANUAL_EXPENSE | MANUAL_INCOME | CORRECTION
    | SALARY | SELL | CANCEL | EXTRA_COST | BILLS

  datatype Cashbox = Cashbox(kind: BoxKind, user: nat, balance: int, cash: int, card: int, deleted: bool)

  /** A balance update as delivered: `sourceId` is absent for manual adjustments, `epoch` is empty for
      callers that do not tell attempts apart. */
  datatype Event = Event(
    box: BoxId, op: Operation, source: Source, sourceId: Option<nat>, epoch: string, amount: int, pay: PayMethod)

  datatype Entry = Entry(event: Event, deleted: bool)

  datatype Ledger = Ledger(boxes: map<BoxId, Cashbox>, history: seq<Entry>)

  datatype Refusal = BadAmount | NoSuchBox | Insufficient

  datatype Outcome = Applied | Replayed | Refused(why: Refusal)

  // ---- Keys --------------------------------------------------------------------------------------

  /** Which unique key is in force: the first four columns, or all five with the epoch. */
  datatype KeyColumns = Four | Five

  predicate SameKey(k: KeyColumns, e: Event, f: Event) {
    && e.box == f.box && e.source == f.source && e.sourceId == f.sourceId && e.op == f.op
    && (k.Five? ==> e.epoch == f.epoch)
  }

  /** Events that can be recognised when they come again. */
  predicate Keyed(e: Event) {
    e.sourceId.Some? || e.epoch != ""
  }

  predicate Recorded(k: KeyColumns, history: seq<Entry>, e: Event) {
    exists i :: 0 <= i < |history| && SameKey(k, history[i].event, e)
  }

  /** The partial unique index: live rows with a source id have distinct keys. */
  ghost predicate IndexHolds(k: KeyColumns, history: seq<Entry>) {
    forall i, j :: 0 <= i < j < |history| ==>
      history[i].deleted || history[j].deleted || history[i].event.sourceId.None?
      || !SameKey(k, history[i].event, history[j].event)
  }

  // ---- One delivery ------------------------------------------------------------------------------

  function Signed(e: Event): int {
    if e.op.INCOME? then e.amount else -e.amount
  }

  function CashPart(e: Event): int {
    if e.pay.CASH? then Signed(e) else 0
  }

  function CardPart(e: Event): int {
    if e.pay.CASH? then 0 else Signed(e)
  }

  /** Market, courier and branch cashboxes may go below zero in this path. */
  predicate MayGoNegative(kind: BoxKind) {
    !kind.MAIN?
  }

  predicate Short(b: Cashbox, e: Event) {
    !MayGoNegative(b.kind) && (if e.pay.CASH? then b.cash + Signed(e) < 0 else b.card + Signed(e) < 0)
  }

  predicate LiveBox(l: Ledger, id: BoxId) {
    id in l.boxes && !l.boxes[id].deleted
  }

  function Verdict(k: KeyColumns, l: Ledger, e: Event): Outcome {
    if e.amount <= 0 then Refused(BadAmount)
    else if !LiveBox(l, e.box) then Refused(NoSuchBox)
    else if Keyed(e) && Recorded(k, l.history, e) then Replayed
    else if Short(l.boxes[e.box], e) then Refused(Insufficient)
    else Applied
  }

  function Credited(b: Cashbox, e: Event): Cashbox {
    var cash, card := b.cash + CashPart(e), b.card + CardPart(e);
    b.(cash := cash, card := card, balance := cash + card)
  }

  function Deliver(k: KeyColumns, l: Ledger, e: Event): Ledger {
    if Verdict(k, l, e).Applied?
    then Ledger(l.boxes[e.box := Credited(l.boxes[e.box], e)], l.history + [Entry(e, false)])
    else l
  }

  function DeliverAll(k: KeyColumns, l: Ledger, events: seq<Event>): Ledger {
    if events == [] then l
    else Deliver(k, DeliverAll(k, l, events[..|events| - 1]), events[|events| - 1])
  }

  /** updateBalance: one transaction under the cashbox's row lock. */
  class FinanceService {
    var ledger: Ledger

    constructor (ledger: Ledger)
      ensures this.ledger == ledger
    {
      this.ledger := ledger;
    }

    method UpdateBalance(e: Event) returns (outcome: Outcome)
      modifies this
      ensures outcome == Verdict(Five, old(ledger), e)
      ensures ledger == Deliver(Five, old(ledger), e)
    {
      if e.amount <= 0 {
        return Refused(BadAmount);
      }
      if e.box !in ledger.boxes || ledger.boxes[e.box].deleted {
        return Refused(NoSuchBox);
      }
      if e.sourceId.Some? || |e.epoch| > 0 {
        for i := 0 to |ledger.history|
          invariant ledger == old(ledger)
          invariant forall j :: 0 <= j < i ==> !SameKey(Five, ledger.history[j].event, e)
        {
          var row := ledger.history[i].event;
          if row.box == e.box && row.source == e.source && row.op == e.op && row.sourceId == e.sourceId && row.epoch == e.epoch {
            return Replayed;
          }
        }
      }
      var box := ledger.boxes[e.box];
      var sign := if e.op == INCOME then 1 else -1;
      var mayGoNegative := box.kind == FOR_MARKET || box.kind == FOR_COURIER || box.kind == BRANCH;
      if e.pay == CASH {
        var nextCash := box.cash + sign * e.amount;
        if !mayGoNegative && nextCash < 0 {
          return Refused(Insufficient);
        }
        box := box.(cash := nextCash);
      } else {
        var nextCard := box.card + sign * e.amount;
        if !mayGoNegative && nextCard < 0 {
          return Refused(Insufficient);
        }
        box := box.(card := nextCard);
      }
      box := box.(balance := box.cash + box.card);
      ledger := Ledger(ledger.boxes[e.box := box], ledger.history + [Entry(e, false)]);
      return Applied;
    }
  }

  // ---- Which deliveries count, column by column ---------------------------------------------------

  /** The five columns of the unique key agree. */
  ghost predicate FiveColumns(e: Event, f: Event) {
    e.box == f.box && e.source == f.source && e.sourceId == f.sourceId && e.op == f.op && e.epoch == f.epoch
  }

  /** What an event asks of the cash and of the card money of a cashbox. */
  ghost function CashAsked(e: Event, id: BoxId): int {
    if e.box != id || e.pay != CASH then 0 else if e.op == INCOME then e.amount else -e.amount
  }

  ghost function CardAsked(e: Event, id: BoxId): int {
    if e.box != id || e.pay == CASH then 0 else if e.op == INCOME then e.amount else -e.amount
  }

  /** A positive amount for a live cashbox is a replay exactly when it has a source id or an epoch and some
      history row agrees in all five columns. Otherwise it is applied, unless the cashbox is the main one
      and the money it would take from is short. */
  lemma VerdictByColumns(l: Ledger, e: Event)
    requires e.amount > 0 && e.box in l.boxes && !l.boxes[e.box].deleted
    ensures var replay := (e.sourceId != None || e.epoch != "")
                          && exists i :: 0 <= i < |l.history| && FiveColumns(l.history[i].event, e);
            var b := l.boxes[e.box];
            && (Verdict(Five, l, e) == Replayed <==> replay)
            && (Verdict(Five, l, e) == Applied <==>
                  !replay && (b.kind != MAIN || if e.pay == CASH then b.cash + CashAsked(e, e.box) >= 0
                                                else b.card + CardAsked(e, e.box) >= 0))
  {
    if i :| 0 <= i < |l.history| && FiveColumns(l.history[i].event, e) {
      assert SameKey(Five, l.history[i].event, e);
    }
    if i :| 0 <= i < |l.history| && SameKey(Five, l.history[i].event, e) {
      assert FiveColumns(l.history[i].event, e);
    }
  }

  /** An applied delivery moves the money of its cashbox as asked and adds its row; anything else changes
      nothing. */
  lemma DeliveryDoesAsAsked(l: Ledger, e: Event, id: BoxId)
    requires id in l.boxes
    ensures var after := Deliver(Five, l, e);
            && (Verdict(Five, l, e) != Applied ==> after == l)
            && (Verdict(Five, l, e) == Applied ==>
                  && after.history == l.history + [Entry(e, false)] && after.boxes.Keys == l.boxes.Keys
                  && (id != e.box ==> after.boxes[id] == l.boxes[id])
                  && (id == e.box ==>
                        && after.boxes[id].cash == l.boxes[id].cash + CashAsked(e, id)
                        && after.boxes[id].card == l.boxes[id].card + CardAsked(e, id)
                        && after.boxes[id].balance == after.boxes[id].cash + after.boxes[id].card
                        && after.boxes[id].kind == l.boxes[id].kind && after.boxes[id].user == l.boxes[id].user
                        && after.boxes[id].deleted == l.boxes[id].deleted))
  {
  }

  /** The index is held exactly when no two live rows with a source id agree in all five columns. */
  lemma IndexByColumns(history: seq<Entry>)
    ensures IndexHolds(Five, history) <==>
              forall i, j ::
                0 <= i < j < |history| && !history[i].deleted && !history[j].deleted && history[i].event.sourceId != None ==>
                  !FiveColumns(history[i].event, history[j].event)
  {
    if IndexHolds(Five, history) {
      forall i, j | 0 <= i < j < |history| && !history[i].deleted && !history[j].deleted && history[i].event.sourceId != None
        ensures !FiveColumns(history[i].event, history[j].event)
      {
        assert !SameKey(Five, history[i].event, history[j].event);
      }
    } else {
      var i, j :| 0 <= i < j < |history| && !history[i].deleted && !history[j].deleted && history[i].event.sourceId != None
                  && SameKey(Five, history[i].event, history[j].event);
    }
  }

  /** A well-formed event that is recognisable, for a live cashbox other than the main one. */
  ghost predicate Payable(l: Ledger, e: Event) {
    && e.amount > 0 && (e.sourceId != None || e.epoch != "")
    && e.box in l.boxes && !l.boxes[e.box].deleted && l.boxes[e.box].kind != MAIN
  }

  /** Two such events that are not on record count both if they differ in any of the five columns, and as
      one if they agree in all. */
  lemma DifferentEventsBothCount(l: Ledger, e: Event, f: Event, id: BoxId)
    requires Payable(l, e) && Payable(l, f) && id in l.boxes
    requires forall i :: 0 <= i < |l.history| ==> !FiveColumns(l.history[i].event, e) && !FiveColumns(l.history[i].event, f)
    ensures var after := DeliverAll(Five, l, [e, f]);
            && id in after.boxes
            && after.boxes[id].cash == l.boxes[id].cash + CashAsked(e, id) + (if FiveColumns(e, f) then 0 else CashAsked(f, id))
            && after.boxes[id].card == l.boxes[id].card + CardAsked(e, id) + (if FiveColumns(e, f) then 0 else CardAsked(f, id))
            && after.history == l.history + [Entry(e, false)] + (if FiveColumns(e, f) then [] else [Entry(f, false)])
            && (id == e.box || (id == f.box && !FiveColumns(e, f)) ==>
                  after.boxes[id].balance == after.boxes[id].cash + after.boxes[id].card)
  {
    TwoDeliveries(l, e, f);
    VerdictByColumns(l, e);
    DeliveryDoesAsAsked(l, e, id);
    DeliveryDoesAsAsked(l, e, f.box);
    DeliveryDoesAsAsked(l, e, e.box);
    var mid := Deliver(Five, l, e);
    assert mid.history[|l.history|].event == e;
    forall i | 0 <= i < |mid.history| ensures FiveColumns(mid.history[i].event, f) <==> i == |l.history| && FiveColumns(e, f) {
    }
    hide Deliver, Verdict, DeliverAll;
    VerdictByColumns(mid, f);
    DeliveryDoesAsAsked(mid, f, id);
  }

  // ---- Balance against history ---------------------------------------------------------------------

  function SignedSum(history: seq<Entry>, id: BoxId): int {
    if history == [] then 0
    else
      var last := history[|history| - 1];
      SignedSum(history[..|history| - 1], id) + (if last.deleted || last.event.box != id then 0 else Signed(last.event))
  }

  /** I1 and I2 as the invariant script measures them. */
  function Diff(l: Ledger, id: BoxId): int
    requires id in l.boxes
  {
    l.boxes[id].balance - SignedSum(l.history, id)
  }

  function SplitDiff(b: Cashbox): int {
    b.balance - (b.cash + b.card)
  }

  ghost predicate Reconciles(l: Ledger) {
    forall id :: LiveBox(l, id) ==> Diff(l, id) == 0 && SplitDiff(l.boxes[id]) == 0
  }

  lemma SignedSumAppend(history: seq<Entry>, e: Event, id: BoxId)
    ensures SignedSum(history + [Entry(e, false)], id) == SignedSum(history, id) + (if e.box == id then Signed(e) else 0)
  {
    assert (history + [Entry(e, false)])[..|history|] == history;
  }

  /** What one applied update does to the two drifts: the split drift of its cashbox is absorbed, and
      the history drift changes by exactly that much. Nothing else moves. */
  lemma DeliveryMovesDrift(k: KeyColumns, l: Ledger, e: Event, id: BoxId)
    requires id in l.boxes && Verdict(k, l, e).Applied?
    ensures var after := Deliver(k, l, e);
            && id in after.boxes
            && (id == e.box ==> SplitDiff(after.boxes[id]) == 0 && Diff(after, id) == Diff(l, id) - SplitDiff(l.boxes[id]))
            && (id != e.box ==> after.boxes[id] == l.boxes[id] && Diff(after, id) == Diff(l, id))
  {
    var after := Deliver(k, l, e);
    assert after.boxes == l.boxes[e.box := Credited(l.boxes[e.box], e)] && after.history == l.history + [Entry(e, false)];
    hide Deliver, Verdict, SignedSum;
    SignedSumAppend(l.history, e, id);
  }

  lemma DeliveryKeepsIndex(k: KeyColumns, l: Ledger, e: Event)
    requires IndexHolds(k, l.history)
    ensures IndexHolds(k, Deliver(k, l, e).history)
  {
    if Verdict(k, l, e).Applied? && e.sourceId.Some? {
      var after := Deliver(k, l, e).history;
      forall i, j | 0 <= i < j < |after|
        ensures after[i].deleted || after[j].deleted || after[i].event.sourceId.None?
                || !SameKey(k, after[i].event, after[j].event)
      {
        if j == |l.history| {
          assert !SameKey(k, l.history[i].event, e);
        }
      }
    }
  }

  /** Every run of deliveries keeps balances equal to signed history, the split exact, and the key unique. */
  lemma {:induction false} RunsReconcile(k: KeyColumns, l: Ledger, events: seq<Event>)
    requires Reconciles(l) && IndexHolds(k, l.history)
    ensures Reconciles(DeliverAll(k, l, events)) && IndexHolds(k, DeliverAll(k, l, events).history)
  {
    if events != [] {
      var init, e := events[..|events| - 1], events[|events| - 1];
      var before := DeliverAll(k, l, init);
      RunsReconcile(k, l, init);
      DeliveryKeepsIndex(k, before, e);
      if Verdict(k, before, e).Applied? {
        forall id | LiveBox(Deliver(k, before, e), id)
          ensures Diff(Deliver(k, before, e), id) == 0 && SplitDiff(Deliver(k, before, e).boxes[id]) == 0
        {
          DeliveryMovesDrift(k, before, e, id);
        }
      }
    }
  }

  // ---- Duplicates and reorderings ------------------------------------------------------------------

  /** Deliveries of one key are deliveries of one event. */
  ghost predicate Consistent(events: seq<Event>) {
    forall e, f :: e in events && f in events && SameKey(Five, e, f) ==> e == f
  }

  /** The deliveries to `id` are well formed and can be recognised when they come again. */
  ghost predicate WellFormed(events: seq<Event>, id: BoxId) {
    forall e :: e in events && e.box == id ==> e.amount > 0 && Keyed(e)
  }

  /** The same events, whatever their order and however often each comes. */
  ghost predicate SameEvents(events: seq<Event>, others: seq<Event>) {
    forall e :: e in events <==> e in others
  }

  /** The distinct events of a delivery sequence that concern `id` and are new to the ledger. */
  ghost function Fresh(l: Ledger, events: seq<Event>, id: BoxId): set<Event> {
    set e | e in events && e.box == id && !Recorded(Five, l.history, e)
  }

  /** Those of them that the deliveries put on record. */
  ghost function Counted(l: Ledger, events: seq<Event>, id: BoxId): set<Event> {
    set e | e in Fresh(l, events, id) && Recorded(Five, DeliverAll(Five, l, events).history, e)
  }

  /** What a delivery leaves in place: the set of boxes, their kind, owner and deletion flag. */
  ghost predicate SameBoxes(l: Ledger, m: Ledger) {
    && l.boxes.Keys == m.boxes.Keys
    && forall id :: id in l.boxes ==>
         l.boxes[id].kind == m.boxes[id].kind && l.boxes[id].user == m.boxes[id].user && l.boxes[id].deleted == m.boxes[id].deleted
  }

  /** `after` is `l` with the events of `booked` added to the cashbox `id`, each once. */
  ghost predicate Books(l: Ledger, id: BoxId, booked: set<Event>, after: Ledger)
    requires id in l.boxes
  {
    && SameBoxes(l, after)
    && after.boxes[id].cash == l.boxes[id].cash + Sum(booked, CashPart)
    && after.boxes[id].card == l.boxes[id].card + Sum(booked, CardPart)
  }

  lemma DeliveryRecords(l: Ledger, e: Event, f: Event)
    ensures Recorded(Five, Deliver(Five, l, e).history, f)
       <==> Recorded(Five, l.history, f) || (Verdict(Five, l, e).Applied? && SameKey(Five, e, f))
  {
    var after := Deliver(Five, l, e).history;
    if Recorded(Five, l.history, f) {
      var i :| 0 <= i < |l.history| && SameKey(Five, l.history[i].event, f);
      assert after[i] == l.history[i];
    }
    if Verdict(Five, l, e).Applied? && SameKey(Five, e, f) {
      assert after[|l.history|].event == e;
    }
  }

  /** History only grows, and only by what was delivered. */
  lemma {:induction false} RecordedAfter(l: Ledger, events: seq<Event>, f: Event)
    ensures Recorded(Five, l.history, f) ==> Recorded(Five, DeliverAll(Five, l, events).history, f)
    ensures Recorded(Five, DeliverAll(Five, l, events).history, f) ==>
              Recorded(Five, l.history, f) || exists e :: e in events && SameKey(Five, e, f)
  {
    if events != [] {
      var init, e := events[..|events| - 1], events[|events| - 1];
      assert e in events && forall g :: g in init ==> g in events;
      RecordedAfter(l, init, f);
      DeliveryRecords(DeliverAll(Five, l, init), e, f);
    }
  }

  /** Whatever is refused or repeated, a cashbox ends at its money before plus the new events on record,
      each counted once. */
  lemma {:induction false} RecordedCountOnce(l: Ledger, events: seq<Event>, id: BoxId)
    requires Consistent(events) && WellFormed(events, id) && id in l.boxes
    ensures Books(l, id, Counted(l, events, id), DeliverAll(Five, l, events))
  {
    if events == [] {
      assert Counted(l, events, id) == {};
    } else {
      var init, e := events[..|events| - 1], events[|events| - 1];
      hide Deliver, Counted, Books, SameBoxes;
      assert events == init + [e];
      var before := DeliverAll(Five, l, init);
      DeliverLast(l, init, e);
      RecordedCountOnce(l, init, id);
      CountOneMore(l, init, e, id);
      BookOneMore(l, Counted(l, init, id), before, e, id);
    }
  }

  lemma BookOneMore(l: Ledger, booked: set<Event>, before: Ledger, e: Event, id: BoxId)
    requires id in l.boxes && Books(l, id, booked, before)
    requires Verdict(Five, before, e).Applied? && e.box == id ==> e !in booked
    ensures Books(l, id, booked + (if Verdict(Five, before, e).Applied? && e.box == id then {e} else {}),
                  Deliver(Five, before, e))
  {
    hide Recorded;
    if Verdict(Five, before, e).Applied? && e.box == id {
      SumPut(booked, CashPart, e);
      SumPut(booked, CardPart, e);
    } else {
      assert booked + {} == booked;
    }
  }

  lemma CountOneMore(l: Ledger, init: seq<Event>, e: Event, id: BoxId)
    requires Consistent(init + [e]) && WellFormed(init + [e], id)
    ensures var applied := Verdict(Five, DeliverAll(Five, l, init), e).Applied? && e.box == id;
            && (applied ==> e !in Counted(l, init, id))
            && Counted(l, init + [e], id) == Counted(l, init, id) + (if applied then {e} else {})
  {
    var before := DeliverAll(Five, l, init);
    var applied := Verdict(Five, before, e).Applied? && e.box == id;
    DeliverLast(l, init, e);
    RecordedAfter(l, init, e);
    assert e in init + [e];
    forall f | f in Fresh(l, init + [e], id)
      ensures f in Counted(l, init + [e], id) <==> f in Counted(l, init, id) || (applied && f == e)
    {
      DeliveryRecords(before, e, f);
    }
  }

  lemma DeliverLast(l: Ledger, init: seq<Event>, e: Event)
    ensures DeliverAll(Five, l, init + [e]) == Deliver(Five, DeliverAll(Five, l, init), e)
  {
    assert (init + [e])[..|init|] == init;
  }

  // ---- When every event counts -----------------------------------------------------------------------

  function Incoming(e: Event): int {
    if e.op.INCOME? then e.amount else 0
  }

  function CashOut(e: Event): int {
    if e.pay.CASH? && e.op.EXPENSE? then e.amount else 0
  }

  function CardOut(e: Event): int {
    if !e.pay.CASH? && e.op.EXPENSE? then e.amount else 0
  }

  /** The cash pocket or the card pocket of a cashbox, and what an event adds to it or takes from it. */
  function Held(b: Cashbox, cash: bool): int {
    if cash then b.cash else b.card
  }

  function PartOf(cash: bool): Event -> int {
    if cash then CashPart else CardPart
  }

  function OutOf(cash: bool): Event -> int {
    if cash then CashOut else CardOut
  }

  /** The pocket an event touches stays at zero or above even if every expense of `s` from it comes first. */
  ghost predicate Covers(b: Cashbox, s: set<Event>, e: Event) {
    Held(b, e.pay.CASH?) - Sum(s, OutOf(e.pay.CASH?)) + Incoming(e) >= 0
  }

  ghost predicate Covered(b: Cashbox, s: set<Event>) {
    MayGoNegative(b.kind) || forall e :: e in s ==> Covers(b, s, e)
  }

  /** Among the events `s`, with `e` one of the events `q` seen so far, `q` moves a pocket no lower than
      all expenses of `s` would. */
  lemma LowestPoint(s: set<Event>, q: set<Event>, e: Event, cash: bool)
    requires q <= s && e in q && e.pay.CASH? == cash && forall x :: x in s ==> x.amount > 0
    ensures Sum(q, PartOf(cash)) >= Incoming(e) - Sum(s, OutOf(cash))
  {
    var part, out := PartOf(cash), OutOf(cash);
    SumTakeOut(q, part, e);
    SumTakeOut(q, out, e);
    SumsOffset(q - {e}, part, out);
    SumUnion(q, s - q, out);
    assert q + (s - q) == s;
    SumAtMost(s - q, x => 0, out);
    SumOfZeros(s - q);
  }

  lemma {:induction false} SumOfZeros(s: set<Event>)
    ensures Sum(s, x => 0) == 0
  {
    SumsOffset(s, x => 0, x => 0);
  }

  /** When the cashbox covers the new events of a delivery sequence, all of them get on record. */
  lemma {:induction false} AllAreCounted(l: Ledger, events: seq<Event>, id: BoxId, s: set<Event>)
    requires Consistent(events) && WellFormed(events, id) && LiveBox(l, id)
    requires Fresh(l, events, id) <= s && Covered(l.boxes[id], s) && forall x :: x in s ==> x.amount > 0
    ensures Counted(l, events, id) == Fresh(l, events, id)
  {
    if events != [] {
      var init, e := events[..|events| - 1], events[|events| - 1];
      assert events == init + [e];
      AllAreCounted(l, init, id, s);
      CountOneMore(l, init, e, id);
      if e in Fresh(l, events, id) && !Recorded(Five, DeliverAll(Five, l, init).history, e) {
        NotShort(l, init, e, id, s);
      }
    }
  }

  lemma NotShort(l: Ledger, init: seq<Event>, e: Event, id: BoxId, s: set<Event>)
    requires Consistent(init) && WellFormed(init, id) && LiveBox(l, id) && e.box == id && e.amount > 0
    requires Fresh(l, init, id) + {e} <= s && Covered(l.boxes[id], s) && forall x :: x in s ==> x.amount > 0
    requires Counted(l, init, id) == Fresh(l, init, id) && e !in Fresh(l, init, id)
    requires !Recorded(Five, DeliverAll(Five, l, init).history, e)
    ensures Verdict(Five, DeliverAll(Five, l, init), e).Applied?
  {
    var q, cash := Fresh(l, init, id), e.pay.CASH?;
    RecordedCountOnce(l, init, id);
    SumPut(q, PartOf(cash), e);
    LowestPoint(s, q + {e}, e, cash);
    assert MayGoNegative(l.boxes[id].kind) || Covers(l.boxes[id], s, e);
  }

  /** An order of the same events in which some event is refused for good: a pocket's expenses first. */
  lemma RefusedInSomeOrder(l: Ledger, events: seq<Event>, id: BoxId) returns (others: seq<Event>)
    requires Consistent(events) && WellFormed(events, id) && LiveBox(l, id)
    requires !Covered(l.boxes[id], Fresh(l, events, id))
    ensures SameEvents(events, others) && Counted(l, others, id) != Fresh(l, others, id)
  {
    var s := Fresh(l, events, id);
    var x :| x in s && !Covers(l.boxes[id], s, x);
    var cash := x.pay.CASH?;
    var first := set e | e in s && e.pay.CASH? == cash && (e.op.EXPENSE? || e == x);
    var p := Enumerate(first);
    var rest := Enumerate((set e | e in events) - first);
    others := p + rest;
    if Counted(l, others, id) == Fresh(l, others, id) {
      assert x in p;
      FirstAreOnRecord(l, p, rest, id);
      LastLeftEnough(l, p, id, cash);
      assert Counted(l, p, id) == first;
      FirstAreShort(s, first, x);
      assert false;
    }
  }

  lemma {:induction false} Enumerate(s: set<Event>) returns (q: seq<Event>)
    ensures Lists(q, s)
    decreases |s|
  {
    if e :| e in s {
      q := Enumerate(s - {e});
      q := q + [e];
    } else {
      q := [];
    }
  }

  /** Everything a pocket's expenses and `x` add up to is below what `x` needs. */
  lemma FirstAreShort(s: set<Event>, first: set<Event>, x: Event)
    requires x in s && forall e :: e in s ==> e.amount > 0
    requires first == set e | e in s && e.pay.CASH? == x.pay.CASH? && (e.op.EXPENSE? || e == x)
    ensures Sum(first, PartOf(x.pay.CASH?)) == Incoming(x) - Sum(s, OutOf(x.pay.CASH?))
  {
    var part, out := PartOf(x.pay.CASH?), OutOf(x.pay.CASH?);
    OnlyFirstTake(s, first, out);
    SumTakeOut(first, part, x);
    SumTakeOut(first, out, x);
    SumsOffset(first - {x}, part, out);
  }

  lemma OnlyFirstTake(s: set<Event>, first: set<Event>, out: Event -> int)
    requires first <= s && forall e :: e in s - first ==> out(e) == 0
    ensures Sum(first, out) == Sum(s, out)
  {
    SumUnion(first, s - first, out);
    assert first + (s - first) == s;
    SumsOffset(s - first, out, x => 0);
    SumOfZeros(s - first);
  }

  /** Events that do not come again are on record at the end only if they were when their turn was over. */
  lemma FirstAreOnRecord(l: Ledger, p: seq<Event>, rest: seq<Event>, id: BoxId)
    requires Consistent(p + rest) && forall e :: e in p ==> e in Fresh(l, p, id) && e !in rest
    requires Counted(l, p + rest, id) == Fresh(l, p + rest, id)
    ensures Counted(l, p, id) == Fresh(l, p, id)
  {
    DeliverInTwo(l, p, rest);
    forall e | e in Fresh(l, p, id) ensures e in Counted(l, p, id) {
      assert e in Fresh(l, p + rest, id);
      RecordedAfter(DeliverAll(Five, l, p), rest, e);
    }
  }

  lemma {:induction false} DeliverInTwo(l: Ledger, p: seq<Event>, rest: seq<Event>)
    ensures DeliverAll(Five, l, p + rest) == DeliverAll(Five, DeliverAll(Five, l, p), rest)
  {
    if rest == [] {
      assert p + rest == p;
    } else {
      var init, e := rest[..|rest| - 1], rest[|rest| - 1];
      assert p + rest == p + init + [e] && rest == init + [e];
      DeliverInTwo(l, p, init);
      DeliverLast(l, p + init, e);
      DeliverLast(DeliverAll(Five, l, p), init, e);
    }
  }

  /** The main cashbox took the last of some new events, so its pocket was not overdrawn. */
  lemma LastLeftEnough(l: Ledger, p: seq<Event>, id: BoxId, cash: bool)
    requires Consistent(p) && WellFormed(p, id) && LiveBox(l, id) && !MayGoNegative(l.boxes[id].kind)
    requires p != [] && Distinct(p) && forall e :: e in p ==> e in Fresh(l, p, id) && e.pay.CASH? == cash
    requires Counted(l, p, id) == Fresh(l, p, id)
    ensures Held(l.boxes[id], cash) + Sum(Counted(l, p, id), PartOf(cash)) >= 0
  {
    var init, e := p[..|p| - 1], p[|p| - 1];
    assert p == init + [e] && e in p && e !in init;
    RecordedCountOnce(l, p, id);
    RecordedCountOnce(l, init, id);
    CountOneMore(l, init, e, id);
    assert e !in Counted(l, init, id);
    assert Verdict(Five, DeliverAll(Five, l, init), e).Applied?;
  }

  /** A cashbox of any kind and with any opening: all orders and repetitions of the same events put every
      new event on record exactly when the cashbox covers them. */
  lemma EveryOrderCounts(l: Ledger, events: seq<Event>, id: BoxId)
    requires Consistent(events) && WellFormed(events, id) && LiveBox(l, id)
    ensures (forall others :: SameEvents(events, others) ==> Counted(l, others, id) == Fresh(l, others, id))
       <==> Covered(l.boxes[id], Fresh(l, events, id))
  {
    if Covered(l.boxes[id], Fresh(l, events, id)) {
      forall others | SameEvents(events, others) ensures Counted(l, others, id) == Fresh(l, others, id) {
        assert Fresh(l, others, id) == Fresh(l, events, id);
        AllAreCounted(l, others, id, Fresh(l, events, id));
      }
    } else {
      var others := RefusedInSomeOrder(l, events, id);
    }
  }

  /** Whatever the duplicates and the order, a cashbox that covers the new events ends at its money before
      plus their sum. */
  lemma EachEventOnce(l: Ledger, events: seq<Event>, id: BoxId)
    requires Consistent(events) && WellFormed(events, id) && LiveBox(l, id)
    requires Covered(l.boxes[id], Fresh(l, events, id))
    ensures Books(l, id, Fresh(l, events, id), DeliverAll(Five, l, events))
  {
    AllAreCounted(l, events, id, Fresh(l, events, id));
    RecordedCountOnce(l, events, id);
  }

  /** Two delivery sequences of the same events leave such a cashbox with the same money. */
  lemma OrderDoesNotMatter(l: Ledger, events: seq<Event>, others: seq<Event>, id: BoxId)
    requires Consistent(events) && WellFormed(events, id) && LiveBox(l, id) && SameEvents(events, others)
    requires Covered(l.boxes[id], Fresh(l, events, id))
    ensures var a, b := DeliverAll(Five, l, events), DeliverAll(Five, l, others);
            && id in a.boxes && id in b.boxes
            && a.boxes[id].cash == b.boxes[id].cash && a.boxes[id].card == b.boxes[id].card
  {
    assert Fresh(l, events, id) == Fresh(l, others, id);
    EachEventOnce(l, events, id);
    EachEventOnce(l, others, id);
  }

  // ---- The main cashbox --------------------------------------------------------------------------------

  ghost predicate SoundMain(l: Ledger, id: BoxId) {
    LiveBox(l, id) && l.boxes[id].kind.MAIN? && l.boxes[id].cash >= 0 && l.boxes[id].card >= 0
  }

  /** The main cashbox never goes below zero and so never refuses money coming in. */
  lemma {:induction false} MainTakesIncome(l: Ledger, events: seq<Event>, id: BoxId)
    requires Consistent(events) && WellFormed(events, id) && SoundMain(l, id)
    ensures SoundMain(DeliverAll(Five, l, events), id)
    ensures forall e :: e in Fresh(l, events, id) && e !in Counted(l, events, id) ==> e.op.EXPENSE?
  {
    if events != [] {
      var init, e := events[..|events| - 1], events[|events| - 1];
      assert events == init + [e];
      MainTakesIncome(l, init, id);
      CountOneMore(l, init, e, id);
      forall f | f in Fresh(l, events, id) && f !in Counted(l, events, id) ensures f.op.EXPENSE? {
        if f == e && e !in init {
          RefusedExpense(l, init, e, id);
        }
      }
    }
  }

  lemma RefusedExpense(l: Ledger, init: seq<Event>, e: Event, id: BoxId)
    requires Consistent(init + [e]) && e.box == id && e.amount > 0 && e !in init && !Recorded(Five, l.history, e)
    requires SoundMain(DeliverAll(Five, l, init), id) && !Verdict(Five, DeliverAll(Five, l, init), e).Applied?
    ensures e.op.EXPENSE?
  {
    RecordedAfter(l, init, e);
    assert e in init + [e];
  }

  /** So the sums give a refusal away: what is missing can only have lowered them. */
  lemma SumsTell(l: Ledger, events: seq<Event>, id: BoxId)
    requires Consistent(events) && WellFormed(events, id) && SoundMain(l, id)
    ensures Books(l, id, Fresh(l, events, id), DeliverAll(Five, l, events)) <==> Counted(l, events, id) == Fresh(l, events, id)
  {
    RecordedCountOnce(l, events, id);
    MainTakesIncome(l, events, id);
    var counted, due := Counted(l, events, id), Fresh(l, events, id);
    if e :| e in due - counted {
      assert counted + (due - counted) == due;
      SumUnion(counted, due - counted, PartOf(e.pay.CASH?));
      MissingIsBelow(due - counted, e);
    }
  }

  lemma MissingIsBelow(missing: set<Event>, e: Event)
    requires e in missing && forall x :: x in missing ==> x.op.EXPENSE? && x.amount > 0
    ensures Sum(missing, PartOf(e.pay.CASH?)) < 0
  {
    var part := PartOf(e.pay.CASH?);
    SumTakeOut(missing, part, e);
    SumAtMost(missing - {e}, part, x => 0);
    SumOfZeros(missing - {e});
  }

  /** The main cashbox: every order of the same deliveries ends at the opening plus the sum of the new
      events exactly when its cash covers all the cash expenses among them and its card money all the
      others. */
  lemma MainBoxOrder(l: Ledger, events: seq<Event>, id: BoxId)
    requires Consistent(events) && WellFormed(events, id) && SoundMain(l, id)
    ensures (forall others :: SameEvents(events, others) ==>
               Books(l, id, Fresh(l, others, id), DeliverAll(Five, l, others)))
       <==> && l.boxes[id].cash >= Sum(Fresh(l, events, id), CashOut)
            && l.boxes[id].card >= Sum(Fresh(l, events, id), CardOut)
  {
    forall others | SameEvents(events, others)
      ensures Books(l, id, Fresh(l, others, id), DeliverAll(Five, l, others)) <==> Counted(l, others, id) == Fresh(l, others, id)
    {
      SumsTell(l, others, id);
    }
    EveryOrderCounts(l, events, id);
    CoveredByFunds(l.boxes[id], Fresh(l, events, id));
  }

  lemma CoveredByFunds(b: Cashbox, s: set<Event>)
    requires b.kind.MAIN? && b.cash >= 0 && b.card >= 0 && forall e :: e in s ==> e.amount > 0
    ensures Covered(b, s) <==> b.cash >= Sum(s, CashOut) && b.card >= Sum(s, CardOut)
  {
    if Covered(b, s) {
      PocketCovered(b, s, true);
      PocketCovered(b, s, false);
    }
  }

  lemma PocketCovered(b: Cashbox, s: set<Event>, cash: bool)
    requires b.kind.MAIN? && Held(b, cash) >= 0 && Covered(b, s)
    ensures Held(b, cash) >= Sum(s, OutOf(cash))
  {
    if e :| e in s && e.pay.CASH? == cash && e.op.EXPENSE? {
      assert Covers(b, s, e);
    } else {
      SumsOffset(s, OutOf(cash), x => 0);
      SumOfZeros(s);
    }
  }

  /** A witness that funds matter: the same two events end at different balances. */
  lemma MainBoxOrderMatters(spend: Event, fill: Event, l: Ledger)
    requires spend == Event(1, EXPENSE, MANUAL_EXPENSE, Some(7), "", 500, CASH)
    requires fill == Event(1, INCOME, MANUAL_INCOME, Some(8), "", 500, CASH)
    requires l == Ledger(map[1 := Cashbox(MAIN, 0, 0, 0, 0, false)], [])
    ensures DeliverAll(Five, l, [spend, fill]).boxes == map[1 := Cashbox(MAIN, 0, 500, 500, 0, false)]
    ensures DeliverAll(Five, l, [fill, spend]).boxes == map[1 := Cashbox(MAIN, 0, 0, 0, 0, false)]
  {
    hide Deliver;
    TwoDeliveries(l, spend, fill);
    TwoDeliveries(l, fill, spend);
    SpendRefused(spend, l);
    FillTaken(fill, l);
    SpendTaken(spend, fill, Deliver(Five, l, fill));
  }

  lemma TwoDeliveries(l: Ledger, e: Event, f: Event)
    ensures DeliverAll(Five, l, [e, f]) == Deliver(Five, Deliver(Five, l, e), f)
  {
    assert DeliverAll(Five, l, []) == l;
    DeliverLast(l, [], e);
    DeliverLast(l, [e], f);
    assert [] + [e] == [e] && [e] + [f] == [e, f];
  }

  lemma SpendRefused(spend: Event, l: Ledger)
    requires spend == Event(1, EXPENSE, MANUAL_EXPENSE, Some(7), "", 500, CASH)
    requires l == Ledger(map[1 := Cashbox(MAIN, 0, 0, 0, 0, false)], [])
    ensures Deliver(Five, l, spend) == l
  {
  }

  lemma FillTaken(fill: Event, l: Ledger)
    requires fill == Event(1, INCOME, MANUAL_INCOME, Some(8), "", 500, CASH)
    requires l == Ledger(map[1 := Cashbox(MAIN, 0, 0, 0, 0, false)], [])
    ensures Deliver(Five, l, fill) == Ledger(map[1 := Cashbox(MAIN, 0, 500, 500, 0, false)], [Entry(fill, false)])
  {
    assert Verdict(Five, l, fill) == Applied;
  }

  lemma SpendTaken(spend: Event, fill: Event, filled: Ledger)
    requires spend == Event(1, EXPENSE, MANUAL_EXPENSE, Some(7), "", 500, CASH)
    requires fill == Event(1, INCOME, MANUAL_INCOME, Some(8), "", 500, CASH)
    requires filled == Ledger(map[1 := Cashbox(MAIN, 0, 500, 500, 0, false)], [Entry(fill, false)])
    ensures Deliver(Five, filled, spend).boxes == map[1 := Cashbox(MAIN, 0, 0, 0, 0, false)]
  {
    assert !Recorded(Five, filled.history, spend);
    assert Verdict(Five, filled, spend) == Applied;
  }

  // ---- Sell, roll back, sell again -----------------------------------------------------------------

  function Sell(id: BoxId, order: nat, epoch: string, amount: int): Event {
    Event(id, INCOME, SELL, Some(order), epoch, amount, CASH)
  }

  function Rollback(id: BoxId, order: nat, epoch: string, amount: int): Event {
    Event(id, EXPENSE, CORRECTION, Some(order), epoch, amount, CASH)
  }

  /** However the three events are duplicated and interleaved, with an epoch of its own the second sale
      counts beside the first. */
  lemma Resale(l: Ledger, id: BoxId, order: nat, sale: Event, undo: Event, resale: Event, events: seq<Event>)
    requires LiveBox(l, id) && MayGoNegative(l.boxes[id].kind) && sale.amount > 0 && undo.amount > 0 && resale.amount > 0
    requires sale == Sell(id, order, sale.epoch, sale.amount) && resale == Sell(id, order, resale.epoch, resale.amount)
    requires undo == Rollback(id, order, undo.epoch, undo.amount) && sale.epoch != resale.epoch
    requires forall e :: e in events <==> e == sale || e == undo || e == resale
    requires forall e :: e in events ==> !Recorded(Five, l.history, e)
    ensures var after := DeliverAll(Five, l, events);
            && id in after.boxes
            && after.boxes[id].cash == l.boxes[id].cash + sale.amount - undo.amount + resale.amount
  {
    EachEventOnce(l, events, id);
    assert Fresh(l, events, id) == {sale, undo, resale};
    SumOfThree(sale, undo, resale);
  }

  /** Under one shared epoch the sale that arrives first counts and the other is lost, whatever its amount. */
  lemma ResaleUnderOneEpoch(l: Ledger, id: BoxId, order: nat, early: Event, undo: Event, late: Event, events: seq<Event>)
    requires LiveBox(l, id) && MayGoNegative(l.boxes[id].kind) && early.amount > 0 && undo.amount > 0 && late.amount > 0
    requires early == Sell(id, order, early.epoch, early.amount) && late == Sell(id, order, early.epoch, late.amount)
    requires undo == Rollback(id, order, undo.epoch, undo.amount)
    requires forall e :: e in events <==> e == early || e == undo || e == late
    requires forall e :: e in events ==> !Recorded(Five, l.history, e)
    requires ComesFirst(events, early, late)
    ensures var after := DeliverAll(Five, l, events);
            && id in after.boxes
            && after.boxes[id].cash == l.boxes[id].cash + early.amount - undo.amount
  {
    var single := Unified(events, early, late);
    UnifiedHas(events, early, late, undo);
    UnifiedDelivers(l, events, early, late);
    hide DeliverAll, Recorded, SameKey, Unified;
    assert early in events && undo in events;
    SaleUndone(l, early, undo, single);
  }

  lemma SaleUndone(l: Ledger, sale: Event, undo: Event, events: seq<Event>)
    requires LiveBox(l, sale.box) && MayGoNegative(l.boxes[sale.box].kind) && sale.amount > 0 && undo.amount > 0
    requires Keyed(sale) && Keyed(undo) && sale.op.INCOME? && sale.pay.CASH? && undo.op.EXPENSE? && undo.pay.CASH?
    requires sale.box == undo.box && forall e :: e in events <==> e == sale || e == undo
    requires !Recorded(Five, l.history, sale) && !Recorded(Five, l.history, undo)
    ensures var after := DeliverAll(Five, l, events);
            && sale.box in after.boxes
            && after.boxes[sale.box].cash == l.boxes[sale.box].cash + sale.amount - undo.amount
  {
    EachEventOnce(l, events, sale.box);
    assert Fresh(l, events, sale.box) == {sale, undo};
    SumOfTwo(sale, undo);
  }

  /** No `x` is delivered before the first `w`. */
  ghost predicate ComesFirst(events: seq<Event>, w: Event, x: Event) {
    forall i :: 0 <= i < |events| && events[i] == x ==> w in events[..i + 1]
  }

  /** The deliveries with every `x` replaced by `w`. */
  function Unified(events: seq<Event>, w: Event, x: Event): (r: seq<Event>)
    ensures |r| == |events|
    ensures forall i :: 0 <= i < |r| ==> r[i] == if events[i] == x then w else events[i]
  {
    if events == [] then []
    else
      var e := events[|events| - 1];
      Unified(events[..|events| - 1], w, x) + [if e == x then w else e]
  }

  lemma UnifiedHas(events: seq<Event>, w: Event, x: Event, u: Event)
    requires forall e :: e in events <==> e == w || e == u || e == x
    requires u != x
    ensures forall e :: e in Unified(events, w, x) <==> e == w || e == u
  {
    var r := Unified(events, w, x);
    assert w in events && u in events;
    var i :| 0 <= i < |events| && events[i] == w;
    var j :| 0 <= j < |events| && events[j] == u;
    assert r[i] == w && r[j] == u;
    forall k | 0 <= k < |r| ensures r[k] == w || r[k] == u {
      assert events[k] in events;
    }
  }

  /** Once `w` has been applied, deliveries under its key are replays, so they may as well be `w`. */
  lemma {:induction false} UnifiedDelivers(l: Ledger, events: seq<Event>, w: Event, x: Event)
    requires SameKey(Five, w, x) && Keyed(w) && w.amount > 0 && x.amount > 0 && ComesFirst(events, w, x)
    requires LiveBox(l, w.box) && MayGoNegative(l.boxes[w.box].kind)
    ensures DeliverAll(Five, l, Unified(events, w, x)) == DeliverAll(Five, l, events)
    ensures SameBoxes(l, DeliverAll(Five, l, events))
    ensures w in events ==> Recorded(Five, DeliverAll(Five, l, events).history, w)
  {
    if events != [] {
      var init, e := events[..|events| - 1], events[|events| - 1];
      assert events == init + [e];
      assert ComesFirst(init, w, x) by {
        assert forall i :: 0 <= i < |init| ==> init[i] == events[i] && init[..i + 1] == events[..i + 1];
      }
      UnifiedDelivers(l, init, w, x);
      hide Deliver, Recorded, SameKey, SameBoxes;
      var before := DeliverAll(Five, l, init);
      DeliverLast(l, init, e);
      DeliverLast(l, Unified(init, w, x), if e == x then w else e);
      SettledStep(l, before, e, w);
      if e == x && w != x {
        assert w in events[..|init| + 1];
        ReplaysLeaveAlone(before, w, x);
      }
    }
  }

  lemma SettledStep(l: Ledger, before: Ledger, e: Event, w: Event)
    requires SameBoxes(l, before) && LiveBox(l, w.box) && MayGoNegative(l.boxes[w.box].kind) && Keyed(w) && w.amount > 0
    ensures SameBoxes(l, Deliver(Five, before, e))
    ensures e == w || Recorded(Five, before.history, w) ==> Recorded(Five, Deliver(Five, before, e).history, w)
  {
    DeliveryRecords(before, e, w);
  }

  lemma ReplaysLeaveAlone(l: Ledger, w: Event, x: Event)
    requires SameKey(Five, w, x) && Keyed(w) && w.amount > 0 && x.amount > 0
    requires Recorded(Five, l.history, w)
    ensures Deliver(Five, l, w) == l && Deliver(Five, l, x) == l
  {
    SameKeySameRecord(l.history, w, x);
  }

  lemma SameKeySameRecord(history: seq<Entry>, e: Event, f: Event)
    requires SameKey(Five, e, f)
    ensures Recorded(Five, history, e) <==> Recorded(Five, history, f)
  {
    if i :| 0 <= i < |history| && SameKey(Five, history[i].event, e) {
      assert SameKey(Five, history[i].event, f);
    }
    if i :| 0 <= i < |history| && SameKey(Five, history[i].event, f) {
      assert SameKey(Five, history[i].event, e);
    }
  }

  lemma SumOfTwo(a: Event, u: Event)
    requires a != u
    ensures Sum({a, u}, CashPart) == CashPart(a) + CashPart(u)
  {
    SumTakeOut({a, u}, CashPart, a);
    assert {a, u} - {a} == {u};
    SumTakeOut({u}, CashPart, u);
    assert {u} - {u} == {};
  }

  lemma SumOfThree(a: Event, u: Event, b: Event)
    requires a != u && u != b && a != b
    ensures Sum({a, u, b}, CashPart) == CashPart(a) + CashPart(u) + CashPart(b)
  {
    SumOfTwo(a, u);
    SumTakeOut({a, u, b}, CashPart, b);
    assert {a, u, b} - {b} == {a, u};
  }

  // ---- The older key -------------------------------------------------------------------------------

  ghost predicate NoEpochs(history: seq<Entry>) {
    forall i :: 0 <= i < |history| ==> history[i].event.epoch == ""
  }

  /** As long as nobody sets an epoch, the five-column key treats every delivery as the four-column key did. */
  lemma {:induction false} EmptyEpochsAsBefore(l: Ledger, events: seq<Event>)
    requires NoEpochs(l.history) && forall e :: e in events ==> e.epoch == ""
    ensures DeliverAll(Five, l, events) == DeliverAll(Four, l, events)
    ensures NoEpochs(DeliverAll(Five, l, events).history)
  {
    if events != [] {
      var init, e := events[..|events| - 1], events[|events| - 1];
      assert e in events && forall g :: g in init ==> g in events;
      EmptyEpochsAsBefore(l, init);
      var before := DeliverAll(Five, l, init);
      assert Recorded(Five, before.history, e) <==> Recorded(Four, before.history, e) by {
        if i :| 0 <= i < |before.history| && SameKey(Four, before.history[i].event, e) {
          assert SameKey(Five, before.history[i].event, e);
        }
        if i :| 0 <= i < |before.history| && SameKey(Five, before.history[i].event, e) {
          assert SameKey(Four, before.history[i].event, e);
        }
      }
    }
  }

  /** Replacing the index always succeeds on the way up. On the way down it succeeds exactly when no two
      live rows differ in nothing but the epoch. */
  lemma IndexSwap(history: seq<Entry>)
    ensures IndexHolds(Four, history) ==> IndexHolds(Five, history)
    ensures IndexHolds(Five, history) ==>
              (IndexHolds(Four, history) <==>
                 !exists i, j :: 0 <= i < j < |history| && !history[i].deleted && !history[j].deleted
                                 && history[i].event.sourceId.Some?
                                 && SameKey(Four, history[i].event, history[j].event)
                                 && history[i].event.epoch != history[j].event.epoch)
  {
  }
}
