/** The short-lived cache in front of the courier report (getCourierReport).

    A request runs in two atomic pieces with the remote calls in between: it looks into the cache, and,
    if that misses, stores its result when the calls return. Requests interleave freely. */
module ReportCache {
  import opened Prelude

  const TTL_MS := 30_000

  /** The normalised date range, which is the whole cache key. */
  datatype Range = Range(startDate: string, endDate: string)

  /** `courier` is the row's courier id, blank when the row names none. */
  datatype Row = Row(courier: string, delivered: int, cancelled: int, total: int)

  datatype Report = Report(items: seq<Row>, ranking: seq<string>)

  datatype Entry = Entry(report: Report, expiresAt: int)

  type Cache = map<Range, Entry>

  /** A fetch in flight, with the clock reading its request started from. */
  datatype Fetch = Fetch(range: Range, begun: int)

  predicate Hit(cache: Cache, range: Range, now: int) {
    range in cache && cache[range].expiresAt > now
  }

  function Surviving(cache: Cache, now: int): set<Range> {
    set k | k in cache && cache[k].expiresAt > now
  }

  /** The entry a finished fetch leaves. */
  function Stored(f: Fetch, report: Report): Entry {
    Entry(report, f.begun + TTL_MS)
  }

  ghost predicate IsAfterArrival(before: Cache, f: Fetch, report: Report, after: Cache) {
    && after.Keys == Surviving(before, f.begun) + {f.range}
    && after[f.range] == Stored(f, report)
    && forall k :: k in Surviving(before, f.begun) && k != f.range ==> after[k] == before[k]
  }

  class AnalyticsService {
    var cache: Cache

    constructor ()
      ensures cache == map[]
    {
      cache := map[];
    }

    /** The first piece: a live entry answers at once. */
    method Ask(range: Range, now: int) returns (cached: Option<Report>)
      ensures cached.Some? <==> Hit(cache, range, now)
      ensures cached.Some? ==> cached.value == cache[range].report
    {
      if range in cache && cache[range].expiresAt > now {
        return Some(cache[range].report);
      }
      return None;
    }

    /** The second piece: drop what had expired when this request started, then store the result. */
    method Arrive(f: Fetch, report: Report)
      modifies this
      ensures IsAfterArrival(old(cache), f, report, cache)
    {
      var keys := InSomeOrder(cache.Keys);
      for i := 0 to |keys|
        invariant cache.Keys <= old(cache).Keys
        invariant forall k :: k in cache ==> cache[k] == old(cache)[k]
        invariant forall k :: k in old(cache) ==> (k in cache <==> k in Surviving(old(cache), f.begun) || k !in keys[..i])
      {
        var key := keys[i];
        assert keys[..i + 1] == keys[..i] + [key];
        assert key in keys && key !in keys[..i];
        if cache[key].expiresAt <= f.begun {
          cache := cache - {key};
        }
      }
      assert keys[..|keys|] == keys;
      cache := cache[f.range := Entry(report, f.begun + TTL_MS)];
    }
  }

  /** What a courier sees of a report; everyone else sees all of it. */
  function View(report: Report, courier: Option<string>): Report {
    match courier
    case None => report
    case Some(id) => report.(items := OwnRows(report.items, id))
  }

  function OwnRows(items: seq<Row>, id: string): seq<Row> {
    if items == [] then []
    else if items[0].courier == id then [items[0]] + OwnRows(items[1..], id)
    else OwnRows(items[1..], id)
  }

  // ---- Every interleaving --------------------------------------------------------------------------

  datatype Event =
    | Ask(range: Range, now: int)
    | Arrive(fetch: Fetch, report: Report)
    | Fail(fetch: Fetch)

  datatype State = State(cache: Cache, inFlight: multiset<Fetch>)

  /** Asking starts a fetch when it misses; a fetch arrives or fails at any later time. */
  ghost predicate Step(s: State, e: Event, t: State) {
    match e
    case Ask(range, now) =>
      t.cache == s.cache
      && t.inFlight == if Hit(s.cache, range, now) then s.inFlight else s.inFlight + multiset{Fetch(range, now)}
    case Arrive(f, report) =>
      f in s.inFlight && t.inFlight == s.inFlight - multiset{f} && IsAfterArrival(s.cache, f, report, t.cache)
    case Fail(f) =>
      f in s.inFlight && t.inFlight == s.inFlight - multiset{f} && t.cache == s.cache
  }

  ghost predicate IsRun(states: seq<State>, events: seq<Event>) {
    && |states| == |events| + 1
    && states[0] == State(map[], multiset{})
    && forall i :: 0 <= i < |events| ==> Step(states[i], events[i], states[i + 1])
  }

  /** Before point `n` some request for the range missed at this clock reading. */
  ghost predicate Missed(states: seq<State>, events: seq<Event>, n: nat, f: Fetch)
    requires |states| == |events| + 1 && n <= |events|
  {
    exists k :: 0 <= k < n && events[k] == Ask(f.range, f.begun) && !Hit(states[k].cache, f.range, f.begun)
  }

  /** Before point `n` a fetch for the range came back with this report, and a request had begun it. */
  ghost predicate CameBack(states: seq<State>, events: seq<Event>, n: nat, f: Fetch, report: Report)
    requires |states| == |events| + 1 && n <= |events|
  {
    exists j :: 0 <= j < n && events[j] == Arrive(f, report) && Missed(states, events, j, f)
  }

  lemma {:induction false} InFlightMissed(states: seq<State>, events: seq<Event>, n: nat, f: Fetch)
    requires IsRun(states, events) && n <= |events| && f in states[n].inFlight
    ensures Missed(states, events, n, f)
  {
    if n > 0 {
      assert Step(states[n - 1], events[n - 1], states[n - 1 + 1]);
      if f in states[n - 1].inFlight {
        InFlightMissed(states, events, n - 1, f);
      } else {
        assert events[n - 1] == Ask(f.range, f.begun);
      }
    }
  }

  /** The fetch behind a cache entry. */
  function Origin(range: Range, e: Entry): Fetch {
    Fetch(range, e.expiresAt - TTL_MS)
  }

  lemma {:induction false} EntriesCameBack(states: seq<State>, events: seq<Event>, n: nat, range: Range)
    requires IsRun(states, events) && n <= |events| && range in states[n].cache
    ensures var e := states[n].cache[range]; CameBack(states, events, n, Origin(range, e), e.report)
  {
    if n > 0 {
      var e, last := states[n].cache[range], events[n - 1];
      assert Step(states[n - 1], last, states[n - 1 + 1]);
      if last.Arrive? && last.fetch.range == range {
        InFlightMissed(states, events, n - 1, last.fetch);
        assert last.fetch == Origin(range, e) && last.report == e.report;
      } else {
        assert range in states[n - 1].cache && states[n - 1].cache[range] == e;
        EntriesCameBack(states, events, n - 1, range);
      }
    }
  }

  /** On every interleaving, a report served from the cache came from a fetch for the same range that a
      request had begun less than 30 seconds before, however late that fetch came back. */
  lemma ServedReportIsRecent(states: seq<State>, events: seq<Event>, i: nat, range: Range, now: int)
    requires IsRun(states, events) && i < |events|
    requires events[i] == Ask(range, now) && Hit(states[i].cache, range, now)
    ensures exists f: Fetch, report :: f.range == range && now - f.begun < 30_000
              && report == states[i].cache[range].report && CameBack(states, events, i, f, report)
  {
    EntriesCameBack(states, events, i, range);
    var e := states[i].cache[range];
    assert CameBack(states, events, i, Origin(range, e), e.report);
  }

  /** And a report is served for as long: from its arrival on, and until another one for its range arrives
      or an arrival drops it as expired, every request within 30 seconds of its fetch's beginning gets it. */
  lemma StoredReportIsServed(states: seq<State>, events: seq<Event>, i: nat, j: nat, f: Fetch, report: Report, now: int)
    requires IsRun(states, events) && i < j < |events| && events[i] == Arrive(f, report)
    requires forall k :: i < k < j && events[k].Arrive? ==>
               events[k].fetch.range != f.range && events[k].fetch.begun - f.begun < 30_000
    requires events[j] == Ask(f.range, now)
    ensures Hit(states[j].cache, f.range, now) <==> now - f.begun < 30_000
    ensures f.range in states[j].cache && states[j].cache[f.range].report == report
  {
    EntryStays(states, events, i, j, f, report);
  }

  lemma {:induction false} EntryStays(states: seq<State>, events: seq<Event>, i: nat, j: nat, f: Fetch, report: Report)
    requires IsRun(states, events) && i < j <= |events| && events[i] == Arrive(f, report)
    requires forall k :: i < k < j && events[k].Arrive? ==>
               events[k].fetch.range != f.range && events[k].fetch.begun - f.begun < 30_000
    ensures f.range in states[j].cache && states[j].cache[f.range] == Entry(report, f.begun + 30_000)
    decreases j
  {
    assert Step(states[j - 1], events[j - 1], states[j - 1 + 1]);
    if j - 1 > i {
      EntryStays(states, events, i, j - 1, f, report);
    }
  }

  lemma {:induction false} OwnRowsCount(items: seq<Row>, id: string, row: Row)
    ensures multiset(OwnRows(items, id))[row] == if row.courier == id then multiset(items)[row] else 0
  {
    if items != [] {
      OwnRowsCount(items[1..], id, row);
      assert items == [items[0]] + items[1..];
    }
  }

  lemma {:induction false} OwnRowsAppend(items: seq<Row>, more: seq<Row>, id: string)
    ensures OwnRows(items + more, id) == OwnRows(items, id) + OwnRows(more, id)
  {
    if items == [] {
      assert items + more == more;
    } else {
      var all := items + more;
      assert all[0] == items[0] && all[1..] == items[1..] + more;
      OwnRowsAppend(items[1..], more, id);
    }
  }

  /** A courier sees exactly the courier's own rows of the report, each as often as the report has it,
      beside the ranking everyone sees. */
  lemma CourierSeesOwnRows(report: Report, id: string, row: Row)
    ensures multiset(View(report, Some(id)).items)[row] == if row.courier == id then multiset(report.items)[row] else 0
    ensures View(report, Some(id)).ranking == View(report, None).ranking
  {
    OwnRowsCount(report.items, id, row);
  }

  /** And sees them in the report's order: what comes first in the report comes first in the view. */
  lemma CourierSeesReportOrder(report: Report, id: string, n: nat)
    requires n <= |report.items|
    ensures View(report, Some(id)).items
         == View(report.(items := report.items[..n]), Some(id)).items + View(report.(items := report.items[n..]), Some(id)).items
  {
    assert report.items == report.items[..n] + report.items[n..];
    OwnRowsAppend(report.items[..n], report.items[n..], id);
  }
}
