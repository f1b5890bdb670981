/**
 * The plugin inventory: a cache that only the latest refresh may fill, read through a
 * projection that distrusts stale sources, filtered, sorted and cut into pages.
 */
module Inventory {
  import opened Basics
  import opened StableSort

  const TTL := 90_000
  const MAX_ITEMS := 200

  datatype Availability = Unknown | Supported | NotSupported

  datatype Source = Source(availability: Availability, reason: Option<string>, receivedAt: Option<int>)

  const EMPTY_SOURCE := Source(Unknown, None, None)

  datatype Service = Service(key: string, state: string, reason: string)

  datatype Row = Row(
    id: string,
    name: string,
    desktop: bool,
    stale: bool,
    loadState: string,
    runtimeState: string,
    errorReason: string,
    services: seq<Service>)

  /** Everything a refresh or a clear may change. */
  datatype Snapshot = Snapshot(
    rows: seq<Row>,
    health: seq<Service>,
    admin: Source,
    desktop: Source,
    healthSource: Source,
    initialized: bool,
    tooMany: bool)

  const EMPTY := Snapshot([], [], EMPTY_SOURCE, EMPTY_SOURCE, EMPTY_SOURCE, false, false)

  // ---- Latest refresh wins ----

  datatype Entry =
    | Began(run: nat)
    | Committed(run: nat, snapshot: Snapshot)
    | Cleared

  /** The last commit or clear decides what the cache holds. */
  function Held(log: seq<Entry>): Snapshot {
    if log == [] then EMPTY
    else
      match log[|log| - 1]
      case Began(_) => Held(log[..|log| - 1])
      case Committed(_, snapshot) => snapshot
      case Cleared => EMPTY
  }

  /** A commit is by a refresh after whose beginning nothing else began or cleared. */
  ghost predicate LatestOnly(log: seq<Entry>) {
    forall j | 0 <= j < |log| && log[j].Committed? ::
      exists i :: BeganLast(log, i, j) && log[i].run == log[j].run
  }

  predicate BeganLast(log: seq<Entry>, i: int, j: int) {
    0 <= i < j <= |log| && log[i].Began? && forall k :: i < k < j ==> !log[k].Began? && !log[k].Cleared?
  }

  /** Run numbers grow, so a run begins once. */
  ghost predicate RunsGrow(log: seq<Entry>) {
    forall i, j :: 0 <= i < j < |log| && log[i].Began? && log[j].Began? ==> log[i].run < log[j].run
  }

  /** Once another refresh has begun, or the cache was cleared, an older refresh never commits. */
  lemma OvertakenNeverCommits(log: seq<Entry>, i: int, k: int, j: int)
    requires LatestOnly(log) && RunsGrow(log)
    requires 0 <= i < k < j < |log| && log[i].Began? && (log[k].Began? || log[k].Cleared?)
    ensures log[j].Committed? ==> log[j].run != log[i].run
  {
    if log[j].Committed? {
      var b :| BeganLast(log, b, j) && log[b].run == log[j].run;
      assert b >= k;
    }
  }

  /** How a list begins. */
  datatype Listing = Refused | Reads | Refreshes(run: nat)

  class InventoryModel {
    const desktopSupported: bool
    const unsupportedReason: string
    var snapshot: Snapshot
    var generation: nat
    var active: Option<nat>
    var aborted: set<nat>
    var disposed: bool
    ghost var log: seq<Entry>

    ghost predicate Valid()
      reads this
    {
      && snapshot == Held(log)
      && LatestOnly(log) && RunsGrow(log)
      && (forall i | 0 <= i < |log| && log[i].Began? :: log[i].run <= generation)
      && (disposed ==> snapshot == EMPTY)
      && (forall r <- aborted :: r <= generation)
      && (active.Some? ==> active.value <= generation)
      && (CurrentRun() ==> exists i :: BeganLast(log, i, |log|) && log[i].run == generation)
    }

    /** The latest run may still commit: nothing began or cleared since it began. */
    ghost predicate CurrentRun()
      reads this
    {
      exists i :: 0 <= i < |log| && log[i].Began? && log[i].run == generation
    }

    constructor (desktopSupported: bool, unsupportedReason: string)
      ensures Valid() && snapshot == EMPTY && log == [] && !disposed
    {
      this.desktopSupported, this.unsupportedReason := desktopSupported, unsupportedReason;
      snapshot, generation, active, aborted, disposed, log := EMPTY, 0, None, {}, false, [];
    }

    /** refresh up to its await: it aborts the active one and takes the next run number. */
    method BeginRefresh(signalAborted: bool) returns (run: Option<nat>)
      requires Valid()
      modifies this
      ensures Valid() && snapshot == old(snapshot) && disposed == old(disposed)
      ensures run.None? <==> old(disposed) || signalAborted
      ensures run.Some? ==> log == old(log) + [Began(run.value)] && run.value == generation == old(generation) + 1
      ensures run.None? ==> log == old(log) && generation == old(generation)
      ensures run.Some? ==> active == run
      ensures run.Some? ==>
        aborted == old(aborted) + (if old(active).Some? then {old(active).value} else {})
    {
      hide Held, LatestOnly, RunsGrow;
      if disposed || signalAborted {
        return None;
      }
      if active.Some? {
        aborted := aborted + {active.value};
      }
      generation := generation + 1;
      active := Some(generation);
      ghost var before := log;
      log := log + [Began(generation)];
      BeginKeepsLog(before, generation);
      return Some(generation);
    }

    /** The caller's signal aborts its refresh. */
    method AbortRefresh(run: nat)
      requires Valid() && run <= generation
      modifies this`aborted
      ensures Valid() && aborted == old(aborted) + {run}
    {
      aborted := aborted + {run};
    }

    /** refresh after its await with what the sources gave; false is the abort error. */
    method CommitRefresh(run: nat, admin: seq<Row>, native: Option<seq<Row>>, nativeReason: string,
        health: Option<seq<Service>>, healthReason: string, now: int) returns (committed: bool)
      requires Valid() && 0 < run <= generation
      requires exists i :: 0 <= i < |log| && log[i].Began? && log[i].run == run
      modifies this
      ensures Valid()
      ensures committed <==> run == old(generation) && run !in old(aborted) && !old(disposed)
      ensures !committed ==> snapshot == old(snapshot) && log == old(log)
      ensures committed ==> log == old(log) + [Committed(run, snapshot)]
      ensures committed ==> Gathered(old(snapshot), admin, native, nativeReason, health, healthReason, now, snapshot)
      ensures generation == old(generation) && disposed == old(disposed) && aborted == old(aborted)
      ensures active == if old(active) == Some(run) then None else old(active)
    {
      hide LatestOnly, RunsGrow, Held, BeganLast, Gathered;
      if run != generation || run in aborted || disposed {
        if active == Some(run) {
          active := None;
        }
        return false;
      }
      ghost var before := log;
      snapshot := Collect(admin, native, nativeReason, health, healthReason, now);
      log := log + [Committed(run, snapshot)];
      CommitKeepsLog(before, run, snapshot);
      if active == Some(run) {
        active := None;
      }
      return true;
    }

    /** What a finished refresh makes of its sources; too many items empty the list. */
    method Collect(admin: seq<Row>, native: Option<seq<Row>>, nativeReason: string,
        health: Option<seq<Service>>, healthReason: string, now: int) returns (s: Snapshot)
      ensures Gathered(snapshot, admin, native, nativeReason, health, healthReason, now, s)
    {
      var desktop := DesktopRows(snapshot.rows);
      var desktopSource := snapshot.desktop;
      if !desktopSupported {
        desktop := [];
        desktopSource := Source(NotSupported, Some(unsupportedReason), None);
      } else if native.Some? {
        desktop := native.value;
        desktopSource := Succeeded(now);
      } else {
        desktopSource := FailedSource(desktopSource, nativeReason);
      }
      var tooMany := |admin| > MAX_ITEMS || |desktop| > MAX_ITEMS || |admin| + |desktop| > MAX_ITEMS;
      return Snapshot(
        if tooMany then [] else admin + desktop,
        if health.Some? then health.value else snapshot.health,
        Succeeded(now),
        desktopSource,
        if health.Some? then Succeeded(now) else FailedSource(snapshot.healthSource, healthReason),
        true,
        tooMany);
    }

    /** The desktop rows of a refresh: fresh ones, the previous ones if they failed, or none. */
    function KeptDesktop(before: Snapshot, native: Option<seq<Row>>): seq<Row> {
      if !desktopSupported then [] else if native.Some? then native.value else DesktopRows(before.rows)
    }

    /**
     * What a refresh leaves in place of `before`: never more than the limit, all rows or none;
     * a source that failed keeps its last success but is unknown, and so is what came from it.
     */
    ghost predicate Gathered(before: Snapshot, admin: seq<Row>, native: Option<seq<Row>>, nativeReason: string,
        health: Option<seq<Service>>, healthReason: string, now: int, after: Snapshot)
    {
      && after.initialized
      && (after.tooMany <==> |admin| + |KeptDesktop(before, native)| > MAX_ITEMS)
      && after.rows == (if after.tooMany then [] else admin + KeptDesktop(before, native))
      && |after.rows| <= MAX_ITEMS
      && after.health == (if health.Some? then health.value else before.health)
      && after.admin == Succeeded(now)
      && after.desktop == (if !desktopSupported then Source(NotSupported, Some(unsupportedReason), None)
                           else if native.Some? then Succeeded(now) else FailedSource(before.desktop, nativeReason))
      && after.healthSource == (if health.Some? then Succeeded(now)
                                else FailedSource(before.healthSource, healthReason))
    }

    /** The beginning of list: it refuses, reads at once, or refreshes first. */
    method BeginList(signalAborted: bool, refresh: bool) returns (begun: Listing)
      requires Valid()
      modifies this
      ensures Valid() && snapshot == old(snapshot) && disposed == old(disposed)
      ensures begun.Refused? <==> disposed || signalAborted
      ensures begun.Reads? <==> !disposed && !signalAborted && snapshot.initialized && !refresh
      ensures begun.Refreshes? ==>
        log == old(log) + [Began(begun.run)] && begun.run == generation == old(generation) + 1
      ensures !begun.Refreshes? ==> log == old(log) && generation == old(generation)
    {
      hide Valid;
      if disposed || signalAborted {
        return Refused;
      }
      if snapshot.initialized && !refresh {
        return Reads;
      }
      var run := BeginRefresh(signalAborted);
      return Refreshes(run.value);
    }

    /** refresh after an exception: only a denial of the latest refresh clears the cache. */
    method FailRefresh(run: nat, signalAborted: bool, denied: bool)
      requires Valid() && 0 < run <= generation
      modifies this
      ensures Valid() && disposed == old(disposed)
      ensures snapshot == if run == old(generation) && !signalAborted && !old(disposed) && denied then EMPTY
                          else old(snapshot)
      ensures log == if run == old(generation) && !signalAborted && !old(disposed) && denied then old(log) + [Cleared]
                     else old(log)
      ensures active != Some(run) && (active.Some? ==> active == old(active))
      ensures run in aborted || aborted == old(aborted)
      ensures forall r <- old(aborted) :: r in aborted
      ensures snapshot != old(snapshot) && old(active).Some? ==> old(active).value in aborted
    {
      hide Held, LatestOnly, RunsGrow, BeganLast;
      if run == generation && !signalAborted && !disposed && denied {
        aborted := aborted + {run};
        Clear();
      }
      if active == Some(run) {
        active := None;
      }
    }

    method Clear()
      requires Valid()
      modifies this
      ensures Valid() && snapshot == EMPTY && log == old(log) + [Cleared] && disposed == old(disposed)
      ensures generation == old(generation) + 1 && active.None?
      ensures aborted == old(aborted) + (if old(active).Some? then {old(active).value} else {})
    {
      hide Held, LatestOnly, RunsGrow;
      generation := generation + 1;
      if active.Some? {
        aborted := aborted + {active.value};
      }
      active := None;
      snapshot := EMPTY;
      ghost var before := log;
      log := log + [Cleared];
      ClearKeepsLog(before);
    }

    /** After dispose the cache is empty for good: nothing begins, commits or fills it. */
    method Dispose()
      requires Valid()
      modifies this
      ensures Valid() && disposed && snapshot == EMPTY && active.None?
      ensures aborted == old(aborted) + (if old(active).Some? then {old(active).value} else {})
    {
      hide LatestOnly, RunsGrow, Held, BeganLast;
      Clear();
      disposed := true;
    }
  }

  function Succeeded(now: int): Source {
    Source(Supported, None, Some(now))
  }

  function FailedSource(previous: Source, reason: string): Source {
    previous.(availability := Unknown, reason := Some(reason))
  }

  function DesktopRows(rows: seq<Row>): (r: seq<Row>)
    ensures |r| <= |rows|
  {
    if rows == [] then [] else (if rows[0].desktop then [rows[0]] else []) + DesktopRows(rows[1..])
  }

  lemma BeginKeepsLog(log: seq<Entry>, run: nat)
    requires LatestOnly(log) && RunsGrow(log)
    requires forall i | 0 <= i < |log| && log[i].Began? :: log[i].run < run
    ensures var more := log + [Began(run)];
      LatestOnly(more) && RunsGrow(more) && Held(more) == Held(log) && BeganLast(more, |log|, |more|)
  {
    Extend(log, Began(run));
  }

  lemma Extend(log: seq<Entry>, e: Entry)
    requires LatestOnly(log)
    ensures !e.Committed? ==> LatestOnly(log + [e])
    ensures e.Committed? && (exists i :: BeganLast(log, i, |log|) && log[i].run == e.run) ==> LatestOnly(log + [e])
  {
    var more := log + [e];
    if !e.Committed? || exists i :: BeganLast(log, i, |log|) && log[i].run == e.run {
      forall j | 0 <= j < |more| && more[j].Committed?
        ensures exists i :: BeganLast(more, i, j) && more[i].run == more[j].run
      {
        var i :| BeganLast(log, i, j) && log[i].run == more[j].run;
        assert BeganLast(more, i, j);
      }
    }
  }

  lemma CommitKeepsLog(log: seq<Entry>, run: nat, snapshot: Snapshot)
    requires LatestOnly(log) && RunsGrow(log)
    requires exists i :: BeganLast(log, i, |log|) && log[i].run == run
    ensures var more := log + [Committed(run, snapshot)];
      && LatestOnly(more) && RunsGrow(more) && Held(more) == snapshot
      && exists i :: BeganLast(more, i, |more|) && more[i].run == run
  {
    Extend(log, Committed(run, snapshot));
    var i :| BeganLast(log, i, |log|) && log[i].run == run;
    assert BeganLast(log + [Committed(run, snapshot)], i, |log| + 1);
  }

  lemma ClearKeepsLog(log: seq<Entry>)
    requires LatestOnly(log) && RunsGrow(log)
    ensures LatestOnly(log + [Cleared]) && RunsGrow(log + [Cleared]) && Held(log + [Cleared]) == EMPTY
  {
    Extend(log, Cleared);
  }

  // ---- Reading ----

  predicate IsStale(source: Source, now: int) {
    source.receivedAt.None? || now - source.receivedAt.value >= TTL
  }

  function ReasonOf(source: Source): string {
    if source.reason.Some? then source.reason.value else "source_stale"
  }

  function Observed(health: seq<Service>, key: string): Option<Service> {
    if health == [] then None else if health[0].key == key then Some(health[0]) else Observed(health[1..], key)
  }

  function ProjectService(s: Snapshot, service: Service, now: int): Service {
    var observed := Observed(s.health, service.key);
    var known := if observed.Some? then observed.value else service;
    if !s.healthSource.availability.Supported? || IsStale(s.healthSource, now)
    then known.(state := "unknown", reason := ReasonOf(s.healthSource))
    else if observed.Some? then known
    else service.(state := "unknown", reason := "invalid_response")
  }

  function ProjectServices(s: Snapshot, services: seq<Service>, now: int): (r: seq<Service>)
    ensures |r| == |services| && forall i | 0 <= i < |r| :: r[i] == ProjectService(s, services[i], now)
  {
    if services == [] then []
    else [ProjectService(s, services[0], now)] + ProjectServices(s, services[1..], now)
  }

  function ProjectRow(s: Snapshot, row: Row, now: int): Row {
    var source := if row.desktop then s.desktop else s.admin;
    var services := ProjectServices(s, row.services, now);
    if source.availability.Unknown? || IsStale(source, now) then
      row.(stale := true, loadState := "unknown", errorReason := ReasonOf(source), services := services,
           runtimeState := if row.desktop then "unknown" else row.runtimeState)
    else row.(services := services)
  }

  function Projection(s: Snapshot, rows: seq<Row>, now: int): (r: seq<Row>)
    ensures |r| == |rows| && forall i | 0 <= i < |r| :: r[i] == ProjectRow(s, rows[i], now)
  {
    if rows == [] then [] else [ProjectRow(s, rows[0], now)] + Projection(s, rows[1..], now)
  }

  predicate Abnormal(row: Row) {
    || row.stale || row.loadState == "failed" || row.runtimeState == "unresponsive" || row.runtimeState == "unknown"
    || exists service <- row.services :: service.state != "healthy" && service.state != "not_applicable"
  }

  /** Names and ids are compared by two total preorders, perhaps after the abnormality of the rows. */
  datatype Order = Order(abnormalFirst: bool, nameLeq: (string, string) -> bool, idLeq: (string, string) -> bool)

  predicate RowLe(o: Order, a: Row, b: Row) {
    if o.abnormalFirst && Abnormal(a) != Abnormal(b) then Abnormal(a)
    else if !o.nameLeq(b.name, a.name) then true
    else o.nameLeq(a.name, b.name) && o.idLeq(a.id, b.id)
  }

  function Comparator(o: Order): (Row, Row) -> bool {
    (a: Row, b: Row) => RowLe(o, a, b)
  }

  lemma ComparatorIsPreorder(o: Order)
    requires TotalPreorder(o.nameLeq) && TotalPreorder(o.idLeq)
    ensures TotalPreorder(Comparator(o))
  {
    hide Abnormal;
    forall a, b ensures RowLe(o, a, b) || RowLe(o, b, a) {
    }
    forall a, b, c | RowLe(o, a, b) && RowLe(o, b, c) ensures RowLe(o, a, c) {
    }
  }

  function Filter(rows: seq<Row>, matches: Row -> bool): (r: seq<Row>)
    ensures forall row :: row in r <==> row in rows && matches(row)
  {
    if rows == [] then [] else (if matches(rows[0]) then [rows[0]] else []) + Filter(rows[1..], matches)
  }

  /** A usable page number or size: a positive one, or the fallback. */
  function Positive(value: Option<int>, fallback: nat): (r: nat)
    requires fallback > 0
    ensures r > 0
  {
    if value.Some? && value.value > 0 then value.value else fallback
  }

  function PageSize(requested: Option<int>): (size: nat)
    ensures 1 <= size <= 100
  {
    if Positive(requested, 20) < 100 then Positive(requested, 20) else 100
  }

  /** slice((page - 1) * size, page * size): positions past the end are cut off. */
  function PageOf(rows: seq<Row>, page: nat, size: nat): seq<Row>
    requires page > 0 && size > 0
  {
    var start, end := (page - 1) * size, page * size;
    rows[if start < |rows| then start else |rows|..if end < |rows| then end else |rows|]
  }

  function FirstPages(rows: seq<Row>, pages: nat, size: nat): seq<Row>
    requires size > 0
  {
    if pages == 0 then [] else FirstPages(rows, pages - 1, size) + PageOf(rows, pages, size)
  }

  lemma {:induction false} FirstPagesArePrefix(rows: seq<Row>, pages: nat, size: nat)
    requires size > 0
    ensures FirstPages(rows, pages, size) == rows[..if pages * size < |rows| then pages * size else |rows|]
  {
    if pages > 0 {
      FirstPagesArePrefix(rows, pages - 1, size);
      PagesMeet(pages, size);
    }
  }

  lemma PagesMeet(pages: nat, size: nat)
    requires pages > 0 && size > 0
    ensures 0 <= (pages - 1) * size < pages * size == (pages - 1) * size + size
  {
  }

  /** The pages of one snapshot, put together, are exactly its sorted list; nothing is on two. */
  lemma PagesConcatenate(rows: seq<Row>, requested: Option<int>, pages: nat)
    requires pages * PageSize(requested) >= |rows|
    ensures FirstPages(rows, pages, PageSize(requested)) == rows
  {
    FirstPagesArePrefix(rows, pages, PageSize(requested));
  }

  /**
   * list, once any refresh is over: the page asked for of the matching rows of the projection
   * in order, and how many match.
   */
  method List(model: InventoryModel, matches: Row -> bool, o: Order, page: Option<int>, pageSize: Option<int>,
      now: int) returns (items: seq<Row>, total: nat, ghost sorted: seq<Row>)
    requires model.Valid() && TotalPreorder(o.nameLeq) && TotalPreorder(o.idLeq)
    ensures sorted == SortBy(Filter(Projection(model.snapshot, model.snapshot.rows, now), matches), Comparator(o))
    ensures SortedBy(sorted, Comparator(o))
    ensures multiset(sorted) == multiset(Filter(Projection(model.snapshot, model.snapshot.rows, now), matches))
    ensures items == PageOf(sorted, Positive(page, 1), PageSize(pageSize)) && total == |sorted| && |items| <= 100
    ensures model.disposed ==> items == [] && total == 0
  {
    ComparatorIsPreorder(o);
    var filtered := Filter(Projection(model.snapshot, model.snapshot.rows, now), matches);
    SortByIsSorted(filtered, Comparator(o));
    var rows := SortBy(filtered, Comparator(o));
    sorted := rows;
    PagesMeet(Positive(page, 1), PageSize(pageSize));
    items := PageOf(rows, Positive(page, 1), PageSize(pageSize));
    total := |rows|;
  }
}
