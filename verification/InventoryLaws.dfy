/**
 * What a reader of the plugin inventory sees: which sources are trusted and for how long, what
 * becomes of a row whose source is not, what stands before what, and which rows are on a page.
 */
module InventoryLaws {
  import opened Basics
  import opened Inventory
  import opened StableSort

  // ---- Trust ----

  /** The source succeeded less than 90 seconds ago. */
  predicate Recent(source: Source, now: int) {
    source.receivedAt.Some? && now < source.receivedAt.value + 90_000
  }

  function Why(source: Source): string {
    match source.reason
    case Some(reason) => reason
    case None => "source_stale"
  }

  ghost predicate FirstWith(health: seq<Service>, i: nat, key: string) {
    i < |health| && health[i].key == key && forall j | 0 <= j < i :: health[j].key != key
  }

  /** What is shown of a service: what the first health entry of its key says, if health is trusted. */
  ghost predicate Shown(s: Snapshot, service: Service, now: int, shown: Service) {
    var trusted := s.healthSource.availability == Supported && Recent(s.healthSource, now);
    if exists h <- s.health :: h.key == service.key then
      exists i: nat :: FirstWith(s.health, i, service.key)
        && shown == if trusted then s.health[i]
                    else Service(s.health[i].key, "unknown", Why(s.healthSource))
    else
      shown == Service(service.key, "unknown", if trusted then "invalid_response" else Why(s.healthSource))
  }

  lemma {:induction false} ObservedIsFirst(health: seq<Service>, key: string)
    ensures match Observed(health, key)
      case None => forall h <- health :: h.key != key
      case Some(found) => exists i: nat :: FirstWith(health, i, key) && health[i] == found
  {
    if health != [] {
      if health[0].key == key {
        assert FirstWith(health, 0, key);
      } else {
        ObservedIsFirst(health[1..], key);
        assert forall h :: h in health <==> h == health[0] || h in health[1..];
        if i: nat :| FirstWith(health[1..], i, key) && health[1..][i] == Observed(health, key).value {
          assert FirstWith(health, i + 1, key);
        }
      }
    }
  }

  lemma ServiceIsShown(s: Snapshot, service: Service, now: int)
    ensures Shown(s, service, now, ProjectService(s, service, now))
  {
    hide Observed;
    ObservedIsFirst(s.health, service.key);
  }

  /** A row as it is read, and each of its services. */
  lemma RowIsProjected(s: Snapshot, row: Row, now: int)
    ensures var r, source := ProjectRow(s, row, now), if row.desktop then s.desktop else s.admin;
      var distrusted := source.availability == Unknown || !Recent(source, now);
      && r.id == row.id && r.name == row.name && r.desktop == row.desktop
      && r.stale == (row.stale || distrusted)
      && r.loadState == (if distrusted then "unknown" else row.loadState)
      && r.runtimeState == (if distrusted && row.desktop then "unknown" else row.runtimeState)
      && r.errorReason == (if distrusted then Why(source) else row.errorReason)
      && |r.services| == |row.services|
      && forall i | 0 <= i < |r.services| :: Shown(s, row.services[i], now, r.services[i])
  {
    hide ProjectService, Shown;
    forall i | 0 <= i < |row.services| ensures Shown(s, row.services[i], now, ProjectService(s, row.services[i], now)) {
      ServiceIsShown(s, row.services[i], now);
    }
  }

  /** What a refresh leaves, with the limit and the sources spelled out. */
  lemma RefreshLeaves(model: InventoryModel, before: Snapshot, admin: seq<Row>, native: Option<seq<Row>>,
      nativeReason: string, health: Option<seq<Service>>, healthReason: string, now: int, after: Snapshot)
    requires model.Gathered(before, admin, native, nativeReason, health, healthReason, now, after)
    ensures |after.rows| <= 200 && (|admin| > 200 ==> after.rows == [] && after.tooMany)
    ensures !after.tooMany ==> admin <= after.rows
    ensures after.admin == Source(Supported, None, Some(now))
    ensures !model.desktopSupported ==>
      after.desktop == Source(NotSupported, Some(model.unsupportedReason), None) && (after.tooMany || after.rows == admin)
    ensures model.desktopSupported && native.Some? ==>
      && after.desktop == Source(Supported, None, Some(now))
      && (if |admin| + |native.value| > 200 then after.tooMany else after.rows == admin + native.value)
    ensures model.desktopSupported && native.None? ==>
      && after.desktop == Source(Unknown, Some(nativeReason), before.desktop.receivedAt)
      && (after.tooMany || forall row :: row in after.rows <==> row in admin || (row in before.rows && row.desktop))
    ensures after.healthSource == if health.Some? then Source(Supported, None, Some(now))
                                  else Source(Unknown, Some(healthReason), before.healthSource.receivedAt)
  {
    DesktopOnly(before.rows);
    hide DesktopRows;
  }

  lemma {:induction false} DesktopOnly(rows: seq<Row>)
    ensures forall row :: row in DesktopRows(rows) <==> row in rows && row.desktop
  {
    if rows != [] {
      DesktopOnly(rows[1..]);
      assert forall row :: row in rows <==> row == rows[0] || row in rows[1..];
    }
  }

  /** The desktop rows, like the matching ones, keep their order and their number. */
  lemma {:induction false} DesktopRowsInOrder(a: seq<Row>, row: Row, b: seq<Row>)
    ensures DesktopRows(a + [row] + b) == DesktopRows(a) + (if row.desktop then [row] else []) + DesktopRows(b)
  {
    FirstOf(a, row, b);
    if a != [] {
      var here, mid := if a[0].desktop then [a[0]] else [], if row.desktop then [row] else [];
      DesktopRowsInOrder(a[1..], row, b);
      Grouped(here, DesktopRows(a[1..]), mid, DesktopRows(b));
    } else {
      Grouped([], [], if row.desktop then [row] else [], DesktopRows(b));
    }
  }

  lemma {:induction false} MatchesInOrder(a: seq<Row>, row: Row, b: seq<Row>, matches: Row -> bool)
    ensures Filter(a + [row] + b, matches) ==
      Filter(a, matches) + (if matches(row) then [row] else []) + Filter(b, matches)
  {
    FirstOf(a, row, b);
    if a != [] {
      var here, mid := if matches(a[0]) then [a[0]] else [], if matches(row) then [row] else [];
      MatchesInOrder(a[1..], row, b, matches);
      Grouped(here, Filter(a[1..], matches), mid, Filter(b, matches));
    } else {
      Grouped([], [], if matches(row) then [row] else [], Filter(b, matches));
    }
  }

  lemma FirstOf(a: seq<Row>, row: Row, b: seq<Row>)
    ensures var all := a + [row] + b;
      if a == [] then all[0] == row && all[1..] == b else all[0] == a[0] && all[1..] == a[1..] + [row] + b
  {
  }

  lemma Grouped(first: seq<Row>, more: seq<Row>, row: seq<Row>, rest: seq<Row>)
    ensures first + (more + row + rest) == first + more + row + rest
    ensures [] + row + rest == row + rest
  {
  }

  // ---- Order and pages ----

  ghost predicate Troubled(row: Row) {
    || row.stale || row.loadState == "failed" || row.runtimeState in ["unresponsive", "unknown"]
    || !forall service <- row.services :: service.state in ["healthy", "not_applicable"]
  }

  /** Troubled rows first where that is asked for; then by name, and by id among equal names. */
  ghost predicate StandsBefore(o: Order, a: Row, b: Row) {
    && (o.abnormalFirst && Troubled(b) ==> Troubled(a))
    && (!o.abnormalFirst || Troubled(a) == Troubled(b) ==>
          o.nameLeq(a.name, b.name) && (o.nameLeq(b.name, a.name) ==> o.idLeq(a.id, b.id)))
  }

  lemma RowsStand(o: Order, rows: seq<Row>)
    requires TotalPreorder(o.nameLeq)
    ensures SortedBy(rows, Comparator(o)) <==> forall i, j :: 0 <= i < j < |rows| ==> StandsBefore(o, rows[i], rows[j])
  {
    forall row: Row ensures Abnormal(row) == Troubled(row) {
    }
    hide Abnormal, Troubled;
  }

  /** From 1 to 100 rows a page, 20 where nothing usable is asked for. */
  function SizeOf(requested: Option<int>): int {
    match requested
    case None => 20
    case Some(n) => if n <= 0 then 20 else if n > 100 then 100 else n
  }

  /** A page holds the rows after those of the pages before it, as many as there are and fit. */
  lemma PageIsExact(rows: seq<Row>, page: Option<int>, requested: Option<int>, before: int)
    requires before == ((if page.Some? && page.value > 0 then page.value else 1) - 1) * SizeOf(requested)
    ensures before >= 0
    ensures PageOf(rows, Positive(page, 1), PageSize(requested)) ==
      if before >= |rows| then []
      else if before + SizeOf(requested) < |rows| then rows[before..before + SizeOf(requested)]
      else rows[before..]
  {
    assert SizeOf(requested) == PageSize(requested);
    PagesMeet(Positive(page, 1), PageSize(requested));
  }
}
