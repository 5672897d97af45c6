/** The read-only views of server/storage.ts over the stored tables: the
    stock status `getPartsWithStatus` attaches to each part, and the counters
    of `getDashboardStats`. Both count with their own comparisons, which agree
    with each other on exactly the parts `StockConsistent` admits. */
module Dashboard {
  import opened Schema
  import opened Validator
  import opened Storage

  /** How many elements of xs satisfy p (`filter(p).length`). */
  function Count<T>(xs: seq<T>, p: T -> bool): (n: nat)
    ensures n <= |xs|
  {
    if xs == [] then 0 else (if p(xs[0]) then 1 else 0) + Count(xs[1..], p)
  }

  /** Every element is counted exactly when every element satisfies p. */
  lemma {:induction false} CountAll<T>(xs: seq<T>, p: T -> bool)
    ensures Count(xs, p) == |xs| <==> forall i :: 0 <= i < |xs| ==> p(xs[i])
  {
    if xs != [] {
      CountAll(xs[1..], p);
      if Count(xs, p) == |xs| {
        forall i | 0 <= i < |xs| ensures p(xs[i]) {
          if i > 0 {
            assert xs[i] == xs[1..][i - 1];
          }
        }
      } else if forall i :: 0 <= i < |xs| ==> p(xs[i]) {
        assert p(xs[0]);
        forall i | 0 <= i < |xs| - 1 ensures p(xs[1..][i]) {
          assert xs[1..][i] == xs[i + 1];
        }
      }
    }
  }

  // ---- Parts: `getPartsWithStatus` ----

  datatype StockStatus = InStock | LowStock | OutOfStock

  function StockStatusText(s: StockStatus): string {
    match s
    case InStock => "in_stock"
    case LowStock => "low_stock"
    case OutOfStock => "out_of_stock"
  }

  /** A part with the status the parts view shows for it. */
  datatype PartWithStatus = PartWithStatus(part: Part, status: StockStatus)

  /** Out of stock exactly at zero; low at or under the threshold; in stock
      above it. A negative stock is low, never out of stock. */
  function DeriveStatus(p: Part): (s: StockStatus)
    ensures s == OutOfStock <==> p.stock == 0
    ensures s == LowStock <==> p.stock != 0 && p.stock <= p.minStock
    ensures s == InStock <==> p.stock != 0 && p.stock > p.minStock
  {
    if p.stock == 0 then OutOfStock
    else if p.stock <= p.minStock then LowStock
    else InStock
  }

  /** `getPartsWithStatus`: every part, in order, each with its derived status. */
  function PartsWithStatus(parts: seq<Part>): (r: seq<PartWithStatus>)
    ensures |r| == |parts|
    ensures forall i :: 0 <= i < |r| ==> r[i].part == parts[i] && r[i].status == DeriveStatus(parts[i])
  {
    if parts == [] then []
    else [PartWithStatus(parts[0], DeriveStatus(parts[0]))] + PartsWithStatus(parts[1..])
  }

  // ---- `getDashboardStats` ----

  predicate IsOperational(v: Vehicle) { v.status == StatusText(Operational) }
  predicate IsMaintenanceDue(v: Vehicle) { v.status == StatusText(MaintenanceDue) }
  predicate IsInRepair(v: Vehicle) { v.status == StatusText(InRepair) }

  /** The stored status is one of the three the validator writes. */
  predicate HasKnownStatus(v: Vehicle) { IsOperational(v) || IsMaintenanceDue(v) || IsInRepair(v) }

  predicate CountedInStock(p: Part) { p.stock > p.minStock }
  predicate CountedLowStock(p: Part) { p.stock > 0 && p.stock <= p.minStock }
  predicate CountedOutOfStock(p: Part) { p.stock == 0 }

  predicate IsUnread(a: Alert) { !a.isRead }

  datatype DashboardStats = DashboardStats(
    totalVehicles: nat,
    operational: nat,
    maintenanceDue: nat,
    inRepair: nat,
    totalParts: nat,
    partsInStock: nat,
    partsLowStock: nat,
    partsOutOfStock: nat,
    unreadAlerts: nat)

  /** `getDashboardStats` over one snapshot of the three tables. The three
      status counters never add up to more vehicles than there are; the
      unread counter never exceeds the alerts. */
  function GetDashboardStats(vehicles: seq<Vehicle>, parts: seq<Part>, alerts: seq<Alert>): (r: DashboardStats)
    ensures r.totalVehicles == |vehicles| && r.totalParts == |parts|
    ensures r.operational + r.maintenanceDue + r.inRepair <= r.totalVehicles
    ensures r.partsOutOfStock <= r.totalParts && r.unreadAlerts <= |alerts|
  {
    StatusCountsDisjoint(vehicles);
    DashboardStats(
      |vehicles|,
      Count(vehicles, IsOperational),
      Count(vehicles, IsMaintenanceDue),
      Count(vehicles, IsInRepair),
      |parts|,
      Count(parts, CountedInStock),
      Count(parts, CountedLowStock),
      Count(parts, CountedOutOfStock),
      Count(alerts, IsUnread))
  }

  /** The three status counters add up to the vehicles with a known status. */
  lemma {:induction false} StatusCountsDisjoint(vehicles: seq<Vehicle>)
    ensures Count(vehicles, IsOperational) + Count(vehicles, IsMaintenanceDue) + Count(vehicles, IsInRepair)
            == Count(vehicles, HasKnownStatus)
  {
    if vehicles != [] {
      StatusCountsDisjoint(vehicles[1..]);
    }
  }

  /** The status counters add up to the fleet exactly when every stored status
      is one of the three the validator writes. */
  lemma VehicleCountsCoverFleet(vehicles: seq<Vehicle>, parts: seq<Part>, alerts: seq<Alert>)
    ensures var r := GetDashboardStats(vehicles, parts, alerts);
            r.operational + r.maintenanceDue + r.inRepair == r.totalVehicles
            <==> forall i :: 0 <= i < |vehicles| ==> HasKnownStatus(vehicles[i])
  {
    StatusCountsDisjoint(vehicles);
    CountAll(vehicles, HasKnownStatus);
  }

  /** After a sweep every stored status is one the validator writes. */
  lemma SweptStatusesKnown(s0: StoreState, now: int)
    ensures forall i :: 0 <= i < |Swept(s0, now).vehicles| ==> HasKnownStatus(Swept(s0, now).vehicles[i])
  {
    var ds := Verdicts(s0, now);
    var rows := Swept(s0, now).vehicles;
    forall i | 0 <= i < |rows| ensures HasKnownStatus(rows[i]) {
      assert rows[i].status == StatusText(ds[i].status);
    }
  }

  /** A sweep over a fleet with distinct ids never aborts, and afterwards
      every vehicle is counted in exactly one of the three status counters. */
  lemma SweptFleetIsCounted(s0: StoreState, now: int, parts: seq<Part>, alerts: seq<Alert>)
    requires DistinctIds(s0.vehicles)
    ensures var (after, failure) := SweepFrom(s0, s0.vehicles, now);
            var r := GetDashboardStats(after.vehicles, parts, alerts);
            failure.None? && r.operational + r.maintenanceDue + r.inRepair == r.totalVehicles
  {
    SweepOutcome(s0, now);
    SweptStatusesKnown(s0, now);
    VehicleCountsCoverFleet(Swept(s0, now).vehicles, parts, alerts);
  }

  /** A part sits in exactly one of the dashboard's stock counters, and that
      counter is the status the parts view shows, exactly when the part is
      not (negative and at or under its threshold) and not (empty with a
      negative threshold). */
  predicate StockConsistent(p: Part) {
    !IsUncounted(p) && !IsCountedTwice(p)
  }

  /** Negative stock at or under the threshold: in no stock counter. */
  predicate IsUncounted(p: Part) { p.stock < 0 && p.stock <= p.minStock }

  /** Empty with a negative threshold: counted in stock and out of stock. */
  predicate IsCountedTwice(p: Part) { p.stock == 0 && p.minStock < 0 }

  lemma StockCountersMatchStatus(p: Part)
    ensures (CountedInStock(p) == (DeriveStatus(p) == InStock)
             && CountedLowStock(p) == (DeriveStatus(p) == LowStock)
             && CountedOutOfStock(p) == (DeriveStatus(p) == OutOfStock))
            <==> StockConsistent(p)
  {
  }

  predicate ShownInStock(r: PartWithStatus) { r.status == InStock }
  predicate ShownLowStock(r: PartWithStatus) { r.status == LowStock }
  predicate ShownOutOfStock(r: PartWithStatus) { r.status == OutOfStock }

  /** When every part is consistent, the dashboard's stock counters are the
      numbers of parts the parts view shows in each status, and they add up
      to the number of parts. */
  lemma {:induction false} StockCountersAgree(vehicles: seq<Vehicle>, parts: seq<Part>, alerts: seq<Alert>)
    requires forall i :: 0 <= i < |parts| ==> StockConsistent(parts[i])
    ensures var r := GetDashboardStats(vehicles, parts, alerts);
            var shown := PartsWithStatus(parts);
            r.partsInStock == Count(shown, ShownInStock)
            && r.partsLowStock == Count(shown, ShownLowStock)
            && r.partsOutOfStock == Count(shown, ShownOutOfStock)
            && r.partsInStock + r.partsLowStock + r.partsOutOfStock == r.totalParts
  {
    StockCountsStep(parts);
  }

  lemma {:induction false} StockCountsStep(parts: seq<Part>)
    requires forall i :: 0 <= i < |parts| ==> StockConsistent(parts[i])
    ensures var shown := PartsWithStatus(parts);
            Count(parts, CountedInStock) == Count(shown, ShownInStock)
            && Count(parts, CountedLowStock) == Count(shown, ShownLowStock)
            && Count(parts, CountedOutOfStock) == Count(shown, ShownOutOfStock)
            && Count(parts, CountedInStock) + Count(parts, CountedLowStock) + Count(parts, CountedOutOfStock) == |parts|
  {
    if parts != [] {
      assert StockConsistent(parts[0]);
      StockCountersMatchStatus(parts[0]);
      forall i | 0 <= i < |parts| - 1 ensures StockConsistent(parts[1..][i]) {
        assert parts[1..][i] == parts[i + 1];
      }
      StockCountsStep(parts[1..]);
      assert PartsWithStatus(parts)[1..] == PartsWithStatus(parts[1..]);
    }
  }

  /** The stock counters add up to the number of parts, less the parts
      counted nowhere, plus the parts counted twice; so they add up to the
      number of parts exactly when there are as many of the one kind as of
      the other. */
  lemma StockCountersTotal(vehicles: seq<Vehicle>, parts: seq<Part>, alerts: seq<Alert>)
    ensures var r := GetDashboardStats(vehicles, parts, alerts);
            r.partsInStock + r.partsLowStock + r.partsOutOfStock
            == r.totalParts - Count(parts, IsUncounted) + Count(parts, IsCountedTwice)
    ensures var r := GetDashboardStats(vehicles, parts, alerts);
            r.partsInStock + r.partsLowStock + r.partsOutOfStock == r.totalParts
            <==> Count(parts, IsUncounted) == Count(parts, IsCountedTwice)
  {
    StockCountsBalance(parts);
  }

  lemma {:induction false} StockCountsBalance(parts: seq<Part>)
    ensures Count(parts, CountedInStock) + Count(parts, CountedLowStock) + Count(parts, CountedOutOfStock)
            + Count(parts, IsUncounted)
            == |parts| + Count(parts, IsCountedTwice)
  {
    if parts != [] {
      StockCountsBalance(parts[1..]);
    }
  }

  /** A part counted nowhere and a part counted twice cancel out: the
      counters add up to the number of parts although neither part is
      consistent. */
  lemma MiscountsCancel()
    ensures var p := Part(1, "p", "r", "c", -1, 0, 0);
            var q := Part(2, "q", "s", "c", 0, -1, 0);
            var r := GetDashboardStats([], [p, q], []);
            r.partsInStock + r.partsLowStock + r.partsOutOfStock == r.totalParts
            && !StockConsistent(p) && !StockConsistent(q)
  {
    var p := Part(1, "p", "r", "c", -1, 0, 0);
    var q := Part(2, "q", "s", "c", 0, -1, 0);
    StockCountersTotal([], [p, q], []);
    assert [p, q][1..] == [q];
    assert [q][1..] == [];
  }

  /** A part with negative stock at or under its threshold is in no stock
      counter of the dashboard, though the parts view shows it as low. */
  lemma NegativeStockIsUncounted()
    ensures var p := Part(1, "p", "r", "c", -1, 0, 0);
            var r := GetDashboardStats([], [p], []);
            r.partsInStock + r.partsLowStock + r.partsOutOfStock == 0 < r.totalParts
            && DeriveStatus(p) == LowStock
  {
    var p := Part(1, "p", "r", "c", -1, 0, 0);
    assert [p][1..] == [];
  }

  /** An empty part with a negative threshold is counted both in stock and
      out of stock. */
  lemma NegativeThresholdIsCountedTwice()
    ensures var p := Part(1, "p", "r", "c", 0, -1, 0);
            var r := GetDashboardStats([], [p], []);
            r.partsInStock == 1 && r.partsOutOfStock == 1 && r.totalParts == 1
  {
    var p := Part(1, "p", "r", "c", 0, -1, 0);
    assert [p][1..] == [];
  }
}
