/** The storage side of the validator (server/storage.ts): the in-memory
    store the validator reads and writes, the write-back of
    `validateVehicleStatus` and the fleet sweep `validateAllVehiclesStatus`.
    `StoreState` and the functions over it state what each operation does to
    the store; the class `Store` performs the same operations step by step
    and is proved to follow them. */
module Storage {
  import opened Schema
  import opened Validator

  /** The tables the core touches. Sequences keep the order rows come back in. */
  datatype StoreState = StoreState(
    vehicles: seq<Vehicle>,
    parts: seq<Part>,
    records: seq<MaintenanceRecord>,
    alerts: seq<Alert>,
    nextAlertId: int)

  /** The primary-key constraint of `vehicles`. */
  predicate DistinctIds(vehicles: seq<Vehicle>) {
    forall i, j :: 0 <= i < j < |vehicles| ==> vehicles[i].id != vehicles[j].id
  }

  /** `getVehicle`: the first row with this id. */
  function Lookup(vehicles: seq<Vehicle>, id: int): (r: Option<Vehicle>)
    ensures r.Some? ==> r.value in vehicles && r.value.id == id
    ensures r.None? <==> forall v :: v in vehicles ==> v.id != id
  {
    if vehicles == [] then None
    else if vehicles[0].id == id then Some(vehicles[0])
    else Lookup(vehicles[1..], id)
  }

  /** With distinct ids up to row i, looking up row i's id finds row i. */
  lemma {:induction false} LookupAt(vehicles: seq<Vehicle>, i: int)
    requires 0 <= i < |vehicles|
    requires forall j :: 0 <= j < i ==> vehicles[j].id != vehicles[i].id
    ensures Lookup(vehicles, vehicles[i].id) == Some(vehicles[i])
  {
    if i > 0 {
      forall j | 0 <= j < i - 1 ensures vehicles[1..][j].id != vehicles[1..][i - 1].id {
        assert vehicles[1..][j] == vehicles[j + 1];
      }
      LookupAt(vehicles[1..], i - 1);
    }
  }

  /** `getAlertsByVehicle`: the alerts of one vehicle, in store order. */
  function AlertsOf(alerts: seq<Alert>, vehicleId: int): (r: seq<Alert>)
    ensures |r| <= |alerts|
  {
    if alerts == [] then []
    else (if alerts[0].vehicleId == vehicleId then [alerts[0]] else []) + AlertsOf(alerts[1..], vehicleId)
  }

  lemma {:induction false} AlertsOfAppend(xs: seq<Alert>, ys: seq<Alert>, vehicleId: int)
    ensures AlertsOf(xs + ys, vehicleId) == AlertsOf(xs, vehicleId) + AlertsOf(ys, vehicleId)
  {
    if xs == [] {
      assert xs + ys == ys;
    } else {
      var head := if xs[0].vehicleId == vehicleId then [xs[0]] else [];
      assert (xs + ys)[0] == xs[0];
      assert (xs + ys)[1..] == xs[1..] + ys;
      AlertsOfAppend(xs[1..], ys, vehicleId);
      assert head + (AlertsOf(xs[1..], vehicleId) + AlertsOf(ys, vehicleId))
          == (head + AlertsOf(xs[1..], vehicleId)) + AlertsOf(ys, vehicleId);
    }
  }

  /** An alert is among those `getAlertsByVehicle` returns exactly when it is
      in the store and belongs to the vehicle. */
  lemma {:induction false} AlertsOfMembers(alerts: seq<Alert>, vehicleId: int)
    ensures forall a :: a in AlertsOf(alerts, vehicleId) <==> a in alerts && a.vehicleId == vehicleId
  {
    if alerts != [] {
      AlertsOfMembers(alerts[1..], vehicleId);
      assert alerts == [alerts[0]] + alerts[1..];
    }
  }

  lemma {:induction false} AlertsOfAll(alerts: seq<Alert>, vehicleId: int)
    requires forall a :: a in alerts ==> a.vehicleId == vehicleId
    ensures AlertsOf(alerts, vehicleId) == alerts
  {
    if alerts != [] {
      assert alerts[0] in alerts;
      AlertsOfAll(alerts[1..], vehicleId);
    }
  }

  lemma {:induction false} AlertsOfNone(alerts: seq<Alert>, vehicleId: int)
    requires forall a :: a in alerts ==> a.vehicleId != vehicleId
    ensures AlertsOf(alerts, vehicleId) == []
  {
    if alerts != [] {
      assert alerts[0] in alerts;
      AlertsOfNone(alerts[1..], vehicleId);
    }
  }

  /** `getMaintenanceRecordsByVehicle`: the records of one vehicle, in store order. */
  function RecordsOf(records: seq<MaintenanceRecord>, vehicleId: int): (r: seq<MaintenanceRecord>)
    ensures forall m :: m in r <==> m in records && m.vehicleId == vehicleId
  {
    if records == [] then []
    else (if records[0].vehicleId == vehicleId then [records[0]] else []) + RecordsOf(records[1..], vehicleId)
  }

  /** `update vehicles set status = ... where id = ...`: every row with the id. */
  function SetStatus(vehicles: seq<Vehicle>, id: int, status: string): (r: seq<Vehicle>)
    ensures |r| == |vehicles|
    ensures forall j :: 0 <= j < |r| ==>
              r[j] == if vehicles[j].id == id then vehicles[j].(status := status) else vehicles[j]
  {
    if vehicles == [] then []
    else [if vehicles[0].id == id then vehicles[0].(status := status) else vehicles[0]]
         + SetStatus(vehicles[1..], id, status)
  }

  /** After the update, `getVehicle` returns the same row with the new status. */
  lemma {:induction false} LookupSetStatus(vehicles: seq<Vehicle>, id: int, status: string)
    ensures Lookup(SetStatus(vehicles, id, status), id)
         == if Lookup(vehicles, id).Some? then Some(Lookup(vehicles, id).value.(status := status)) else None
  {
    if vehicles != [] && vehicles[0].id != id {
      LookupSetStatus(vehicles[1..], id, status);
    }
  }

  /** `Array.prototype.join`. */
  function Join(xs: seq<string>, sep: string): string {
    if xs == [] then ""
    else if |xs| == 1 then xs[0]
    else xs[0] + sep + Join(xs[1..], sep)
  }

  function StatusAlertMessage(plate: string, d: Verdict): string {
    "Statut véhicule " + plate + ": " + Join(d.reasons, ", ")
  }

  /** The alert the write-back creates for a changed, non-operational status. */
  function StatusAlert(vehicleId: int, plate: string, d: Verdict): InsertAlert {
    InsertAlert(
      vehicleId,
      if d.status == InRepair then "repair_needed" else "maintenance_due",
      StatusAlertMessage(plate, d),
      if |d.urgentIssues| > 0 then "urgent" else "medium")
  }

  /** The alert is `repair_needed` exactly for an `in_repair` verdict and
      `maintenance_due` otherwise; it is urgent exactly when the verdict has
      urgent issues, and of medium priority otherwise. */
  lemma StatusAlertShape(vehicleId: int, plate: string, d: Verdict)
    ensures var a := StatusAlert(vehicleId, plate, d);
            a.vehicleId == vehicleId && a.message == StatusAlertMessage(plate, d)
            && (a.kind == "repair_needed" <==> d.status == InRepair)
            && (a.kind == "maintenance_due" <==> d.status != InRepair)
            && (a.priority == "urgent" <==> d.urgentIssues != [])
            && (a.priority == "medium" <==> d.urgentIssues == [])
  {
  }

  /** The row `createAlert` stores: serial id, unread. */
  function Stamp(a: InsertAlert, id: int): Alert {
    Alert(id, a.vehicleId, a.kind, a.message, a.priority, false)
  }

  function AppendAlert(s: StoreState, a: InsertAlert): StoreState {
    s.(alerts := s.alerts + [Stamp(a, s.nextAlertId)], nextAlertId := s.nextAlertId + 1)
  }

  /** The stored status differs from the verdict and the verdict is not operational. */
  predicate Degraded(v: Vehicle, d: Verdict) {
    v.status != StatusText(d.status) && d.status != Operational
  }

  /** The write-back that follows a verdict, comparing against the row `v`
      as it was read. */
  function WriteBack(s: StoreState, v: Vehicle, vehicleId: int, d: Verdict): StoreState {
    if v.status != StatusText(d.status) then
      var updated := s.(vehicles := SetStatus(s.vehicles, vehicleId, StatusText(d.status)));
      if d.status != Operational then AppendAlert(updated, StatusAlert(vehicleId, v.plate, d)) else updated
    else s
  }

  /** The verdict for vehicle v from the alerts and records of store s. */
  function VerdictIn(s: StoreState, v: Vehicle, now: int): Verdict {
    Decide(v, AlertsOf(s.alerts, v.id), RecordsOf(s.records, v.id), now)
  }

  /** `validateVehicleStatus`: the new store and the result. An unknown id
      fails and writes nothing; otherwise only rows with this id change, and
      exactly one alert is appended when the stored status changed to a
      non-operational one. */
  function ValidateInStore(s: StoreState, vehicleId: int, now: int): (r: (StoreState, Result<Verdict>))
    ensures r.1.Failure? <==> Lookup(s.vehicles, vehicleId).None?
    ensures r.1.Failure? ==> r.0 == s
  {
    match Lookup(s.vehicles, vehicleId)
    case None => (s, Failure(VehicleNotFound))
    case Some(v) =>
      var d := Decide(v, AlertsOf(s.alerts, vehicleId), RecordsOf(s.records, vehicleId), now);
      (WriteBack(s, v, vehicleId, d), Success(d))
  }

  /** What a successful validation writes: the verdict is computed from
      this vehicle's alerts and records; only rows with this id change, and
      only when the stored status differs; exactly one alert is appended when
      the new status is also not operational. */
  lemma ValidateWriteBack(s: StoreState, vehicleId: int, now: int)
    ensures var r := ValidateInStore(s, vehicleId, now);
            r.1.Success? ==>
              var v := Lookup(s.vehicles, vehicleId).value;
              var d := r.1.value;
              d == VerdictIn(s, v, now)
              && r.0.parts == s.parts && r.0.records == s.records
              && |r.0.vehicles| == |s.vehicles|
              && (forall j :: 0 <= j < |s.vehicles| ==>
                    r.0.vehicles[j] == if s.vehicles[j].id == vehicleId && v.status != StatusText(d.status)
                                       then s.vehicles[j].(status := StatusText(d.status))
                                       else s.vehicles[j])
              && r.0.alerts == s.alerts + (if Degraded(v, d) then [Stamp(StatusAlert(vehicleId, v.plate, d), s.nextAlertId)] else [])
              && r.0.nextAlertId == s.nextAlertId + (if Degraded(v, d) then 1 else 0)
  {
    var r := ValidateInStore(s, vehicleId, now);
    if r.1.Success? {
      var v := Lookup(s.vehicles, vehicleId).value;
      assert r.1.value == VerdictIn(s, v, now);
      WriteBackEffect(s, v, vehicleId, r.1.value);
    }
  }

  /** The write-back changes only the status of the rows with this id, and
      only when the verdict differs from the row as read; it appends one alert
      exactly when that new status is not operational. */
  lemma WriteBackEffect(s: StoreState, v: Vehicle, vehicleId: int, d: Verdict)
    ensures var s1 := WriteBack(s, v, vehicleId, d);
            s1.parts == s.parts && s1.records == s.records
            && |s1.vehicles| == |s.vehicles|
            && (forall j :: 0 <= j < |s.vehicles| ==>
                  s1.vehicles[j] == if s.vehicles[j].id == vehicleId && v.status != StatusText(d.status)
                                    then s.vehicles[j].(status := StatusText(d.status))
                                    else s.vehicles[j])
            && s1.alerts == s.alerts + (if Degraded(v, d) then [Stamp(StatusAlert(vehicleId, v.plate, d), s.nextAlertId)] else [])
            && s1.nextAlertId == s.nextAlertId + (if Degraded(v, d) then 1 else 0)
  {
    if !Degraded(v, d) {
      assert s.alerts + [] == s.alerts;
    }
  }

  /** `validateAllVehiclesStatus` over the snapshot `vs` taken at the start:
      validate each vehicle, then repeat the write-back against the snapshot
      row; the first failure aborts the rest. */
  function SweepFrom(s: StoreState, vs: seq<Vehicle>, now: int): (StoreState, Option<StoreError>)
    decreases |vs|
  {
    if vs == [] then (s, None)
    else
      var (s1, r) := ValidateInStore(s, vs[0].id, now);
      match r
      case Failure(e) => (s1, Some(e))
      case Success(d) => SweepFrom(WriteBack(s1, vs[0], vs[0].id, d), vs[1..], now)
  }

  /** A second validation with the same `now` keeps the status, reasons and
      dates, writes nothing and appends no alert; the only difference is that
      the alert the first run created, when it is urgent, now counts as an
      urgent issue, right after the other alert messages. */
  lemma ValidateTwiceIsStable(s: StoreState, vehicleId: int, now: int)
    ensures var (s1, r1) := ValidateInStore(s, vehicleId, now);
            var (s2, r2) := ValidateInStore(s1, vehicleId, now);
            s2 == s1
            && (r1.Failure? ==> r2.Failure?)
            && (r1.Success? ==>
                  var v := Lookup(s.vehicles, vehicleId).value;
                  r2.Success?
                  && Reverdict(r1.value, r2.value, |UrgentAlertMessages(AlertsOf(s.alerts, vehicleId))|,
                               if Degraded(v, r1.value) && r1.value.urgentIssues != []
                               then [StatusAlertMessage(v.plate, r1.value)] else []))
  {
    var (s1, r1) := ValidateInStore(s, vehicleId, now);
    if r1.Success? {
      var v := Lookup(s.vehicles, vehicleId).value;
      RevalidateVerdict(s, v, vehicleId, now);
      var d1 := r1.value;
      var v1 := if v.status != StatusText(d1.status) then v.(status := StatusText(d1.status)) else v;
      assert Lookup(s1.vehicles, vehicleId) == Some(v1);
      assert v1.status == StatusText(d1.status);
    }
  }

  /** The second verdict d2 is the first one, d1, with `extra` inserted in
      the urgent issues after the first k (the messages of the urgent alerts
      the first verdict saw). */
  predicate Reverdict(d1: Verdict, d2: Verdict, k: int, extra: seq<string>) {
    d2.status == d1.status
    && d2.reasons == d1.reasons
    && d2.lastInspection == d1.lastInspection
    && d2.nextMaintenanceDue == d1.nextMaintenanceDue
    && 0 <= k <= |d1.urgentIssues|
    && d2.urgentIssues == d1.urgentIssues[..k] + extra + d1.urgentIssues[k..]
  }

  /** The second verdict, read back after the first write-back, against the
      first one. */
  lemma RevalidateVerdict(s: StoreState, v: Vehicle, vehicleId: int, now: int)
    requires Lookup(s.vehicles, vehicleId) == Some(v)
    ensures var alerts := AlertsOf(s.alerts, vehicleId);
            var d1 := Decide(v, alerts, RecordsOf(s.records, vehicleId), now);
            var s1 := WriteBack(s, v, vehicleId, d1);
            var v1 := if v.status != StatusText(d1.status) then v.(status := StatusText(d1.status)) else v;
            var d2 := Decide(v1, AlertsOf(s1.alerts, vehicleId), RecordsOf(s1.records, vehicleId), now);
            Lookup(s1.vehicles, vehicleId) == Some(v1)
            && Reverdict(d1, d2, |UrgentAlertMessages(alerts)|,
                         if Degraded(v, d1) && d1.urgentIssues != [] then [StatusAlertMessage(v.plate, d1)] else [])
  {
    var alerts := AlertsOf(s.alerts, vehicleId);
    var history := RecordsOf(s.records, vehicleId);
    var d1 := Decide(v, alerts, history, now);
    var s1 := WriteBack(s, v, vehicleId, d1);
    WriteBackReads(s, v, vehicleId, d1);
    if Degraded(v, d1) {
      var a := Stamp(StatusAlert(vehicleId, v.plate, d1), s.nextAlertId);
      assert AlertsOf(s1.alerts, vehicleId) == alerts + [a];
      RevalidateDegraded(v, alerts, history, now, a);
      StampedAlertUrgency(vehicleId, v.plate, d1, s.nextAlertId);
    } else {
      VerdictInvariants(v, alerts, history, now);
      ReverdictSame(d1, |UrgentAlertMessages(alerts)|);
      if v.status != StatusText(d1.status) {
        SameMileageSameVerdict(v, v.(status := StatusText(d1.status)), alerts, history, now);
      }
    }
  }

  lemma ReverdictSame(d: Verdict, k: int)
    requires 0 <= k <= |d.urgentIssues|
    ensures Reverdict(d, d, k, [])
  {
    assert d.urgentIssues[..k] + [] + d.urgentIssues[k..] == d.urgentIssues;
  }

  /** Re-deciding a non-operational verdict with one more alert and the new
      status stored keeps the verdict, but for that alert's urgent message. */
  lemma RevalidateDegraded(v: Vehicle, alerts: seq<Alert>, history: seq<MaintenanceRecord>, now: int, a: Alert)
    requires Decide(v, alerts, history, now).status != Operational
    ensures var d1 := Decide(v, alerts, history, now);
            Reverdict(d1, Decide(v.(status := StatusText(d1.status)), alerts + [a], history, now),
                      |UrgentAlertMessages(alerts)|, UrgentAlertMessages([a]))
  {
    var d1 := Decide(v, alerts, history, now);
    UrgentAlertMessagesAppend(alerts, [a]);
    UrgentAlertsOnlyEscalate(v, v.(status := StatusText(d1.status)), alerts, alerts + [a], history, now);
  }

  /** The stored status alert is itself an urgent issue exactly when its
      verdict had urgent issues. */
  lemma StampedAlertUrgency(vehicleId: int, plate: string, d: Verdict, id: int)
    ensures UrgentAlertMessages([Stamp(StatusAlert(vehicleId, plate, d), id)])
            == if d.urgentIssues != [] then [StatusAlertMessage(plate, d)] else []
  {
    var a := Stamp(StatusAlert(vehicleId, plate, d), id);
    assert [a][1..] == [];
  }

  /** What the second validation reads back after the write-back: the row
      with its new status, the same records, and this vehicle's alerts with
      the new status alert at the end. */
  lemma WriteBackReads(s: StoreState, v: Vehicle, vehicleId: int, d: Verdict)
    requires Lookup(s.vehicles, vehicleId) == Some(v)
    ensures var s1 := WriteBack(s, v, vehicleId, d);
            var text := StatusText(d.status);
            Lookup(s1.vehicles, vehicleId) == Some(if v.status != text then v.(status := text) else v)
            && RecordsOf(s1.records, vehicleId) == RecordsOf(s.records, vehicleId)
            && AlertsOf(s1.alerts, vehicleId)
               == AlertsOf(s.alerts, vehicleId)
                  + if Degraded(v, d) then [Stamp(StatusAlert(vehicleId, v.plate, d), s.nextAlertId)] else []
  {
    var text := StatusText(d.status);
    var s1 := WriteBack(s, v, vehicleId, d);
    if v.status != text {
      LookupSetStatus(s.vehicles, vehicleId, text);
      assert s1.vehicles == SetStatus(s.vehicles, vehicleId, text) && s1.records == s.records;
    } else {
      assert s1 == s;
    }
    WriteBackAlertsOf(s, v, vehicleId, d);
  }

  lemma WriteBackAlertsOf(s: StoreState, v: Vehicle, vehicleId: int, d: Verdict)
    ensures AlertsOf(WriteBack(s, v, vehicleId, d).alerts, vehicleId)
            == AlertsOf(s.alerts, vehicleId)
               + if Degraded(v, d) then [Stamp(StatusAlert(vehicleId, v.plate, d), s.nextAlertId)] else []
  {
    var s1 := WriteBack(s, v, vehicleId, d);
    if Degraded(v, d) {
      var a := Stamp(StatusAlert(vehicleId, v.plate, d), s.nextAlertId);
      assert s1.alerts == s.alerts + [a];
      AlertsOfAppend(s.alerts, [a], vehicleId);
      assert AlertsOf([a], vehicleId) == [a];
    } else {
      assert s1.alerts == s.alerts;
      assert AlertsOf(s.alerts, vehicleId) + [] == AlertsOf(s.alerts, vehicleId);
    }
  }

  /** The verdict of every row of s0, each computed against s0 as it stands. */
  function Verdicts(s0: StoreState, now: int): (ds: seq<Verdict>)
    ensures |ds| == |s0.vehicles|
  {
    seq(|s0.vehicles|, j requires 0 <= j < |s0.vehicles| => VerdictIn(s0, s0.vehicles[j], now))
  }

  /** The rows vs once the first i of them carry the status of their verdict in ds. */
  function SweptRows(vs: seq<Vehicle>, ds: seq<Verdict>, i: int): seq<Vehicle>
    requires |ds| == |vs| && 0 <= i <= |vs|
  {
    seq(|vs|, j requires 0 <= j < |vs| => if j < i then vs[j].(status := StatusText(ds[j].status)) else vs[j])
  }

  /** The sweep's alerts for row v and verdict d, numbered from `id`. */
  function DegradeAlerts(v: Vehicle, d: Verdict, id: int): seq<Alert> {
    if Degraded(v, d) then
      var a := StatusAlert(v.id, v.plate, d);
      [Stamp(a, id), Stamp(a, id + 1)]
    else []
  }

  /** The alerts a sweep appends for the first i rows of vs, whose verdicts
      are ds, numbered from `base`: two identical alerts (consecutive ids)
      for each vehicle whose stored status degrades, none for the others. */
  function SweepAlerts(base: int, vs: seq<Vehicle>, ds: seq<Verdict>, i: int): seq<Alert>
    requires |ds| == |vs| && 0 <= i <= |vs|
  {
    if i == 0 then []
    else
      var pre := SweepAlerts(base, vs, ds, i - 1);
      pre + DegradeAlerts(vs[i - 1], ds[i - 1], base + |pre|)
  }

  /** The sweep's alerts for a row belong to that row's vehicle. */
  lemma DegradeAlertsOwner(v: Vehicle, d: Verdict, id: int)
    ensures forall a :: a in DegradeAlerts(v, d, id) ==> a.vehicleId == v.id
  {
  }

  /** The sweep so far has created no alert for an id none of the vehicles
      it handled carries. */
  lemma {:induction false} SweepAlertsNotOf(base: int, vs: seq<Vehicle>, ds: seq<Verdict>, i: int, id: int)
    requires |ds| == |vs| && 0 <= i <= |vs|
    requires forall j :: 0 <= j < i ==> vs[j].id != id
    ensures forall a :: a in SweepAlerts(base, vs, ds, i) ==> a.vehicleId != id
  {
    if i > 0 {
      SweepAlertsNotOf(base, vs, ds, i - 1, id);
      var pre := SweepAlerts(base, vs, ds, i - 1);
      DegradeAlertsOwner(vs[i - 1], ds[i - 1], base + |pre|);
      assert SweepAlerts(base, vs, ds, i) == pre + DegradeAlerts(vs[i - 1], ds[i - 1], base + |pre|);
    }
  }

  /** The store after the sweep has handled the first i vehicles of the
      snapshot, whose verdicts are ds. */
  function SweptPrefix(s0: StoreState, ds: seq<Verdict>, i: int): StoreState
    requires |ds| == |s0.vehicles| && 0 <= i <= |s0.vehicles|
  {
    var swept := SweepAlerts(s0.nextAlertId, s0.vehicles, ds, i);
    StoreState(SweptRows(s0.vehicles, ds, i), s0.parts, s0.records, s0.alerts + swept, s0.nextAlertId + |swept|)
  }

  /** One step of the sweep, as its definition states it. */
  lemma SweepFromStep(s: StoreState, vs: seq<Vehicle>, now: int)
    requires vs != []
    ensures var r := ValidateInStore(s, vs[0].id, now);
            SweepFrom(s, vs, now)
            == if r.1.Failure? then (r.0, Some(r.1.error))
               else SweepFrom(WriteBack(r.0, vs[0], vs[0].id, r.1.value), vs[1..], now)
  {
  }

  /** Midway through the sweep the rows keep their ids and row i is still
      the snapshot row. */
  lemma SweptRowsIds(vs: seq<Vehicle>, ds: seq<Verdict>, i: int)
    requires |ds| == |vs| && 0 <= i < |vs|
    ensures var rows := SweptRows(vs, ds, i);
            |rows| == |vs|
            && rows[i] == vs[i]
            && forall j :: 0 <= j < |vs| ==> rows[j].id == vs[j].id
  {
  }

  /** Midway through the sweep, vehicle i's row is found by its id and its
      alerts and records are those the sweep started with. */
  lemma SweptPrefixInputs(s0: StoreState, ds: seq<Verdict>, i: int)
    requires DistinctIds(s0.vehicles)
    requires |ds| == |s0.vehicles| && 0 <= i < |s0.vehicles|
    ensures var p := SweptPrefix(s0, ds, i);
            var v := s0.vehicles[i];
            Lookup(p.vehicles, v.id) == Some(v)
            && AlertsOf(p.alerts, v.id) == AlertsOf(s0.alerts, v.id)
            && RecordsOf(p.records, v.id) == RecordsOf(s0.records, v.id)
  {
    var vs := s0.vehicles;
    var rows := SweptRows(vs, ds, i);
    SweptRowsIds(vs, ds, i);
    assert forall j :: 0 <= j < i ==> rows[j].id != rows[i].id;
    LookupAt(rows, i);
    AlertsOfAppend(s0.alerts, SweepAlerts(s0.nextAlertId, vs, ds, i), vs[i].id);
    SweepAlertsNotOf(s0.nextAlertId, vs, ds, i, vs[i].id);
    AlertsOfNone(SweepAlerts(s0.nextAlertId, vs, ds, i), vs[i].id);
  }

  /** The sweep's two status writes for vehicle i give the rows of SweptRows(i + 1). */
  lemma SweptRowsStep(vs: seq<Vehicle>, ds: seq<Verdict>, i: int)
    requires DistinctIds(vs)
    requires |ds| == |vs| && 0 <= i < |vs|
    ensures var v := vs[i];
            var text := StatusText(ds[i].status);
            var rows := SweptRows(vs, ds, i);
            (if v.status != text then SetStatus(SetStatus(rows, v.id, text), v.id, text) else rows)
            == SweptRows(vs, ds, i + 1)
  {
    var v := vs[i];
    var text := StatusText(ds[i].status);
    var rows := SweptRows(vs, ds, i);
    var next := SweptRows(vs, ds, i + 1);
    SweptRowsIds(vs, ds, i);
    assert next[i] == v.(status := text);
    if v.status != text {
      var written := SetStatus(SetStatus(rows, v.id, text), v.id, text);
      forall j | 0 <= j < |vs| ensures written[j] == next[j] {
        if j != i {
          assert vs[j].id != v.id;
        }
      }
    } else {
      assert v.(status := text) == v;
      assert rows == next;
    }
  }

  /** The sweep's second write-back repeats the first against the same row:
      the status is written twice and a degraded vehicle gets two alerts. */
  lemma WriteBackTwice(p: StoreState, v: Vehicle, d: Verdict)
    ensures var text := StatusText(d.status);
            var added := DegradeAlerts(v, d, p.nextAlertId);
            WriteBack(WriteBack(p, v, v.id, d), v, v.id, d)
            == StoreState(
                 if v.status != text then SetStatus(SetStatus(p.vehicles, v.id, text), v.id, text) else p.vehicles,
                 p.parts, p.records, p.alerts + added, p.nextAlertId + |added|)
  {
    if Degraded(v, d) {
      var a := StatusAlert(v.id, v.plate, d);
      assert p.alerts + [Stamp(a, p.nextAlertId)] + [Stamp(a, p.nextAlertId + 1)]
          == p.alerts + [Stamp(a, p.nextAlertId), Stamp(a, p.nextAlertId + 1)];
    }
  }

  /** The sweep's two write-backs for vehicle i take the store from
      SweptPrefix(i) to SweptPrefix(i + 1). */
  lemma SweptPrefixWriteBack(s0: StoreState, ds: seq<Verdict>, i: int)
    requires DistinctIds(s0.vehicles)
    requires |ds| == |s0.vehicles| && 0 <= i < |s0.vehicles|
    ensures var v := s0.vehicles[i];
            WriteBack(WriteBack(SweptPrefix(s0, ds, i), v, v.id, ds[i]), v, v.id, ds[i])
            == SweptPrefix(s0, ds, i + 1)
  {
    var vs := s0.vehicles;
    var p := SweptPrefix(s0, ds, i);
    WriteBackTwice(p, vs[i], ds[i]);
    SweptRowsStep(vs, ds, i);
    SweptAlertsStep(s0, ds, i);
  }

  /** The sweep's alerts for vehicle i, appended to those of SweptPrefix(i),
      give those of SweptPrefix(i + 1). */
  lemma SweptAlertsStep(s0: StoreState, ds: seq<Verdict>, i: int)
    requires |ds| == |s0.vehicles| && 0 <= i < |s0.vehicles|
    ensures var p := SweptPrefix(s0, ds, i);
            var q := SweptPrefix(s0, ds, i + 1);
            var added := DegradeAlerts(s0.vehicles[i], ds[i], p.nextAlertId);
            p.alerts + added == q.alerts && p.nextAlertId + |added| == q.nextAlertId
  {
    var swept := SweepAlerts(s0.nextAlertId, s0.vehicles, ds, i);
    var added := DegradeAlerts(s0.vehicles[i], ds[i], s0.nextAlertId + |swept|);
    assert SweepAlerts(s0.nextAlertId, s0.vehicles, ds, i + 1) == swept + added;
    assert (s0.alerts + swept) + added == s0.alerts + (swept + added);
  }

  /** Vehicle i is validated against the store the sweep has reached, and
      gets the verdict it had in the store the sweep started from. */
  lemma SweepStep(s0: StoreState, now: int, i: int)
    requires DistinctIds(s0.vehicles)
    requires 0 <= i < |s0.vehicles|
    ensures var ds := Verdicts(s0, now);
            SweepFrom(SweptPrefix(s0, ds, i), s0.vehicles[i..], now)
            == SweepFrom(SweptPrefix(s0, ds, i + 1), s0.vehicles[i + 1..], now)
  {
    var vs := s0.vehicles;
    var ds := Verdicts(s0, now);
    var p := SweptPrefix(s0, ds, i);
    var v := vs[i];
    assert vs[i..][0] == v;
    assert vs[i..][1..] == vs[i + 1..];
    SweptPrefixInputs(s0, ds, i);
    assert ds[i] == VerdictIn(s0, v, now);
    assert ValidateInStore(p, v.id, now) == (WriteBack(p, v, v.id, ds[i]), Success(ds[i]));
    SweepFromStep(p, vs[i..], now);
    SweptPrefixWriteBack(s0, ds, i);
  }

  lemma {:induction false} SweepFromPrefix(s0: StoreState, now: int, i: int)
    requires DistinctIds(s0.vehicles)
    requires 0 <= i <= |s0.vehicles|
    ensures var ds := Verdicts(s0, now);
            SweepFrom(SweptPrefix(s0, ds, i), s0.vehicles[i..], now)
            == (SweptPrefix(s0, ds, |s0.vehicles|), None)
    decreases |s0.vehicles| - i
  {
    if i < |s0.vehicles| {
      SweepStep(s0, now, i);
      SweepFromPrefix(s0, now, i + 1);
    }
  }

  lemma SweptNothing(s0: StoreState, ds: seq<Verdict>)
    requires |ds| == |s0.vehicles|
    ensures SweptPrefix(s0, ds, 0) == s0
  {
    assert s0.alerts + [] == s0.alerts;
  }

  lemma SweepFromStart(s0: StoreState, now: int)
    requires DistinctIds(s0.vehicles)
    ensures SweepFrom(s0, s0.vehicles, now) == (SweptPrefix(s0, Verdicts(s0, now), |s0.vehicles|), None)
  {
    SweptNothing(s0, Verdicts(s0, now));
    assert s0.vehicles[0..] == s0.vehicles;
    SweepFromPrefix(s0, now, 0);
  }

  /** The store after a complete sweep from s0: every row carries the status
      of its verdict against s0, and the alerts gain `SweepAlerts`. */
  function Swept(s0: StoreState, now: int): StoreState {
    var ds := Verdicts(s0, now);
    var swept := SweepAlerts(s0.nextAlertId, s0.vehicles, ds, |s0.vehicles|);
    StoreState(SweptRows(s0.vehicles, ds, |s0.vehicles|), s0.parts, s0.records,
               s0.alerts + swept, s0.nextAlertId + |swept|)
  }

  lemma SweptEverything(s0: StoreState, now: int)
    ensures SweptPrefix(s0, Verdicts(s0, now), |s0.vehicles|) == Swept(s0, now)
  {
  }

  /** With distinct vehicle ids the sweep never aborts and leaves the store
      `Swept`: every vehicle's stored status becomes its verdict computed
      from the alerts and records as they were before the sweep; the alerts
      gain two per degraded vehicle; parts and records are untouched. */
  lemma SweepOutcome(s0: StoreState, now: int)
    requires DistinctIds(s0.vehicles)
    ensures SweepFrom(s0, s0.vehicles, now) == (Swept(s0, now), None)
  {
    SweepFromStart(s0, now);
    SweptEverything(s0, now);
  }

  /** After a sweep over distinct ids, the alerts of vehicle i are those it
      had plus, when its stored status degraded against the verdict computed
      when the sweep reached it, the same status alert twice, with
      consecutive ids. */
  lemma SweptAlertsOf(s0: StoreState, now: int, i: int)
    requires DistinctIds(s0.vehicles) && 0 <= i < |s0.vehicles|
    ensures var v := s0.vehicles[i];
            var first := s0.nextAlertId + |SweepAlerts(s0.nextAlertId, s0.vehicles, Verdicts(s0, now), i)|;
            AlertsOf(Swept(s0, now).alerts, v.id)
            == AlertsOf(s0.alerts, v.id) + DegradeAlerts(v, VerdictIn(s0, v, now), first)
  {
    SweepAlertsOfVehicleAfter(s0.alerts, s0.nextAlertId, s0.vehicles, Verdicts(s0, now), i);
  }

  /** Appended after xs, the sweep's alerts for the rows vs add to row i's
      vehicle exactly those appended for row i. */
  lemma SweepAlertsOfVehicleAfter(xs: seq<Alert>, base: int, vs: seq<Vehicle>, ds: seq<Verdict>, i: int)
    requires DistinctIds(vs) && |ds| == |vs| && 0 <= i < |vs|
    ensures AlertsOf(xs + SweepAlerts(base, vs, ds, |vs|), vs[i].id)
            == AlertsOf(xs, vs[i].id) + DegradeAlerts(vs[i], ds[i], base + |SweepAlerts(base, vs, ds, i)|)
  {
    AlertsOfAppend(xs, SweepAlerts(base, vs, ds, |vs|), vs[i].id);
    SweepAlertsOfVehicle(base, vs, ds, i);
  }

  /** Of all the alerts a sweep appends, those of row i's vehicle are the
      ones appended for row i. */
  lemma SweepAlertsOfVehicle(base: int, vs: seq<Vehicle>, ds: seq<Verdict>, i: int)
    requires DistinctIds(vs) && |ds| == |vs| && 0 <= i < |vs|
    ensures AlertsOf(SweepAlerts(base, vs, ds, |vs|), vs[i].id)
            == DegradeAlerts(vs[i], ds[i], base + |SweepAlerts(base, vs, ds, i)|)
  {
    var id := vs[i].id;
    SweepAlertsNotOf(base, vs, ds, i, id);
    AlertsOfNone(SweepAlerts(base, vs, ds, i), id);
    SweepAlertsOfOwnRow(base, vs, ds, i);
    SweepAlertsAfterRow(base, vs, ds, |vs|, i);
  }

  lemma SweepAlertsUnfold(base: int, vs: seq<Vehicle>, ds: seq<Verdict>, n: int)
    requires |ds| == |vs| && 0 < n <= |vs|
    ensures SweepAlerts(base, vs, ds, n)
            == SweepAlerts(base, vs, ds, n - 1)
               + DegradeAlerts(vs[n - 1], ds[n - 1], base + |SweepAlerts(base, vs, ds, n - 1)|)
  {
  }

  lemma SweepAlertsNext(base: int, vs: seq<Vehicle>, ds: seq<Verdict>, i: int)
    requires |ds| == |vs| && 0 <= i < |vs|
    ensures SweepAlerts(base, vs, ds, i + 1)
            == SweepAlerts(base, vs, ds, i) + DegradeAlerts(vs[i], ds[i], base + |SweepAlerts(base, vs, ds, i)|)
  {
  }

  lemma AlertsOfAppendOthers(xs: seq<Alert>, ys: seq<Alert>, vehicleId: int)
    requires forall a :: a in ys ==> a.vehicleId != vehicleId
    ensures AlertsOf(xs + ys, vehicleId) == AlertsOf(xs, vehicleId)
  {
    AlertsOfAppend(xs, ys, vehicleId);
    AlertsOfNone(ys, vehicleId);
    assert AlertsOf(xs, vehicleId) + [] == AlertsOf(xs, vehicleId);
  }

  /** Appended after alerts of other vehicles, the status alerts for v are
      all that `getAlertsByVehicle` returns for v. */
  lemma AlertsOfAppendOwn(all: seq<Alert>, xs: seq<Alert>, v: Vehicle, d: Verdict, id: int)
    requires all == xs + DegradeAlerts(v, d, id)
    requires AlertsOf(xs, v.id) == []
    ensures AlertsOf(all, v.id) == DegradeAlerts(v, d, id)
  {
    var ys := DegradeAlerts(v, d, id);
    DegradeAlertsOwner(v, d, id);
    AlertsOfAppend(xs, ys, v.id);
    AlertsOfAll(ys, v.id);
    assert [] + ys == ys;
  }

  /** The rows after row i add no alert of row i's vehicle. */
  lemma {:induction false} SweepAlertsAfterRow(base: int, vs: seq<Vehicle>, ds: seq<Verdict>, n: int, i: int)
    requires DistinctIds(vs) && |ds| == |vs| && 0 <= i < n <= |vs|
    ensures AlertsOf(SweepAlerts(base, vs, ds, n), vs[i].id) == AlertsOf(SweepAlerts(base, vs, ds, i + 1), vs[i].id)
  {
    if n > i + 1 {
      SweepAlertsAfterRow(base, vs, ds, n - 1, i);
      SweepAlertsOfOtherRow(base, vs, ds, n, vs[i].id);
    }
  }

  /** Row n - 1 adds no alert of a vehicle with another id. */
  lemma SweepAlertsOfOtherRow(base: int, vs: seq<Vehicle>, ds: seq<Verdict>, n: int, id: int)
    requires |ds| == |vs| && 0 < n <= |vs| && vs[n - 1].id != id
    ensures AlertsOf(SweepAlerts(base, vs, ds, n), id) == AlertsOf(SweepAlerts(base, vs, ds, n - 1), id)
  {
    var pre := SweepAlerts(base, vs, ds, n - 1);
    SweepAlertsUnfold(base, vs, ds, n);
    DegradeAlertsOwner(vs[n - 1], ds[n - 1], base + |pre|);
    AlertsOfAppendOthers(pre, DegradeAlerts(vs[n - 1], ds[n - 1], base + |pre|), id);
  }

  /** Row i adds its own alerts after those the sweep created before it. */
  lemma SweepAlertsOfOwnRow(base: int, vs: seq<Vehicle>, ds: seq<Verdict>, i: int)
    requires |ds| == |vs| && 0 <= i < |vs|
    requires AlertsOf(SweepAlerts(base, vs, ds, i), vs[i].id) == []
    ensures AlertsOf(SweepAlerts(base, vs, ds, i + 1), vs[i].id)
            == DegradeAlerts(vs[i], ds[i], base + |SweepAlerts(base, vs, ds, i)|)
  {
    var pre := SweepAlerts(base, vs, ds, i);
    SweepAlertsNext(base, vs, ds, i);
    AlertsOfAppendOwn(SweepAlerts(base, vs, ds, i + 1), pre, vs[i], ds[i], base + |pre|);
  }

  /** The database, as one object whose tables the operations update in place. */
  class Store {
    var vehicles: seq<Vehicle>
    var parts: seq<Part>
    var records: seq<MaintenanceRecord>
    var alerts: seq<Alert>
    var nextAlertId: int

    function State(): StoreState
      reads this
    {
      StoreState(vehicles, parts, records, alerts, nextAlertId)
    }

    ghost predicate Valid()
      reads this
    {
      DistinctIds(vehicles)
    }

    constructor (vehicles: seq<Vehicle>, parts: seq<Part>, records: seq<MaintenanceRecord>,
                 alerts: seq<Alert>, nextAlertId: int)
      requires DistinctIds(vehicles)
      ensures Valid()
      ensures State() == StoreState(vehicles, parts, records, alerts, nextAlertId)
    {
      this.vehicles := vehicles;
      this.parts := parts;
      this.records := records;
      this.alerts := alerts;
      this.nextAlertId := nextAlertId;
    }

    /** `updateVehicle(id, { status })`. */
    method UpdateVehicleStatus(id: int, status: string)
      requires Valid()
      modifies this
      ensures Valid()
      ensures State() == old(State()).(vehicles := SetStatus(old(vehicles), id, status))
    {
      vehicles := SetStatus(vehicles, id, status);
    }

    /** `createAlert`. */
    method CreateAlert(a: InsertAlert)
      requires Valid()
      modifies this
      ensures Valid()
      ensures State() == AppendAlert(old(State()), a)
    {
      alerts := alerts + [Stamp(a, nextAlertId)];
      nextAlertId := nextAlertId + 1;
    }

    /** The write-back of a verdict for the row `vehicle` as it was read:
        the status update, then the alert when the new status is not
        operational. */
    method WriteBackVerdict(vehicleId: int, vehicle: Vehicle, verdict: Verdict)
      requires Valid()
      modifies this
      ensures Valid()
      ensures State() == WriteBack(old(State()), vehicle, vehicleId, verdict)
    {
      if vehicle.status != StatusText(verdict.status) {
        UpdateVehicleStatus(vehicleId, StatusText(verdict.status));
        if verdict.status != Operational {
          CreateAlert(StatusAlert(vehicleId, vehicle.plate, verdict));
        }
      }
    }

    /** `validateVehicleStatus`. */
    method ValidateVehicleStatus(vehicleId: int, now: int) returns (r: Result<Verdict>)
      requires Valid()
      modifies this
      ensures Valid()
      ensures (State(), r) == ValidateInStore(old(State()), vehicleId, now)
    {
      var found := Lookup(vehicles, vehicleId);
      if found.None? {
        return Failure(VehicleNotFound);
      }
      var vehicle := found.value;
      var vehicleAlerts := AlertsOf(alerts, vehicleId);
      var maintenanceHistory := RecordsOf(records, vehicleId);

      var verdict := Evaluate(vehicle, vehicleAlerts, maintenanceHistory, now);

      WriteBackVerdict(vehicleId, vehicle, verdict);
      r := Success(verdict);
    }

    /** `validateAllVehiclesStatus`; returns the error that aborted it, if any. */
    method ValidateAllVehiclesStatus(now: int) returns (failure: Option<StoreError>)
      requires Valid()
      modifies this
      ensures Valid()
      ensures (State(), failure) == SweepFrom(old(State()), old(vehicles), now)
      ensures failure == None && State() == Swept(old(State()), now)
    {
      SweepOutcome(State(), now);
      var allVehicles := vehicles;
      var i := 0;
      while i < |allVehicles|
        invariant 0 <= i <= |allVehicles|
        invariant Valid()
        invariant SweepFrom(State(), allVehicles[i..], now) == SweepFrom(old(State()), allVehicles, now)
      {
        var vehicle := allVehicles[i];
        ghost var before := State();
        SweepFromStep(before, allVehicles[i..], now);
        assert allVehicles[i..][0] == vehicle && allVehicles[i..][1..] == allVehicles[i + 1..];
        var validation := ValidateVehicleStatus(vehicle.id, now);
        if validation.Failure? {
          // The id was just read from the table, so the lookup finds it.
          assert false;
        }
        WriteBackVerdict(vehicle.id, vehicle, validation.value);
        i := i + 1;
      }
      failure := None;
    }
  }
}
