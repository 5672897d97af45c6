/** The rule engine of `validateVehicleStatus` (server/storage.ts): given one
    vehicle, its alerts and its maintenance history, compute the status
    verdict. `Decide` states the verdict rule by rule in closed form;
    `Evaluate` is the step-by-step computation of `validateVehicleStatus`
    with its mutable locals, proved to produce exactly `Decide`'s verdict. */
module Validator {
  import opened Schema

  /** Milliseconds in one day. */
  const Day: int := 86400000

  const HighMileage: int := 200000
  const ModerateMileage: int := 100000

  // Maintenance record types, as stored in the database.
  const Vidange: string := "vidange"
  const Revision: string := "revision"
  const ControleTechnique: string := "controle_technique"
  const Reparation: string := "reparation"

  // Reasons.
  const RecentRepairReason: string := "Réparation récente en cours"
  const OilChangeReason: string := "Vidange due (+ de 6 mois)"
  const InspectionReason: string := "Contrôle technique expiré"
  const ServiceReason: string := "Révision annuelle due"
  const NoHistoryReason: string := "Aucun historique de maintenance"
  const HighMileageReason: string := "Kilométrage élevé (+ 200k km)"
  const ModerateMileageReason: string := "Kilométrage modéré (+ 100k km)"
  const AllClearReason: string := "Toutes les vérifications sont conformes"

  // Urgent issues added by the rules themselves.
  const InspectionIssue: string := "Contrôle technique obligatoire expiré"
  const NoHistoryIssue: string := "Véhicule sans historique de maintenance"

  datatype Status = Operational | MaintenanceDue | InRepair

  /** The text the database stores for a status. */
  function StatusText(s: Status): string {
    match s
    case Operational => "operational"
    case MaintenanceDue => "maintenance_due"
    case InRepair => "in_repair"
  }

  /** The object `validateVehicleStatus` returns. */
  datatype Verdict = Verdict(
    status: Status,
    reasons: seq<string>,
    lastInspection: Option<int>,
    nextMaintenanceDue: Option<int>,
    urgentIssues: seq<string>)

  /** An alert that counts as an urgent issue: unread, priority urgent or high. */
  predicate IsUrgentAlert(a: Alert) {
    !a.isRead && (a.priority == "urgent" || a.priority == "high")
  }

  /** Messages of the urgent alerts, in store order. */
  function UrgentAlertMessages(alerts: seq<Alert>): (ms: seq<string>)
    ensures |ms| <= |alerts|
  {
    if alerts == [] then []
    else (if IsUrgentAlert(alerts[0]) then [alerts[0].message] else [])
         + UrgentAlertMessages(alerts[1..])
  }

  lemma {:induction false} UrgentAlertMessagesAppend(xs: seq<Alert>, ys: seq<Alert>)
    ensures UrgentAlertMessages(xs + ys) == UrgentAlertMessages(xs) + UrgentAlertMessages(ys)
  {
    if xs == [] {
      assert xs + ys == ys;
    } else {
      var head := if IsUrgentAlert(xs[0]) then [xs[0].message] else [];
      assert (xs + ys)[0] == xs[0];
      assert (xs + ys)[1..] == xs[1..] + ys;
      UrgentAlertMessagesAppend(xs[1..], ys);
      assert UrgentAlertMessages(xs + ys) == head + (UrgentAlertMessages(xs[1..]) + UrgentAlertMessages(ys));
    }
  }

  /** A message is an urgent issue from the alerts exactly when some urgent
      alert carries it. */
  lemma {:induction false} UrgentAlertMessagesExact(alerts: seq<Alert>, m: string)
    ensures m in UrgentAlertMessages(alerts)
        <==> exists a :: a in alerts && IsUrgentAlert(a) && a.message == m
  {
    if alerts != [] {
      UrgentAlertMessagesExact(alerts[1..], m);
      assert forall a :: a in alerts <==> a == alerts[0] || a in alerts[1..];
    }
  }

  /** The timestamp `new Date(completedAt).getTime()` sorts by: a missing
      date becomes the epoch, 0. */
  function SortKey(r: MaintenanceRecord): int {
    if r.completedAt.Some? then r.completedAt.value else 0
  }

  /** The first record of a sort by descending `SortKey` (a stable sort):
      the latest record, the earliest in store order among equal keys. */
  function Newest(rs: seq<MaintenanceRecord>): (r: Option<MaintenanceRecord>)
    ensures r.None? <==> rs == []
    ensures r.Some? ==> r.value in rs && forall x :: x in rs ==> SortKey(x) <= SortKey(r.value)
  {
    if rs == [] then None
    else
      var rest := Newest(rs[1..]);
      if rest.None? || SortKey(rest.value) <= SortKey(rs[0]) then Some(rs[0]) else rest
  }

  /** `Newest` picks exactly the first record whose key is maximal, as the
      first element of a stable descending sort does. */
  lemma {:induction false} NewestIsFirstLatest(rs: seq<MaintenanceRecord>, i: int)
    requires 0 <= i < |rs|
    requires forall j :: 0 <= j < |rs| ==> SortKey(rs[j]) <= SortKey(rs[i])
    requires forall j :: 0 <= j < i ==> SortKey(rs[j]) < SortKey(rs[i])
    ensures Newest(rs) == Some(rs[i])
  {
    var rest := Newest(rs[1..]);
    if i == 0 {
      if rest.Some? {
        var k :| 0 <= k < |rs[1..]| && rs[1..][k] == rest.value;
        assert rs[k + 1] == rest.value;
      }
    } else {
      forall j | 0 <= j < |rs[1..]| ensures SortKey(rs[1..][j]) <= SortKey(rs[1..][i - 1]) {
        assert rs[1..][j] == rs[j + 1];
      }
      NewestIsFirstLatest(rs[1..], i - 1);
    }
  }

  /** Records that carry a completion date (`filter(r => r.completedAt)`). */
  function Dated(history: seq<MaintenanceRecord>): (rs: seq<MaintenanceRecord>)
    ensures |rs| <= |history|
  {
    if history == [] then []
    else (if history[0].completedAt.Some? then [history[0]] else []) + Dated(history[1..])
  }

  /** The date filter keeps exactly the records that have a completion date. */
  lemma {:induction false} DatedMembers(history: seq<MaintenanceRecord>)
    ensures forall x :: x in Dated(history) <==> x in history && x.completedAt.Some?
  {
    if history != [] {
      DatedMembers(history[1..]);
      assert history == [history[0]] + history[1..];
    }
  }

  predicate IsMajor(r: MaintenanceRecord) {
    r.kind == Vidange || r.kind == Revision || r.kind == ControleTechnique
  }

  /** Records of a major maintenance type. */
  function MajorRecords(history: seq<MaintenanceRecord>): (rs: seq<MaintenanceRecord>)
    ensures |rs| <= |history|
  {
    if history == [] then []
    else (if IsMajor(history[0]) then [history[0]] else []) + MajorRecords(history[1..])
  }

  /** The major-type filter keeps exactly the `vidange`, `revision` and
      `controle_technique` records. */
  lemma {:induction false} MajorRecordsMembers(history: seq<MaintenanceRecord>)
    ensures forall x :: x in MajorRecords(history) <==> x in history && IsMajor(x)
  {
    if history != [] {
      MajorRecordsMembers(history[1..]);
      assert history == [history[0]] + history[1..];
    }
  }

  /** The date filter keeps store order. */
  lemma {:induction false} DatedAppend(xs: seq<MaintenanceRecord>, ys: seq<MaintenanceRecord>)
    ensures Dated(xs + ys) == Dated(xs) + Dated(ys)
  {
    if xs == [] {
      assert xs + ys == ys;
    } else {
      var head := if xs[0].completedAt.Some? then [xs[0]] else [];
      assert (xs + ys)[0] == xs[0];
      assert (xs + ys)[1..] == xs[1..] + ys;
      DatedAppend(xs[1..], ys);
      assert Dated(xs + ys) == head + (Dated(xs[1..]) + Dated(ys));
    }
  }

  /** The major-type filter keeps store order. */
  lemma {:induction false} MajorRecordsAppend(xs: seq<MaintenanceRecord>, ys: seq<MaintenanceRecord>)
    ensures MajorRecords(xs + ys) == MajorRecords(xs) + MajorRecords(ys)
  {
    if xs == [] {
      assert xs + ys == ys;
    } else {
      var head := if IsMajor(xs[0]) then [xs[0]] else [];
      assert (xs + ys)[0] == xs[0];
      assert (xs + ys)[1..] == xs[1..] + ys;
      MajorRecordsAppend(xs[1..], ys);
      assert MajorRecords(xs + ys) == head + (MajorRecords(xs[1..]) + MajorRecords(ys));
    }
  }

  /** A record later than everything before it and no earlier than
      everything after it is the head of the stable descending sort. */
  lemma NewestOfSplit(pre: seq<MaintenanceRecord>, x: MaintenanceRecord, post: seq<MaintenanceRecord>)
    requires forall y :: y in pre ==> SortKey(y) < SortKey(x)
    requires forall y :: y in post ==> SortKey(y) <= SortKey(x)
    ensures Newest(pre + [x] + post) == Some(x)
  {
    var rs := pre + [x] + post;
    var i := |pre|;
    forall j | 0 <= j < |rs| ensures SortKey(rs[j]) <= SortKey(rs[i]) {
      if j < i {
        assert rs[j] == pre[j];
      } else if j > i {
        assert rs[j] == post[j - i - 1];
      }
    }
    forall j | 0 <= j < i ensures SortKey(rs[j]) < SortKey(rs[i]) {
      assert rs[j] == pre[j];
    }
    NewestIsFirstLatest(rs, i);
  }

  /** `recentMaintenance` is history[i] when that record is dated,
      no dated record is later, and every dated record before it in store
      order is strictly earlier. */
  lemma LastRecordIsFirstLatest(history: seq<MaintenanceRecord>, i: int)
    requires 0 <= i < |history| && history[i].completedAt.Some?
    requires forall j :: 0 <= j < |history| && history[j].completedAt.Some? ==> SortKey(history[j]) <= SortKey(history[i])
    requires forall j :: 0 <= j < i && history[j].completedAt.Some? ==> SortKey(history[j]) < SortKey(history[i])
    ensures LastRecord(history) == Some(history[i])
  {
    var pre, post := history[..i], history[i + 1..];
    assert history == pre + [history[i]] + post;
    DatedAppend(pre + [history[i]], post);
    DatedAppend(pre, [history[i]]);
    assert Dated([history[i]]) == [history[i]];
    DatedMembers(pre);
    DatedMembers(post);
    forall y | y in Dated(pre) ensures SortKey(y) < SortKey(history[i]) {
      var j :| 0 <= j < |pre| && pre[j] == y;
      assert history[j] == y;
    }
    forall y | y in Dated(post) ensures SortKey(y) <= SortKey(history[i]) {
      var j :| 0 <= j < |post| && post[j] == y;
      assert history[i + 1 + j] == y;
    }
    NewestOfSplit(Dated(pre), history[i], Dated(post));
  }

  /** `lastMajorMaintenance` is history[i] when that record is of a
      major type, no major record sorts later, and every major record before
      it in store order sorts strictly earlier. */
  lemma LastMajorIsFirstLatest(history: seq<MaintenanceRecord>, i: int)
    requires 0 <= i < |history| && IsMajor(history[i])
    requires forall j :: 0 <= j < |history| && IsMajor(history[j]) ==> SortKey(history[j]) <= SortKey(history[i])
    requires forall j :: 0 <= j < i && IsMajor(history[j]) ==> SortKey(history[j]) < SortKey(history[i])
    ensures LastMajor(history) == Some(history[i])
  {
    var pre, post := history[..i], history[i + 1..];
    assert history == pre + [history[i]] + post;
    MajorRecordsAppend(pre + [history[i]], post);
    MajorRecordsAppend(pre, [history[i]]);
    assert MajorRecords([history[i]]) == [history[i]];
    MajorRecordsMembers(pre);
    MajorRecordsMembers(post);
    forall y | y in MajorRecords(pre) ensures SortKey(y) < SortKey(history[i]) {
      var j :| 0 <= j < |pre| && pre[j] == y;
      assert history[j] == y;
    }
    forall y | y in MajorRecords(post) ensures SortKey(y) <= SortKey(history[i]) {
      var j :| 0 <= j < |post| && post[j] == y;
      assert history[i + 1 + j] == y;
    }
    NewestOfSplit(MajorRecords(pre), history[i], MajorRecords(post));
  }

  /** The most recent dated record (`recentMaintenance`). */
  function LastRecord(history: seq<MaintenanceRecord>): Option<MaintenanceRecord> {
    Newest(Dated(history))
  }

  /** The most recent major record (`lastMajorMaintenance`). */
  function LastMajor(history: seq<MaintenanceRecord>): Option<MaintenanceRecord> {
    Newest(MajorRecords(history))
  }

  /** Age of a record in milliseconds; a record without a date counts as 365 days old. */
  function AgeMs(m: MaintenanceRecord, now: int): int {
    if m.completedAt.Some? then now - m.completedAt.value else 365 * Day
  }

  predicate OilChangeDue(m: MaintenanceRecord, now: int) {
    m.kind == Vidange && AgeMs(m, now) > 180 * Day
  }

  predicate InspectionExpired(m: MaintenanceRecord, now: int) {
    m.kind == ControleTechnique && AgeMs(m, now) > 365 * Day
  }

  predicate ServiceDue(m: MaintenanceRecord, now: int) {
    m.kind == Revision && AgeMs(m, now) > 365 * Day
  }

  /** The latest dated record is a repair finished less than a day before `now`. */
  predicate RecentRepair(history: seq<MaintenanceRecord>, now: int) {
    var last := LastRecord(history);
    last.Some? && last.value.kind == Reparation && now - SortKey(last.value) < Day
  }

  /** A major-maintenance rule sets `maintenance_due`: no major record at
      all, or the latest one is overdue for its type. */
  predicate MajorRuleFires(history: seq<MaintenanceRecord>, now: int) {
    MajorRuleFiresFor(LastMajor(history), now)
  }

  predicate MajorRuleFiresFor(major: Option<MaintenanceRecord>, now: int) {
    major.None?
    || OilChangeDue(major.value, now)
    || InspectionExpired(major.value, now)
    || ServiceDue(major.value, now)
  }

  function MajorReasons(major: Option<MaintenanceRecord>, now: int): seq<string> {
    match major
    case None => [NoHistoryReason]
    case Some(m) =>
      (if OilChangeDue(m, now) then [OilChangeReason] else [])
      + (if InspectionExpired(m, now) then [InspectionReason] else [])
      + (if ServiceDue(m, now) then [ServiceReason] else [])
  }

  function MajorIssues(major: Option<MaintenanceRecord>, now: int): seq<string> {
    match major
    case None => [NoHistoryIssue]
    case Some(m) => if InspectionExpired(m, now) then [InspectionIssue] else []
  }

  /** The next oil change, 180 days after an overdue one; none otherwise. */
  function NextDue(major: Option<MaintenanceRecord>, now: int): Option<int> {
    if major.Some? && OilChangeDue(major.value, now) then Some(SortKey(major.value) + 180 * Day) else None
  }

  function MileageReasons(mileage: int): seq<string> {
    if mileage > HighMileage then [HighMileageReason]
    else if mileage > ModerateMileage then [ModerateMileageReason]
    else []
  }

  /** The verdict, by severity: a firing major-maintenance rule gives
      `maintenance_due` even over a recent repair; otherwise a recent repair
      gives `in_repair`; otherwise high mileage or an urgent alert gives
      `maintenance_due`; otherwise the vehicle is operational. */
  function Decide(vehicle: Vehicle, alerts: seq<Alert>, history: seq<MaintenanceRecord>, now: int): (r: Verdict)
  {
    var last := LastRecord(history);
    var major := LastMajor(history);
    var alertIssues := UrgentAlertMessages(alerts);
    var repair := RecentRepair(history, now);
    var status :=
      if MajorRuleFires(history, now) then MaintenanceDue
      else if repair then InRepair
      else if vehicle.mileage > HighMileage || alertIssues != [] then MaintenanceDue
      else Operational;
    var found := (if repair then [RecentRepairReason] else [])
                 + MajorReasons(major, now)
                 + MileageReasons(vehicle.mileage);
    Verdict(
      status,
      found + (if status == Operational && found == [] then [AllClearReason] else []),
      if last.Some? then last.value.completedAt else None,
      NextDue(major, now),
      alertIssues + MajorIssues(major, now))
  }

  /** What every verdict guarantees: the urgent alert messages come first
      among the urgent issues; an operational verdict has no urgent issue and
      at least one reason; `in_repair` only follows a repair under a day old;
      a vehicle without major record is always `maintenance_due`, with the
      no-history reason and issue. */
  lemma VerdictInvariants(vehicle: Vehicle, alerts: seq<Alert>, history: seq<MaintenanceRecord>, now: int)
    ensures var r := Decide(vehicle, alerts, history, now);
            var u := UrgentAlertMessages(alerts);
            |u| <= |r.urgentIssues| && r.urgentIssues[..|u|] == u
    ensures var r := Decide(vehicle, alerts, history, now);
            r.status == Operational ==> r.urgentIssues == [] && r.reasons != []
    ensures Decide(vehicle, alerts, history, now).status == InRepair ==> RecentRepair(history, now)
    ensures var r := Decide(vehicle, alerts, history, now);
            LastMajor(history).None? ==>
              r.status == MaintenanceDue && NoHistoryReason in r.reasons && NoHistoryIssue in r.urgentIssues
  {
  }

  /** `lastInspection` is the date of the latest dated record, and absent
      when no record has a date. */
  lemma LastInspectionRule(vehicle: Vehicle, alerts: seq<Alert>, history: seq<MaintenanceRecord>, now: int)
    ensures var r := Decide(vehicle, alerts, history, now);
            (r.lastInspection.None? <==> forall m :: m in history ==> m.completedAt.None?)
            && (r.lastInspection.Some? ==>
                  (exists m :: m in history && m.completedAt == r.lastInspection)
                  && forall m :: m in history && m.completedAt.Some? ==> m.completedAt.value <= r.lastInspection.value)
  {
    var last := LastRecord(history);
    DatedMembers(history);
    if last.Some? {
      assert last.value in Dated(history);
    }
  }

  /** `in_repair` and its reason come exactly from a repair finished less
      than a day ago, and `in_repair` survives only when no major-maintenance
      rule fires. */
  lemma RecentRepairRule(vehicle: Vehicle, alerts: seq<Alert>, history: seq<MaintenanceRecord>, now: int)
    ensures var r := Decide(vehicle, alerts, history, now);
            (r.status == InRepair <==> RecentRepair(history, now) && !MajorRuleFires(history, now))
            && (|r.reasons| > 0 && r.reasons[0] == RecentRepairReason <==> RecentRepair(history, now))
  {
    var r := Decide(vehicle, alerts, history, now);
    if !RecentRepair(history, now) && |r.reasons| > 0 {
      ReasonsAfterRepair(LastMajor(history), vehicle.mileage, now, r.reasons);
    }
  }

  /** Without a recent repair, the first reason is never the repair reason. */
  lemma ReasonsAfterRepair(major: Option<MaintenanceRecord>, mileage: int, now: int, reasons: seq<string>)
    requires |reasons| > 0
    requires var found := MajorReasons(major, now) + MileageReasons(mileage);
             reasons == found + (if found == [] then [AllClearReason] else [])
             || reasons == found
    ensures reasons[0] != RecentRepairReason
  {
    var found := MajorReasons(major, now) + MileageReasons(mileage);
    if MajorReasons(major, now) != [] {
      assert reasons[0] == MajorReasons(major, now)[0];
    } else if MileageReasons(mileage) != [] {
      assert reasons[0] == MileageReasons(mileage)[0];
    }
  }

  /** The interval rules of the latest major record `m`: an oil change older
      than 180 days, an inspection or a service older than 365 days each give
      `maintenance_due` with its reason; only the oil change sets the next
      due date, 180 days after it; only the inspection adds an urgent issue.
      A record without a date counts as 365 days old, which fires the oil
      change rule alone. */
  lemma IntervalRules(vehicle: Vehicle, alerts: seq<Alert>, history: seq<MaintenanceRecord>, now: int,
                      m: MaintenanceRecord)
    requires LastMajor(history) == Some(m)
    ensures var r := Decide(vehicle, alerts, history, now);
            (OilChangeDue(m, now) ==> r.status == MaintenanceDue && OilChangeReason in r.reasons)
            && (r.nextMaintenanceDue.Some? <==> OilChangeDue(m, now))
            && (r.nextMaintenanceDue.Some? ==> r.nextMaintenanceDue.value == SortKey(m) + 180 * Day)
            && (InspectionExpired(m, now) ==>
                  r.status == MaintenanceDue && InspectionReason in r.reasons && InspectionIssue in r.urgentIssues)
            && (ServiceDue(m, now) ==> r.status == MaintenanceDue && ServiceReason in r.reasons)
    ensures Decide(vehicle, alerts, history, now).urgentIssues
            == UrgentAlertMessages(alerts) + (if InspectionExpired(m, now) then [InspectionIssue] else [])
    ensures m.completedAt.None? ==>
              (OilChangeDue(m, now) <==> m.kind == Vidange) && !InspectionExpired(m, now) && !ServiceDue(m, now)
  {
    var r := Decide(vehicle, alerts, history, now);
    var prefix := (if RecentRepair(history, now) then [RecentRepairReason] else []);
    var found := prefix + MajorReasons(LastMajor(history), now) + MileageReasons(vehicle.mileage);
    assert r.reasons[..|found|] == found;
    assert MajorReasons(LastMajor(history), now) == found[|prefix|..|prefix| + |MajorReasons(LastMajor(history), now)|];
  }

  /** The mileage rules never change a status other rules made
      non-operational: the verdict's status is the status for the same
      vehicle at zero mileage, raised to `maintenance_due` when it was
      operational and the mileage is over 200000. The reason for the
      mileage band is always among the reasons. */
  lemma MileageRules(vehicle: Vehicle, alerts: seq<Alert>, history: seq<MaintenanceRecord>, now: int)
    ensures var r := Decide(vehicle, alerts, history, now);
            var base := Decide(vehicle.(mileage := 0), alerts, history, now);
            r.status == (if base.status == Operational && vehicle.mileage > HighMileage then MaintenanceDue else base.status)
    ensures var r := Decide(vehicle, alerts, history, now);
            (HighMileageReason in r.reasons <==> vehicle.mileage > HighMileage)
            && (ModerateMileageReason in r.reasons <==> ModerateMileage < vehicle.mileage <= HighMileage)
  {
    var repair := RecentRepair(history, now);
    RuleReasonsAreNotMileage(repair, LastMajor(history), now);
    var pre := (if repair then [RecentRepairReason] else []) + MajorReasons(LastMajor(history), now);
    var found := pre + MileageReasons(vehicle.mileage);
    var status := Decide(vehicle, alerts, history, now).status;
    MileageReasonsExact(pre, vehicle.mileage,
                        if status == Operational && found == [] then [AllClearReason] else []);
  }

  predicate OtherThanMileage(reason: string) {
    reason != HighMileageReason && reason != ModerateMileageReason
  }

  /** No reason of the repair, interval, no-history or all-clear rules is a
      mileage reason. */
  lemma RuleReasonsAreNotMileage(repair: bool, major: Option<MaintenanceRecord>, now: int)
    ensures forall x :: x in (if repair then [RecentRepairReason] else []) + MajorReasons(major, now)
                        ==> OtherThanMileage(x)
    ensures OtherThanMileage(AllClearReason)
  {
    assert HighMileageReason[0] == ModerateMileageReason[0] == 'K';
    assert RecentRepairReason[0] != 'K' && OilChangeReason[0] != 'K' && InspectionReason[0] != 'K';
    assert ServiceReason[0] != 'K' && NoHistoryReason[0] != 'K' && AllClearReason[0] != 'K';
  }

  /** Between reasons of other rules, the mileage reasons present are those
      of the mileage band. */
  lemma MileageReasonsExact(pre: seq<string>, mileage: int, tail: seq<string>)
    requires forall x :: x in pre ==> OtherThanMileage(x)
    requires forall x :: x in tail ==> OtherThanMileage(x)
    ensures var reasons := pre + MileageReasons(mileage) + tail;
            (HighMileageReason in reasons <==> mileage > HighMileage)
            && (ModerateMileageReason in reasons <==> ModerateMileage < mileage <= HighMileage)
  {
    assert |HighMileageReason| != |ModerateMileageReason|;
  }

  /** The rules for the latest major record: its interval rule, or the
      no-history rule when there is none (server/storage.ts lines 350-384). */
  method ApplyMajorRules(lastMajorMaintenance: Option<MaintenanceRecord>, now: int, status: Status,
                         reasons: seq<string>, urgentIssues: seq<string>)
    returns (status': Status, reasons': seq<string>, urgentIssues': seq<string>,
             nextMaintenanceDue: Option<int>)
    ensures status' == if MajorRuleFiresFor(lastMajorMaintenance, now) then MaintenanceDue else status
    ensures reasons' == reasons + MajorReasons(lastMajorMaintenance, now)
    ensures urgentIssues' == urgentIssues + MajorIssues(lastMajorMaintenance, now)
    ensures nextMaintenanceDue == NextDue(lastMajorMaintenance, now)
  {
    status', reasons', urgentIssues', nextMaintenanceDue := status, reasons, urgentIssues, None;
    if lastMajorMaintenance.Some? {
      var m := lastMajorMaintenance.value;
      var age := if m.completedAt.Some? then now - m.completedAt.value else 365 * Day;
      if m.kind == Vidange && age > 180 * Day {
        status' := MaintenanceDue;
        reasons' := reasons' + [OilChangeReason];
        nextMaintenanceDue := Some(SortKey(m) + 180 * Day);
      }
      if m.kind == ControleTechnique && age > 365 * Day {
        status' := MaintenanceDue;
        reasons' := reasons' + [InspectionReason];
        urgentIssues' := urgentIssues' + [InspectionIssue];
      }
      if m.kind == Revision && age > 365 * Day {
        status' := MaintenanceDue;
        reasons' := reasons' + [ServiceReason];
      }
    } else {
      status' := MaintenanceDue;
      reasons' := reasons' + [NoHistoryReason];
      urgentIssues' := urgentIssues' + [NoHistoryIssue];
    }
  }

  /** The mileage rules, the urgent-issue override and the "all OK" reason
      (server/storage.ts lines 386-407). */
  method ApplyMileageRules(mileage: int, status: Status, reasons: seq<string>, urgentIssues: seq<string>)
    returns (status': Status, reasons': seq<string>)
    ensures status' == if status != Operational then status
                       else if mileage > HighMileage || urgentIssues != [] then MaintenanceDue
                       else Operational
    ensures var found := reasons + MileageReasons(mileage);
            reasons' == found + (if status' == Operational && found == [] then [AllClearReason] else [])
  {
    status', reasons' := status, reasons;
    if mileage > HighMileage {
      reasons' := reasons' + [HighMileageReason];
      if status' == Operational {
        status' := MaintenanceDue;
      }
    } else if mileage > ModerateMileage {
      reasons' := reasons' + [ModerateMileageReason];
    }
    assert reasons' == reasons + MileageReasons(mileage);

    // Urgent override.
    if |urgentIssues| > 0 && status' == Operational {
      status' := MaintenanceDue;
    }

    if status' == Operational && |reasons'| == 0 {
      reasons' := reasons' + [AllClearReason];
    }
  }

  /** The recent-repair rule for the latest dated record (server/storage.ts
      lines 333-348). */
  method CheckRecentRepair(history: seq<MaintenanceRecord>, now: int)
    returns (status: Status, reasons: seq<string>, lastInspection: Option<int>)
    ensures status == if RecentRepair(history, now) then InRepair else Operational
    ensures reasons == if RecentRepair(history, now) then [RecentRepairReason] else []
    ensures lastInspection == if LastRecord(history).Some? then LastRecord(history).value.completedAt else None
  {
    status, reasons, lastInspection := Operational, [], None;
    DatedMembers(history);
    var recentMaintenance := Newest(Dated(history));
    if recentMaintenance.Some? {
      var completedAt := SortKey(recentMaintenance.value);
      lastInspection := Some(completedAt);
      if now - completedAt < Day && recentMaintenance.value.kind == Reparation {
        status := InRepair;
        reasons := reasons + [RecentRepairReason];
      }
    }
  }

  /** The rule sequence of `validateVehicleStatus`, with its mutable locals. */
  method Evaluate(vehicle: Vehicle, vehicleAlerts: seq<Alert>, history: seq<MaintenanceRecord>, now: int)
    returns (verdict: Verdict)
    ensures verdict == Decide(vehicle, vehicleAlerts, history, now)
  {
    var status: Status;
    var reasons: seq<string>;
    var urgentIssues: seq<string> := [];
    var lastInspection: Option<int>;
    var nextMaintenanceDue: Option<int> := None;

    // Unread urgent or high-priority alerts.
    var urgentAlerts := UrgentAlertMessages(vehicleAlerts);
    if |urgentAlerts| > 0 {
      urgentIssues := urgentAlerts;
    }

    // Latest dated record: a repair of less than a day means "in repair".
    status, reasons, lastInspection := CheckRecentRepair(history, now);

    // Latest major record: interval rules, or no history at all.
    var lastMajorMaintenance := Newest(MajorRecords(history));
    status, reasons, urgentIssues, nextMaintenanceDue :=
      ApplyMajorRules(lastMajorMaintenance, now, status, reasons, urgentIssues);
    assert MajorIssues(lastMajorMaintenance, now) != [] ==> MajorRuleFires(history, now);

    // Mileage, urgent override and the "all OK" reason.
    status, reasons := ApplyMileageRules(vehicle.mileage, status, reasons, urgentIssues);

    verdict := Verdict(status, reasons, lastInspection, nextMaintenanceDue, urgentIssues);
  }

  /** The verdict reads nothing of the vehicle but its mileage: in particular
      not its stored status. */
  lemma SameMileageSameVerdict(v1: Vehicle, v2: Vehicle, alerts: seq<Alert>,
                               history: seq<MaintenanceRecord>, now: int)
    requires v1.mileage == v2.mileage
    ensures Decide(v1, alerts, history, now) == Decide(v2, alerts, history, now)
  {
  }

  /** More urgent alerts never change a verdict that is already not
      operational, except for the alert messages at the head of the urgent
      issues. */
  lemma UrgentAlertsOnlyEscalate(v1: Vehicle, v2: Vehicle, a1: seq<Alert>, a2: seq<Alert>,
                                 history: seq<MaintenanceRecord>, now: int)
    requires v1.mileage == v2.mileage
    requires |UrgentAlertMessages(a1)| <= |UrgentAlertMessages(a2)|
    requires Decide(v1, a1, history, now).status != Operational
    ensures var d1 := Decide(v1, a1, history, now);
            var d2 := Decide(v2, a2, history, now);
            d2.status == d1.status
            && d2.reasons == d1.reasons
            && d2.lastInspection == d1.lastInspection
            && d2.nextMaintenanceDue == d1.nextMaintenanceDue
            && |UrgentAlertMessages(a1)| <= |d1.urgentIssues|
            && d2.urgentIssues == UrgentAlertMessages(a2) + d1.urgentIssues[|UrgentAlertMessages(a1)|..]
  {
    var d1 := Decide(v1, a1, history, now);
    var u1 := UrgentAlertMessages(a1);
    assert d1.urgentIssues == u1 + MajorIssues(LastMajor(history), now);
    assert d1.urgentIssues[|u1|..] == MajorIssues(LastMajor(history), now);
  }
}
