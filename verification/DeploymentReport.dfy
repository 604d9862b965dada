/** The deployment report of a release: one entry per device, merged from delivery rows, deploy
    rows and push offerings, and the counts shown with it. */
module DeploymentReport {
  import opened Options
  import opened Sets

  datatype DeliveryStatus = Start | Done | Error | Cancelled | Pause | Continue | Download | Deleted
  datatype DeployStatus =
    | DeployStart | DeployDone | Installing | DeployContinue | DeployPause | DeployCancelled | DeployError | Uninstall

  /** A status row; the device it carries may be missing. */
  datatype Row<S> = Row(device: Option<string>, name: Option<string>, status: S, time: Option<nat>)

  datatype Offering = Offering(deviceId: Option<string>, name: Option<string>)

  datatype Detail = Detail(
    name: Option<string>,
    delivery: Option<DeliveryStatus>,
    downloadTime: Option<nat>,
    deploy: Option<DeployStatus>,
    installTime: Option<nat>)

  datatype Report = Report(
    devices: map<string, Detail>,
    downloadedCount: nat,
    installedCount: nat,
    total: nat,
    pending: nat,
    percentage: real)

  predicate LiveDelivery(s: DeliveryStatus) {
    s != Cancelled && s != Deleted
  }

  predicate LiveDeploy(s: DeployStatus) {
    s != DeployCancelled && s != Uninstall
  }

  // ---------------------------------------------------------------------------------------
  // What the entry of a device says
  // ---------------------------------------------------------------------------------------

  predicate Live<S(!new)>(live: S -> bool, r: Row<S>, d: string) {
    r.device == Some(d) && live(r.status)
  }

  /** The device's last live row, or -1. */
  function LastLive<S(!new)>(live: S -> bool, rows: seq<Row<S>>, d: string): (t: int)
    ensures -1 <= t < |rows|
    ensures t >= 0 ==> Live(live, rows[t], d)
    ensures forall i | t < i < |rows| :: !Live(live, rows[i], d)
  {
    if rows == [] then -1
    else
      var n := |rows| - 1;
      if Live(live, rows[n], d) then n else LastLive(live, rows[..n], d)
  }

  /** The device's first live row, or -1. */
  function FirstLive<S(!new)>(live: S -> bool, rows: seq<Row<S>>, d: string): (t: int)
    ensures -1 <= t < |rows|
    ensures t >= 0 ==> Live(live, rows[t], d)
    ensures forall i | 0 <= i < (if t >= 0 then t else |rows|) :: !Live(live, rows[i], d)
  {
    if rows == [] then -1
    else
      var n := |rows| - 1;
      var t := FirstLive(live, rows[..n], d);
      if t >= 0 then t else if Live(live, rows[n], d) then n else -1
  }

  /** The first name a live row gives the device. */
  function FirstName<S(!new)>(live: S -> bool, rows: seq<Row<S>>, d: string): (name: Option<string>) {
    if rows == [] then None
    else
      var n := |rows| - 1;
      var name := FirstName(live, rows[..n], d);
      if name.Some? then name else if Live(live, rows[n], d) then rows[n].name else None
  }

  function DeliveryDetail(delivery: seq<Row<DeliveryStatus>>, d: string): Option<Detail> {
    var last, first := LastLive(LiveDelivery, delivery, d), FirstLive(LiveDelivery, delivery, d);
    if last < 0 || first < 0 then None
    else Some(Detail(delivery[first].name, Some(delivery[last].status), delivery[last].time, None, None))
  }

  /** Deploy rows add to the entry; a name already there stays. */
  function DeployDetail(delivered: Option<Detail>, deploy: seq<Row<DeployStatus>>, d: string): Option<Detail> {
    var last := LastLive(LiveDeploy, deploy, d);
    if last < 0 then delivered
    else
      var from := if delivered.Some? then delivered.value else Detail(None, None, None, None, None);
      Some(from.(name := if from.name.Some? then from.name else FirstName(LiveDeploy, deploy, d),
                 deploy := Some(deploy[last].status), installTime := deploy[last].time))
  }

  /** The first push offering for the device, or -1. */
  function FirstOffering(offerings: seq<Offering>, d: string): (t: int)
    ensures -1 <= t < |offerings|
    ensures t >= 0 ==> offerings[t].deviceId == Some(d)
    ensures forall i | 0 <= i < (if t >= 0 then t else |offerings|) :: offerings[i].deviceId != Some(d)
  {
    if offerings == [] then -1
    else
      var n := |offerings| - 1;
      var t := FirstOffering(offerings[..n], d);
      if t >= 0 then t else if offerings[n].deviceId == Some(d) then n else -1
  }

  /** An offering adds an entry only for a device without one. */
  function OfferedDetail(deployed: Option<Detail>, offerings: seq<Offering>, d: string): Option<Detail> {
    var first := FirstOffering(offerings, d);
    if deployed.Some? || first < 0 then deployed else Some(Detail(offerings[first].name, None, None, None, None))
  }

  function DetailOf(delivery: seq<Row<DeliveryStatus>>, deploy: seq<Row<DeployStatus>>, offerings: seq<Offering>,
                    d: string): Option<Detail> {
    OfferedDetail(DeployDetail(DeliveryDetail(delivery, d), deploy, d), offerings, d)
  }

  function At(devices: map<string, Detail>, d: string): Option<Detail> {
    if d in devices then Some(devices[d]) else None
  }

  /** What one more delivery row does to an entry. */
  lemma DeliveryTurn(delivery: seq<Row<DeliveryStatus>>, i: nat, d: string)
    requires i < |delivery|
    ensures var row, was := delivery[i], DeliveryDetail(delivery[..i], d);
            DeliveryDetail(delivery[..i + 1], d) ==
            if row.device != Some(d) || !LiveDelivery(row.status) then was
            else if was.None? then Some(Detail(row.name, Some(row.status), row.time, None, None))
            else Some(was.value.(delivery := Some(row.status), downloadTime := row.time))
  {
    hide LiveDelivery;
    var rows := delivery[..i + 1];
    assert rows[..i] == delivery[..i] && rows[i] == delivery[i];
    var first := FirstLive(LiveDelivery, delivery[..i], d);
    assert first >= 0 ==> FirstLive(LiveDelivery, rows, d) == first;
    assert Live(LiveDelivery, rows[i], d) ==> LastLive(LiveDelivery, rows, d) == i;
    assert !Live(LiveDelivery, rows[i], d) ==>
           LastLive(LiveDelivery, rows, d) == LastLive(LiveDelivery, delivery[..i], d);
  }

  /** What one more deploy row does to an entry. */
  lemma DeployTurn(delivered: Option<Detail>, deploy: seq<Row<DeployStatus>>, i: nat, d: string)
    requires i < |deploy|
    ensures var row, was := deploy[i], DeployDetail(delivered, deploy[..i], d);
            DeployDetail(delivered, deploy[..i + 1], d) ==
            if row.device != Some(d) || !LiveDeploy(row.status) then was
            else if was.None? then Some(Detail(row.name, None, None, Some(row.status), row.time))
            else
              Some(was.value.(name := if was.value.name.Some? then was.value.name else row.name,
                              deploy := Some(row.status), installTime := row.time))
  {
    hide LiveDeploy;
    var rows := deploy[..i + 1];
    assert rows[..i] == deploy[..i] && rows[i] == deploy[i];
    FirstNameOfLive(deploy[..i], d);
    assert Live(LiveDeploy, rows[i], d) ==> LastLive(LiveDeploy, rows, d) == i;
    assert !Live(LiveDeploy, rows[i], d) ==> LastLive(LiveDeploy, rows, d) == LastLive(LiveDeploy, deploy[..i], d);
  }

  lemma {:induction false} FirstNameOfLive(deploy: seq<Row<DeployStatus>>, d: string)
    ensures LastLive(LiveDeploy, deploy, d) < 0 ==> FirstName(LiveDeploy, deploy, d) == None
    decreases |deploy|
  {
    if deploy != [] {
      FirstNameOfLive(deploy[..|deploy| - 1], d);
    }
  }

  lemma OfferingTurn(deployed: Option<Detail>, offerings: seq<Offering>, i: nat, d: string)
    requires i < |offerings|
    ensures var o, was := offerings[i], OfferedDetail(deployed, offerings[..i], d);
            OfferedDetail(deployed, offerings[..i + 1], d) ==
            if o.deviceId == Some(d) && was.None? then Some(Detail(o.name, None, None, None, None)) else was
  {
    assert offerings[..i + 1][..i] == offerings[..i];
  }

  /** Rows that count for a device's entry: delivery rows neither cancelled nor deleted, deploy rows
      neither cancelled nor uninstalled. */
  predicate Delivering(delivery: seq<Row<DeliveryStatus>>, d: string, i: nat)
    requires i < |delivery|
  {
    delivery[i].device == Some(d) && delivery[i].status !in {Cancelled, Deleted}
  }

  predicate Deploying(deploy: seq<Row<DeployStatus>>, d: string, i: nat)
    requires i < |deploy|
  {
    deploy[i].device == Some(d) && deploy[i].status !in {DeployCancelled, Uninstall}
  }

  /** No delivery row counts for the device. */
  ghost predicate NotDelivered(delivery: seq<Row<DeliveryStatus>>, d: string) {
    forall i | 0 <= i < |delivery| :: !Delivering(delivery, d, i)
  }

  ghost predicate NotDeployed(deploy: seq<Row<DeployStatus>>, d: string) {
    forall i | 0 <= i < |deploy| :: !Deploying(deploy, d, i)
  }

  ghost predicate NotOffered(offerings: seq<Offering>, d: string) {
    forall i | 0 <= i < |offerings| :: offerings[i].deviceId != Some(d)
  }

  /** The entry of a device tells the status and the time of its last delivery and of its last deploy
      row that counts, and nothing of either where none does. There is an entry exactly if some row
      counts or there is an offering. */
  lemma EntryStatus(delivery: seq<Row<DeliveryStatus>>, deploy: seq<Row<DeployStatus>>, offerings: seq<Offering>,
                    d: string)
    ensures var entry := DetailOf(delivery, deploy, offerings, d);
            && (entry.None? <==> NotDelivered(delivery, d) && NotDeployed(deploy, d) && NotOffered(offerings, d))
            && (forall i | 0 <= i < |delivery| && Delivering(delivery, d, i)
                  && (forall j | i < j < |delivery| :: !Delivering(delivery, d, j)) ::
                  entry.Some? && entry.value.delivery == Some(delivery[i].status)
                    && entry.value.downloadTime == delivery[i].time)
            && (forall i | 0 <= i < |deploy| && Deploying(deploy, d, i)
                  && (forall j | i < j < |deploy| :: !Deploying(deploy, d, j)) ::
                  entry.Some? && entry.value.deploy == Some(deploy[i].status)
                    && entry.value.installTime == deploy[i].time)
            && (entry.Some? && NotDelivered(delivery, d) ==>
                  entry.value.delivery.None? && entry.value.downloadTime.None?)
            && (entry.Some? && NotDeployed(deploy, d) ==>
                  entry.value.deploy.None? && entry.value.installTime.None?)
  {
    forall i | 0 <= i < |delivery| ensures Live(LiveDelivery, delivery[i], d) <==> Delivering(delivery, d, i) {
    }
    forall i | 0 <= i < |deploy| ensures Live(LiveDeploy, deploy[i], d) <==> Deploying(deploy, d, i) {
    }
    hide Delivering, Deploying, LiveDelivery, LiveDeploy, Live;
  }

  /** A deploy row that counts and has a name. */
  predicate NamesDeploy(deploy: seq<Row<DeployStatus>>, d: string, i: nat)
    requires i < |deploy|
  {
    Deploying(deploy, d, i) && deploy[i].name.Some?
  }

  /** The first delivery row that counts, if any, gives the device no name. */
  ghost predicate NoDeliveryName(delivery: seq<Row<DeliveryStatus>>, d: string) {
    forall i | 0 <= i < |delivery| && Delivering(delivery, d, i) && delivery[i].name.Some? ::
      exists j | 0 <= j < i :: Delivering(delivery, d, j)
  }

  lemma LiveMeans(delivery: seq<Row<DeliveryStatus>>, deploy: seq<Row<DeployStatus>>, d: string)
    ensures forall i | 0 <= i < |delivery| :: Live(LiveDelivery, delivery[i], d) <==> Delivering(delivery, d, i)
    ensures forall i | 0 <= i < |deploy| :: Live(LiveDeploy, deploy[i], d) <==> Deploying(deploy, d, i)
  {
  }

  /** The name in an entry is that of the first delivery row that counts, if that has one. */
  lemma EntryNameDelivered(delivery: seq<Row<DeliveryStatus>>, deploy: seq<Row<DeployStatus>>,
                           offerings: seq<Offering>, d: string, i: nat)
    requires i < |delivery| && Delivering(delivery, d, i) && delivery[i].name.Some?
    requires forall j | 0 <= j < i :: !Delivering(delivery, d, j)
    ensures var entry := DetailOf(delivery, deploy, offerings, d); entry.Some? && entry.value.name == delivery[i].name
  {
    LiveMeans(delivery, deploy, d);
    hide Delivering, Deploying, LiveDelivery, LiveDeploy, Live, FirstName;
    assert FirstLive(LiveDelivery, delivery, d) == i;
  }

  /** Otherwise it is that of the first deploy row that counts and has a name. */
  lemma EntryNameDeployed(delivery: seq<Row<DeliveryStatus>>, deploy: seq<Row<DeployStatus>>,
                          offerings: seq<Offering>, d: string, i: nat)
    requires NoDeliveryName(delivery, d) && i < |deploy| && NamesDeploy(deploy, d, i)
    requires forall j | 0 <= j < i :: !NamesDeploy(deploy, d, j)
    ensures var entry := DetailOf(delivery, deploy, offerings, d); entry.Some? && entry.value.name == deploy[i].name
  {
    LiveMeans(delivery, deploy, d);
    FirstNameIs(deploy, d, i);
    hide Delivering, Deploying, LiveDelivery, LiveDeploy, Live, FirstName;
    assert LastLive(LiveDeploy, deploy, d) >= i;
  }

  /** Without any of these names an entry made by rows has no name, and one made by an offering alone has
      the name of the first. */
  lemma EntryNameElse(delivery: seq<Row<DeliveryStatus>>, deploy: seq<Row<DeployStatus>>, offerings: seq<Offering>,
                      d: string)
    requires NoDeliveryName(delivery, d) && forall i | 0 <= i < |deploy| :: !NamesDeploy(deploy, d, i)
    ensures var entry := DetailOf(delivery, deploy, offerings, d);
            && (!(NotDelivered(delivery, d) && NotDeployed(deploy, d)) ==> entry.Some? && entry.value.name.None?)
            && (NotDelivered(delivery, d) && NotDeployed(deploy, d) ==>
                  forall i | 0 <= i < |offerings| && FirstFor(offerings, d, i) ::
                    entry == Some(Detail(offerings[i].name, None, None, None, None)))
  {
    LiveMeans(delivery, deploy, d);
    NoFirstName(deploy, d);
    hide Delivering, Deploying, LiveDelivery, LiveDeploy, Live, FirstName;
  }

  ghost predicate FirstFor(offerings: seq<Offering>, d: string, i: nat)
    requires i < |offerings|
  {
    offerings[i].deviceId == Some(d) && forall j | 0 <= j < i :: offerings[j].deviceId != Some(d)
  }

  lemma {:induction false} NoFirstName(deploy: seq<Row<DeployStatus>>, d: string)
    requires forall i | 0 <= i < |deploy| :: !NamesDeploy(deploy, d, i)
    ensures FirstName(LiveDeploy, deploy, d).None?
    decreases |deploy|
  {
    if deploy != [] {
      var n := |deploy| - 1;
      assert !NamesDeploy(deploy, d, n);
      assert forall i | 0 <= i < n :: NamesDeploy(deploy[..n], d, i) == NamesDeploy(deploy, d, i);
      NoFirstName(deploy[..n], d);
    }
  }

  lemma {:induction false} FirstNameIs(deploy: seq<Row<DeployStatus>>, d: string, i: nat)
    requires i < |deploy| && NamesDeploy(deploy, d, i) && forall j | 0 <= j < i :: !NamesDeploy(deploy, d, j)
    ensures FirstName(LiveDeploy, deploy, d) == deploy[i].name
    decreases |deploy|
  {
    var n := |deploy| - 1;
    assert forall j | 0 <= j < n :: NamesDeploy(deploy[..n], d, j) == NamesDeploy(deploy, d, j);
    if i < n {
      FirstNameIs(deploy[..n], d, i);
    } else {
      NoFirstName(deploy[..n], d);
    }
  }

  // ---------------------------------------------------------------------------------------
  // Counting
  // ---------------------------------------------------------------------------------------

  /** The set behind a count: the device values, missing ones included, of rows with the status. */
  function DoneDevices<S(==)>(rows: seq<Row<S>>, done: S): set<Option<string>> {
    set r | r in rows && r.status == done :: r.device
  }

  function Unfinished(devices: map<string, Detail>): set<string> {
    set d | d in devices && devices[d].delivery != Some(Done)
  }

  function RoundHalfUp(x: real): int {
    (x + 0.5).Floor
  }

  /** Installed devices in percent, rounded to two decimals. */
  function Percentage(installed: nat, total: nat): real {
    var p := if total > 0 then 100.0 * (installed as real / total as real) else 0.0;
    RoundHalfUp(p * 100.0) as real / 100.0
  }

  /** `getDeploymentReport`, the three answers of the other services given. */
  method BuildReport(delivery: seq<Row<DeliveryStatus>>, deploy: seq<Row<DeployStatus>>, offerings: seq<Offering>)
    returns (r: Report)
    ensures forall d :: At(r.devices, d) == DetailOf(delivery, deploy, offerings, d)
    ensures r.downloadedCount == |DoneDevices(delivery, Done)|
    ensures r.installedCount == |DoneDevices(deploy, DeployDone)|
    ensures r.total == |r.devices.Keys| && r.pending == |Unfinished(r.devices)|
    ensures r.percentage == Percentage(r.installedCount, r.total)
  {
    hide DeliveryDetail, DeployDetail;
    var deviceMap := ReadDeliveries(delivery);
    deviceMap := ReadDeploys(deviceMap, deploy);
    ghost var deployed := deviceMap;
    assert forall d :: At(deployed, d) == DeployDetail(DeliveryDetail(delivery, d), deploy, d);
    for i := 0 to |offerings|
      invariant forall d :: At(deviceMap, d) == OfferedDetail(At(deployed, d), offerings[..i], d)
    {
      var o, was := offerings[i], deviceMap;
      if o.deviceId.Some? && o.deviceId.value !in deviceMap {
        deviceMap := deviceMap[o.deviceId.value := Detail(o.name, None, None, None, None)];
      }
      forall d ensures At(deviceMap, d) == OfferedDetail(At(deployed, d), offerings[..i + 1], d) {
        OfferingTurn(At(deployed, d), offerings, i, d);
        assert At(was, d) == OfferedDetail(At(deployed, d), offerings[..i], d);
      }
    }
    assert offerings[..|offerings|] == offerings;
    var downloaded := set r | r in delivery && r.status == Done :: r.device;
    var installed := set r | r in deploy && r.status == DeployDone :: r.device;
    assert downloaded == DoneDevices(delivery, Done) && installed == DoneDevices(deploy, DeployDone);
    var total := |deviceMap.Keys|;
    forall d ensures At(deviceMap, d) == DetailOf(delivery, deploy, offerings, d) {
      assert At(deployed, d) == DeployDetail(DeliveryDetail(delivery, d), deploy, d);
    }
    r := Report(deviceMap, |downloaded|, |installed|, total, |Unfinished(deviceMap)|, Percentage(|installed|, total));
  }

  method ReadDeliveries(delivery: seq<Row<DeliveryStatus>>) returns (deviceMap: map<string, Detail>)
    ensures forall d :: At(deviceMap, d) == DeliveryDetail(delivery, d)
  {
    hide LiveDelivery;
    deviceMap := map[];
    for i := 0 to |delivery|
      invariant forall d :: At(deviceMap, d) == DeliveryDetail(delivery[..i], d)
    {
      hide DeliveryDetail;
      var row, was := delivery[i], deviceMap;
      if row.device.Some? && LiveDelivery(row.status) {
        var d := row.device.value;
        if d !in deviceMap {
          deviceMap := deviceMap[d := Detail(row.name, Some(row.status), row.time, None, None)];
        } else {
          deviceMap := deviceMap[d := deviceMap[d].(delivery := Some(row.status), downloadTime := row.time)];
        }
      }
      forall d ensures At(deviceMap, d) == DeliveryDetail(delivery[..i + 1], d) {
        DeliveryTurn(delivery, i, d);
        assert At(was, d) == DeliveryDetail(delivery[..i], d);
      }
    }
    assert delivery[..|delivery|] == delivery;
  }

  method ReadDeploys(devices: map<string, Detail>, deploy: seq<Row<DeployStatus>>)
    returns (deviceMap: map<string, Detail>)
    ensures forall d :: At(deviceMap, d) == DeployDetail(At(devices, d), deploy, d)
  {
    hide LiveDeploy;
    deviceMap := devices;
    for i := 0 to |deploy|
      invariant forall d :: At(deviceMap, d) == DeployDetail(At(devices, d), deploy[..i], d)
    {
      hide DeployDetail;
      var row, was := deploy[i], deviceMap;
      if row.device.Some? && LiveDeploy(row.status) {
        var d := row.device.value;
        if d !in deviceMap {
          deviceMap := deviceMap[d := Detail(row.name, None, None, Some(row.status), row.time)];
        } else {
          var detail := deviceMap[d].(deploy := Some(row.status), installTime := row.time);
          if detail.name.None? && row.name.Some? {
            detail := detail.(name := row.name);
          }
          deviceMap := deviceMap[d := detail];
        }
      }
      forall d ensures At(deviceMap, d) == DeployDetail(At(devices, d), deploy[..i + 1], d) {
        DeployTurn(At(devices, d), deploy, i, d);
        assert At(was, d) == DeployDetail(At(devices, d), deploy[..i], d);
      }
    }
    assert deploy[..|deploy|] == deploy;
  }

  // ---------------------------------------------------------------------------------------
  // Conservation
  // ---------------------------------------------------------------------------------------

  /** The entries of a report are those the rows call for. */
  ghost predicate IsMapOf(devices: map<string, Detail>, delivery: seq<Row<DeliveryStatus>>,
                          deploy: seq<Row<DeployStatus>>, offerings: seq<Offering>) {
    forall d :: At(devices, d) == DetailOf(delivery, deploy, offerings, d)
  }

  function Somes(s: set<string>): set<Option<string>> {
    set d | d in s :: Some(d)
  }

  lemma {:induction false} SomesSize(s: set<string>)
    ensures |Somes(s)| == |s|
    decreases s
  {
    if s != {} {
      var d :| d in s;
      SomesSize(s - {d});
      assert Somes(s) == Somes(s - {d}) + {Some(d)};
    }
  }

  /** A device of a live row has an entry. */
  lemma DoneHasEntry<S(!new)>(live: S -> bool, rows: seq<Row<S>>, r: Row<S>)
    requires r in rows && live(r.status) && r.device.Some?
    ensures LastLive(live, rows, r.device.value) >= 0 && FirstLive(live, rows, r.device.value) >= 0
  {
    var i :| 0 <= i < |rows| && rows[i] == r;
    assert Live(live, rows[i], r.device.value);
  }

  /** A count over done devices exceeds the total exactly when a done row carries no device and
      every device of the report is done. */
  lemma CountWithinTotalIff(done: set<Option<string>>, keys: set<string>)
    requires forall d :: Some(d) in done ==> d in keys
    ensures |done| <= |keys| <==> None !in done || exists d :: d in keys && Some(d) !in done
  {
    SomesSize(keys);
    forall x | x in done - {None} ensures x in Somes(keys) {
      assert Some(x.value) in done;
    }
    SubsetSize(done - {None}, Somes(keys));
    assert None in done ==> |done| == |done - {None}| + 1;
    assert None !in done ==> done - {None} == done;
    if d :| d in keys && Some(d) !in done {
      assert Some(d) in Somes(keys);
    } else {
      assert done - {None} == Somes(keys);
    }
  }

  lemma DownloadedWithinTotalIff(devices: map<string, Detail>, delivery: seq<Row<DeliveryStatus>>,
                                 deploy: seq<Row<DeployStatus>>, offerings: seq<Offering>)
    requires IsMapOf(devices, delivery, deploy, offerings)
    ensures var done := DoneDevices(delivery, Done);
            |done| <= |devices.Keys| <==> None !in done || exists d :: d in devices && Some(d) !in done
  {
    var done := DoneDevices(delivery, Done);
    forall d | Some(d) in done ensures d in devices.Keys {
      var r :| r in delivery && r.status == Done && r.device == Some(d);
      DoneHasEntry(LiveDelivery, delivery, r);
      assert At(devices, d) == DetailOf(delivery, deploy, offerings, d);
    }
    CountWithinTotalIff(done, devices.Keys);
  }

  lemma InstalledWithinTotalIff(devices: map<string, Detail>, delivery: seq<Row<DeliveryStatus>>,
                                deploy: seq<Row<DeployStatus>>, offerings: seq<Offering>)
    requires IsMapOf(devices, delivery, deploy, offerings)
    ensures var done := DoneDevices(deploy, DeployDone);
            |done| <= |devices.Keys| <==> None !in done || exists d :: d in devices && Some(d) !in done
  {
    var done := DoneDevices(deploy, DeployDone);
    forall d | Some(d) in done ensures d in devices.Keys {
      var r :| r in deploy && r.status == DeployDone && r.device == Some(d);
      DoneHasEntry(LiveDeploy, deploy, r);
      assert At(devices, d) == DetailOf(delivery, deploy, offerings, d);
    }
    CountWithinTotalIff(done, devices.Keys);
  }

  /** The row has a device, and any later live row of that device with another status is itself
      followed by a done row of the device. */
  predicate Final(delivery: seq<Row<DeliveryStatus>>, i: nat)
    requires i < |delivery|
  {
    && delivery[i].device.Some?
    && forall j | i < j < |delivery| && Supersedes(delivery, i, j) ::
        exists k | j < k < |delivery| :: delivery[k].device == delivery[i].device && delivery[k].status == Done
  }

  predicate Supersedes(delivery: seq<Row<DeliveryStatus>>, i: nat, j: nat)
    requires i < |delivery| && j < |delivery|
  {
    delivery[j].device == delivery[i].device && LiveDelivery(delivery[j].status) && delivery[j].status != Done
  }

  /** Every device of the report is downloaded or pending; it is exactly one of the two, that is,
      the counts add up, exactly when each done row carries a device whose last live row is a done
      row too. */
  lemma CountsAddUpIff(devices: map<string, Detail>, delivery: seq<Row<DeliveryStatus>>,
                       deploy: seq<Row<DeployStatus>>, offerings: seq<Offering>)
    requires IsMapOf(devices, delivery, deploy, offerings)
    ensures var done, pending := DoneDevices(delivery, Done), Unfinished(devices);
            && |devices.Keys| <= |done| + |pending|
            && (|devices.Keys| == |done| + |pending| <==>
                forall i | 0 <= i < |delivery| && delivery[i].status == Done :: Final(delivery, i))
  {
    hide LastLive, FirstLive, Final;
    var done, pending := DoneDevices(delivery, Done), Unfinished(devices);
    var finished := devices.Keys - pending;
    assert devices.Keys == finished + pending;
    SomesSize(finished);
    forall d ensures d in finished <==> FinishedOn(delivery, d) {
      assert At(devices, d) == DetailOf(delivery, deploy, offerings, d);
      EntryFinished(delivery, deploy, offerings, d);
    }
    FinalIff(delivery, finished);
    SubsetSize(Somes(finished), done);
  }

  lemma EntryFinished(delivery: seq<Row<DeliveryStatus>>, deploy: seq<Row<DeployStatus>>, offerings: seq<Offering>,
                      d: string)
    ensures var detail := DetailOf(delivery, deploy, offerings, d);
            FinishedOn(delivery, d) <==> detail.Some? && detail.value.delivery == Some(Done)
  {
    var last := LastLive(LiveDelivery, delivery, d);
    if last >= 0 {
      DoneHasEntry(LiveDelivery, delivery, delivery[last]);
    }
  }

  /** The finished devices are among the done ones, and are all of them when every done row is final. */
  lemma FinalIff(delivery: seq<Row<DeliveryStatus>>, finished: set<string>)
    requires forall d :: d in finished <==> FinishedOn(delivery, d)
    ensures Somes(finished) <= DoneDevices(delivery, Done)
    ensures Somes(finished) == DoneDevices(delivery, Done) <==>
              forall i | 0 <= i < |delivery| && delivery[i].status == Done :: Final(delivery, i)
  {
    hide LastLive;
    var done := DoneDevices(delivery, Done);
    forall d | d in finished ensures Some(d) in done {
      var r := delivery[LastLive(LiveDelivery, delivery, d)];
      assert r in delivery && r.status == Done && r.device == Some(d);
    }
    if forall i | 0 <= i < |delivery| && delivery[i].status == Done :: Final(delivery, i) {
      forall x | x in done ensures x in Somes(finished) {
        var r :| r in delivery && r.status == Done && r.device == x;
        var i :| 0 <= i < |delivery| && delivery[i] == r;
        assert Final(delivery, i);
        FinalFinishes(delivery, i);
      }
    } else {
      var i :| 0 <= i < |delivery| && delivery[i].status == Done && !Final(delivery, i);
      assert delivery[i] in delivery && delivery[i].device in done;
      if delivery[i].device.Some? {
        FinalFinishes(delivery, i);
      }
    }
  }

  lemma FinalFinishes(delivery: seq<Row<DeliveryStatus>>, i: nat)
    requires i < |delivery| && delivery[i].status == Done && delivery[i].device.Some?
    ensures Final(delivery, i) <==> FinishedOn(delivery, delivery[i].device.value)
  {
    var last := LastLive(LiveDelivery, delivery, delivery[i].device.value);
    assert Live(LiveDelivery, delivery[i], delivery[i].device.value);
    assert last >= i;
    if Final(delivery, i) && delivery[last].status != Done {
      assert Supersedes(delivery, i, last);
    }
    if FinishedOn(delivery, delivery[i].device.value) {
      forall j | i < j < |delivery| && Supersedes(delivery, i, j) ensures j < last {
        assert Live(LiveDelivery, delivery[j], delivery[i].device.value);
      }
    }
  }

  predicate FinishedOn(delivery: seq<Row<DeliveryStatus>>, d: string) {
    var last := LastLive(LiveDelivery, delivery, d);
    last >= 0 && delivery[last].status == Done
  }

  /** With at most one delivery row per device, and a device on each, every done row is final. */
  lemma OneRowPerDevice(delivery: seq<Row<DeliveryStatus>>, i: nat)
    requires i < |delivery| && delivery[i].device.Some?
    requires forall j | 0 <= j < |delivery| && j != i :: delivery[j].device != delivery[i].device
    ensures Final(delivery, i)
  {
  }

  /** When every row carries a device, both counts are within the total, the total is covered by
      the downloaded and the pending devices, and the percentage is one. */
  lemma CountsConserved(devices: map<string, Detail>, delivery: seq<Row<DeliveryStatus>>,
                        deploy: seq<Row<DeployStatus>>, offerings: seq<Offering>)
    requires IsMapOf(devices, delivery, deploy, offerings)
    requires forall r | r in delivery :: r.device.Some?
    requires forall r | r in deploy :: r.device.Some?
    ensures var downloaded, installed, total := |DoneDevices(delivery, Done)|, |DoneDevices(deploy, DeployDone)|,
            |devices.Keys|;
            && downloaded <= total && installed <= total
            && total <= downloaded + |Unfinished(devices)|
            && 0.0 <= Percentage(installed, total) <= 100.0
  {
    DownloadedWithinTotalIff(devices, delivery, deploy, offerings);
    InstalledWithinTotalIff(devices, delivery, deploy, offerings);
    CountsAddUpIff(devices, delivery, deploy, offerings);
    PercentageMeaning(|DoneDevices(deploy, DeployDone)|, |devices.Keys|);
  }

  /** The percentage is within half a hundredth of the true ratio, stays in 0..100, and below
      twenty thousand devices reads 100 only when every device is installed. */
  lemma PercentageMeaning(installed: nat, total: nat)
    requires 0 < installed <= total || installed == 0
    ensures 0.0 <= Percentage(installed, total) <= 100.0
    ensures total > 0 ==> var d := Percentage(installed, total) - 100.0 * (installed as real / total as real);
            -0.005 < d <= 0.005
    ensures 0 < total < 20_000 ==> (Percentage(installed, total) == 100.0 <==> installed == total)
  {
    if total > 0 {
      var q := installed as real / total as real;
      RatioBounds(installed, total, q);
      assert RoundHalfUp(100.0 * q * 100.0) as real <= 100.0 * q * 100.0 + 0.5;
    }
  }

  lemma RatioBounds(installed: nat, total: nat, q: real)
    requires installed <= total && total > 0 && q * total as real == installed as real
    ensures 0.0 <= q <= 1.0 && (q == 1.0 <==> installed == total)
    ensures installed < total < 20_000 ==> q < 0.99995
  {
    var p, t := installed as real, total as real;
    Scaled(0.0, q, t, 0.0, p);
    Scaled(1.0, q, t, t, p);
    Scaled(0.99995, q, t, 0.99995 * t, p);
  }

  /** Comparing two numbers by their multiples. */
  lemma Scaled(a: real, b: real, t: real, at: real, bt: real)
    requires t > 0.0 && at == a * t && bt == b * t
    ensures (a < b <==> at < bt) && (a == b <==> at == bt)
  {
    if a < b {
      assert (b - a) * t > 0.0;
    } else if b < a {
      assert (a - b) * t > 0.0;
    }
  }
}
