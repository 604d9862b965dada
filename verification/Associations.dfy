/** Which devices a config map reaches: the forward cascade that refreshes them and the backward
    lookup that each device's own refresh performs. */
module Associations {
  import opened Options
  import opened ConfigDb

  /** What the device service knows: the type ids of every device, ancestors included. Its two
      queries are inverse to each other. */
  type Hierarchy = map<string, set<nat>>

  function TypesOf(h: Hierarchy, deviceId: string): set<nat> {
    if deviceId in h then h[deviceId] else {}
  }

  function DevicesOf(h: Hierarchy, typeIds: set<nat>): set<string> {
    set d | d in h && h[d] * typeIds != {}
  }

  // ---------------------------------------------------------------------------------------
  // The forward cascade
  // ---------------------------------------------------------------------------------------

  predicate InCascade(a: Assoc, mapId: nat) {
    a.mapId == mapId && a.configId.None?
  }

  /** A device id counts when it is set and not empty. */
  predicate NamesDevice(a: Assoc) {
    a.deviceId.Some? && a.deviceId.value != ""
  }

  function DirectDevices(assocs: seq<Assoc>, mapId: nat): set<string> {
    set a | a in assocs && InCascade(a, mapId) && NamesDevice(a) :: a.deviceId.value
  }

  function CascadeTypes(assocs: seq<Assoc>, mapId: nat): set<nat> {
    set a | a in assocs && InCascade(a, mapId) && a.typeId.Some? :: a.typeId.value
  }

  function CascadeSet(assocs: seq<Assoc>, h: Hierarchy, mapId: nat): set<string> {
    DirectDevices(assocs, mapId) + DevicesOf(h, CascadeTypes(assocs, mapId))
  }

  /** The device set `cascadeConfigMapRevisionToDevices` refreshes. */
  method CollectCascade(assocs: seq<Assoc>, h: Hierarchy, mapId: nat) returns (deviceIds: set<string>)
    ensures deviceIds == CascadeSet(assocs, h, mapId)
  {
    deviceIds := {};
    var typeIds: set<nat> := {};
    for i := 0 to |assocs|
      invariant deviceIds == DirectDevices(assocs[..i], mapId)
      invariant typeIds == CascadeTypes(assocs[..i], mapId)
    {
      assert assocs[..i + 1] == assocs[..i] + [assocs[i]];
      if InCascade(assocs[i], mapId) {
        if NamesDevice(assocs[i]) {
          deviceIds := deviceIds + {assocs[i].deviceId.value};
        }
        if assocs[i].typeId.Some? {
          typeIds := typeIds + {assocs[i].typeId.value};
        }
      }
    }
    assert assocs[..|assocs|] == assocs;
    if typeIds != {} {
      deviceIds := deviceIds + DevicesOf(h, typeIds);
    }
  }

  // ---------------------------------------------------------------------------------------
  // Cascade and lookup are inverse
  // ---------------------------------------------------------------------------------------

  lemma {:induction false} MapIdsHas(assocs: seq<Assoc>, deviceId: string, typeIds: set<nat>, mapId: nat)
    ensures mapId in MapIds(assocs, deviceId, typeIds) <==>
              exists a :: a in assocs && a.mapId == mapId && Applies(a, deviceId, typeIds)
    decreases |assocs|
  {
    if assocs != [] {
      var n := |assocs| - 1;
      assert assocs == assocs[..n] + [assocs[n]];
      MapIdsHas(assocs[..n], deviceId, typeIds, mapId);
    }
  }

  /** A row the API creates: no direct link to a config project, and no empty device id. */
  predicate Plain(a: Assoc) {
    a.configId.None? && a.deviceId != Some("")
  }

  predicate Targeted(a: Assoc) {
    a.typeId.Some? || a.deviceId.Some?
  }

  lemma CascadeIsLookup(assocs: seq<Assoc>, h: Hierarchy, mapId: nat, deviceId: string)
    requires forall a | a in assocs && a.mapId == mapId :: Plain(a) && Targeted(a)
    ensures deviceId in CascadeSet(assocs, h, mapId) <==> mapId in MapIds(assocs, deviceId, TypesOf(h, deviceId))
  {
    MapIdsHas(assocs, deviceId, TypesOf(h, deviceId), mapId);
    if deviceId in CascadeSet(assocs, h, mapId) {
      if deviceId in DirectDevices(assocs, mapId) {
        var a :| a in assocs && InCascade(a, mapId) && NamesDevice(a) && a.deviceId.value == deviceId;
        assert Applies(a, deviceId, TypesOf(h, deviceId));
      } else {
        var t :| t in h[deviceId] * CascadeTypes(assocs, mapId);
        var a :| a in assocs && InCascade(a, mapId) && a.typeId.Some? && a.typeId.value == t;
        assert Applies(a, deviceId, TypesOf(h, deviceId));
      }
    }
    if a :| a in assocs && a.mapId == mapId && Applies(a, deviceId, TypesOf(h, deviceId)) {
      assert Plain(a) && Targeted(a);
      if a.deviceId == Some(deviceId) {
        assert deviceId in DirectDevices(assocs, mapId);
      } else {
        assert a.typeId.value in h[deviceId] * CascadeTypes(assocs, mapId);
      }
    }
  }

  /** A device id no row names. */
  function Unnamed(assocs: seq<Assoc>): (d: string)
    ensures d != "" && forall a | a in assocs && a.deviceId.Some? :: |a.deviceId.value| < |d|
  {
    if assocs == [] then "d"
    else
      var d := Unnamed(assocs[1..]);
      assert assocs == [assocs[0]] + assocs[1..];
      if assocs[0].deviceId.Some? && |assocs[0].deviceId.value| >= |d| then assocs[0].deviceId.value + "d" else d
  }

  /** Cascade and lookup agree for every device and hierarchy exactly when every row of the map
      names a device type or a device: a row with neither applies to all devices on lookup, and
      the cascade reaches none of them. */
  lemma CascadeIsLookupIff(assocs: seq<Assoc>, mapId: nat)
    requires forall a | a in assocs && a.mapId == mapId :: Plain(a)
    ensures (forall h: Hierarchy, d ::
              d in CascadeSet(assocs, h, mapId) <==> mapId in MapIds(assocs, d, TypesOf(h, d)))
            <==> (forall a | a in assocs && a.mapId == mapId :: Targeted(a))
  {
    if forall a | a in assocs && a.mapId == mapId :: Targeted(a) {
      forall h: Hierarchy, d
        ensures d in CascadeSet(assocs, h, mapId) <==> mapId in MapIds(assocs, d, TypesOf(h, d))
      {
        CascadeIsLookup(assocs, h, mapId, d);
      }
    } else {
      var a :| a in assocs && a.mapId == mapId && !Targeted(a);
      var d, h: Hierarchy := Unnamed(assocs), map[];
      assert Applies(a, d, {});
      MapIdsHas(assocs, d, {}, mapId);
      assert d !in CascadeSet(assocs, h, mapId) && mapId in MapIds(assocs, d, TypesOf(h, d));
    }
  }

  // ---------------------------------------------------------------------------------------
  // Operations on the association table
  // ---------------------------------------------------------------------------------------

  predicate HasType(assocs: seq<Assoc>, mapId: nat, typeId: nat) {
    exists a :: a in assocs && a.mapId == mapId && a.typeId == Some(typeId)
  }

  predicate HasDevice(assocs: seq<Assoc>, mapId: nat, deviceId: string) {
    exists a :: a in assocs && a.mapId == mapId && a.deviceId == Some(deviceId)
  }

  function TypeAdded(assocs: seq<Assoc>, mapId: nat, typeId: Option<nat>): seq<Assoc> {
    if typeId.None? || HasType(assocs, mapId, typeId.value) then assocs
    else assocs + [Assoc(mapId, typeId, None, None)]
  }

  /** The rows after the device loop, and the devices that were new. */
  function DevicesAdded(assocs: seq<Assoc>, mapId: nat, deviceIds: seq<string>): (seq<Assoc>, seq<string>) {
    if deviceIds == [] then (assocs, [])
    else
      var n := |deviceIds| - 1;
      var (rows, added) := DevicesAdded(assocs, mapId, deviceIds[..n]);
      if HasDevice(rows, mapId, deviceIds[n]) then (rows, added)
      else (rows + [Assoc(mapId, None, Some(deviceIds[n]), None)], added + [deviceIds[n]])
  }

  function NewTypes(assocs: seq<Assoc>, mapId: nat, typeId: Option<nat>): set<nat> {
    if typeId.None? || HasType(assocs, mapId, typeId.value) then {} else {typeId.value}
  }

  /** `addConfigMapAssociation`: the rows afterwards. Without any target the call is refused. */
  function Added(assocs: seq<Assoc>, mapId: nat, typeId: Option<nat>, deviceIds: seq<string>): seq<Assoc> {
    DevicesAdded(TypeAdded(assocs, mapId, typeId), mapId, deviceIds).0
  }

  /** The devices `cascadeConfigMapToSpecificDevices` then refreshes. */
  function SpecificDevices(assocs: seq<Assoc>, h: Hierarchy, mapId: nat, typeId: Option<nat>,
                           deviceIds: seq<string>): set<string> {
    (set d | d in DevicesAdded(TypeAdded(assocs, mapId, typeId), mapId, deviceIds).1)
    + DevicesOf(h, NewTypes(assocs, mapId, typeId))
  }

  /** Deleting a device type sets the column null in its rows. */
  function TypeDeleted(assocs: seq<Assoc>, typeId: nat): seq<Assoc> {
    seq(|assocs|, i requires 0 <= i < |assocs| => if assocs[i].typeId == Some(typeId) then assocs[i].(typeId := None)
                                                  else assocs[i])
  }

  /** Deleting a device deletes its rows. */
  function DeviceDeleted(assocs: seq<Assoc>, deviceId: string): seq<Assoc> {
    if assocs == [] then []
    else
      var n := |assocs| - 1;
      DeviceDeleted(assocs[..n], deviceId) + (if assocs[n].deviceId == Some(deviceId) then [] else [assocs[n]])
  }

  class AssociationTable {
    var assocs: seq<Assoc>

    constructor ()
      ensures assocs == []
    {
      assocs := [];
    }

    /** `addConfigMapAssociation`. */
    method Add(mapId: nat, typeId: Option<nat>, deviceIds: seq<string>)
      returns (ok: bool, newTypes: set<nat>, newDevices: seq<string>)
      modifies this
      ensures ok == (typeId.Some? || deviceIds != [])
      ensures assocs == Added(old(assocs), mapId, typeId, deviceIds)
      ensures newTypes == NewTypes(old(assocs), mapId, typeId)
      ensures newDevices == DevicesAdded(TypeAdded(old(assocs), mapId, typeId), mapId, deviceIds).1
    {
      newTypes, newDevices := {}, [];
      if typeId.None? && deviceIds == [] {
        return false, {}, [];
      }
      ok := true;
      if typeId.Some? && !HasType(assocs, mapId, typeId.value) {
        assocs := assocs + [Assoc(mapId, typeId, None, None)];
        newTypes := {typeId.value};
      }
      ghost var was := assocs;
      for i := 0 to |deviceIds|
        invariant (assocs, newDevices) == DevicesAdded(was, mapId, deviceIds[..i])
      {
        assert deviceIds[..i + 1][..i] == deviceIds[..i];
        if !HasDevice(assocs, mapId, deviceIds[i]) {
          assocs := assocs + [Assoc(mapId, None, Some(deviceIds[i]), None)];
          newDevices := newDevices + [deviceIds[i]];
        }
      }
      assert deviceIds[..|deviceIds|] == deviceIds;
    }

    /** `removeConfigMapAssociation`. */
    method Remove(i: nat) returns (ok: bool)
      modifies this
      ensures ok == (i < |old(assocs)|)
      ensures assocs == if ok then old(assocs)[..i] + old(assocs)[i + 1..] else old(assocs)
    {
      ok := i < |assocs|;
      if ok {
        assocs := assocs[..i] + assocs[i + 1..];
      }
    }
  }

  // ---------------------------------------------------------------------------------------
  // What the operations keep
  // ---------------------------------------------------------------------------------------

  lemma TypeAddedReaches(assocs: seq<Assoc>, h: Hierarchy, mapId: nat, typeId: Option<nat>)
    ensures var rows := TypeAdded(assocs, mapId, typeId);
            && DirectDevices(rows, mapId) == DirectDevices(assocs, mapId)
            && CascadeTypes(rows, mapId) == CascadeTypes(assocs, mapId) + NewTypes(assocs, mapId, typeId)
  {
    var rows := TypeAdded(assocs, mapId, typeId);
    if rows != assocs {
      assert rows[|assocs|] in rows && InCascade(rows[|assocs|], mapId);
      assert forall a | a in rows && NamesDevice(a) :: a in assocs;
    }
  }

  lemma {:induction false} DevicesAddedReach(assocs: seq<Assoc>, mapId: nat, deviceIds: seq<string>)
    ensures var (rows, added) := DevicesAdded(assocs, mapId, deviceIds);
            && DirectDevices(rows, mapId) == DirectDevices(assocs, mapId) + (set d | d in added && d != "")
            && CascadeTypes(rows, mapId) == CascadeTypes(assocs, mapId)
    decreases |deviceIds|
  {
    if deviceIds != [] {
      var n := |deviceIds| - 1;
      DevicesAddedReach(assocs, mapId, deviceIds[..n]);
      var (rows, added) := DevicesAdded(assocs, mapId, deviceIds[..n]);
      if !HasDevice(rows, mapId, deviceIds[n]) {
        var a := Assoc(mapId, None, Some(deviceIds[n]), None);
        OneMore(rows, mapId, a);
        assert (set d | d in added + [deviceIds[n]] && d != "") ==
               (set d | d in added && d != "") + (if deviceIds[n] == "" then {} else {deviceIds[n]});
      }
    }
  }

  lemma OneMore(rows: seq<Assoc>, mapId: nat, a: Assoc)
    requires InCascade(a, mapId) && a.typeId.None? && a.deviceId.Some?
    ensures DirectDevices(rows + [a], mapId) == DirectDevices(rows, mapId) + if NamesDevice(a) then {a.deviceId.value}
                                                                             else {}
    ensures CascadeTypes(rows + [a], mapId) == CascadeTypes(rows, mapId)
  {
    assert forall x :: x in rows + [a] <==> x in rows || x == a;
  }

  /** Refreshing only the newly associated devices misses nobody: the devices a map reaches after
      an addition are those it reached before and the ones refreshed, the empty id aside. */
  lemma AddReachesAllNew(assocs: seq<Assoc>, h: Hierarchy, mapId: nat, typeId: Option<nat>, deviceIds: seq<string>)
    ensures CascadeSet(Added(assocs, mapId, typeId, deviceIds), h, mapId) + {""} ==
            CascadeSet(assocs, h, mapId) + SpecificDevices(assocs, h, mapId, typeId, deviceIds) + {""}
  {
    hide TypeAdded, DevicesAdded, NewTypes, DirectDevices, CascadeTypes;
    var rows := TypeAdded(assocs, mapId, typeId);
    var (after, added) := DevicesAdded(rows, mapId, deviceIds);
    TypeAddedReaches(assocs, h, mapId, typeId);
    DevicesAddedReach(rows, mapId, deviceIds);
    var more := NewTypes(assocs, mapId, typeId);
    assert DevicesOf(h, CascadeTypes(assocs, mapId) + more) == DevicesOf(h, CascadeTypes(assocs, mapId))
           + DevicesOf(h, more) by {
      forall d | d in h ensures h[d] * (CascadeTypes(assocs, mapId) + more) == h[d] * CascadeTypes(assocs, mapId)
        + h[d] * more {
      }
    }
    assert (set d | d in added) + {""} == (set d | d in added && d != "") + {""};
  }

  /** What an addition leaves in the table: the rows it had, and below them one row for each target that
      had none, so that every target asked for has a row. */
  lemma AddedRows(assocs: seq<Assoc>, mapId: nat, typeId: Option<nat>, deviceIds: seq<string>)
    ensures var rows := Added(assocs, mapId, typeId, deviceIds);
            && assocs <= rows
            && (forall i | |assocs| <= i < |rows| :: NewTarget(assocs, mapId, typeId, deviceIds, rows[i]))
            && (forall i, j | |assocs| <= i < j < |rows| :: rows[i] != rows[j])
            && (typeId.Some? ==> HasType(rows, mapId, typeId.value))
            && (forall d | d in deviceIds :: HasDevice(rows, mapId, d))
  {
    hide DevicesAdded;
    DevicesAddedRows(TypeAdded(assocs, mapId, typeId), mapId, deviceIds);
    var rows, start := Added(assocs, mapId, typeId, deviceIds), TypeAdded(assocs, mapId, typeId);
    forall i | |assocs| <= i < |rows| ensures NewTarget(assocs, mapId, typeId, deviceIds, rows[i]) {
      if i >= |start| {
        assert NewTarget(start, mapId, None, deviceIds, rows[i]);
      }
    }
    if typeId.Some? {
      assert HasType(start, mapId, typeId.value) by {
        assert start != assocs ==> start[|assocs|] in start;
      }
      assert forall a | a in start :: a in rows;
    }
  }

  /** A row of the map for one of the targets, which had none. */
  ghost predicate NewTarget(assocs: seq<Assoc>, mapId: nat, typeId: Option<nat>, deviceIds: seq<string>, a: Assoc) {
    || (typeId.Some? && a == Assoc(mapId, typeId, None, None) && !HasType(assocs, mapId, typeId.value))
    || (a.deviceId.Some? && a == Assoc(mapId, None, a.deviceId, None) && a.deviceId.value in deviceIds
        && !HasDevice(assocs, mapId, a.deviceId.value))
  }

  lemma {:induction false} DevicesAddedRows(assocs: seq<Assoc>, mapId: nat, deviceIds: seq<string>)
    ensures var rows := DevicesAdded(assocs, mapId, deviceIds).0;
            && assocs <= rows
            && (forall i | |assocs| <= i < |rows| :: NewTarget(assocs, mapId, None, deviceIds, rows[i]))
            && (forall i, j | |assocs| <= i < j < |rows| :: rows[i] != rows[j])
            && (forall d | d in deviceIds :: HasDevice(rows, mapId, d))
    decreases |deviceIds|
  {
    if deviceIds != [] {
      var n := |deviceIds| - 1;
      var front, last, all := deviceIds[..n], deviceIds[n], DevicesAdded(assocs, mapId, deviceIds[..n]).0;
      DevicesAddedRows(assocs, mapId, front);
      assert deviceIds == front + [last];
      var rows := DevicesAdded(assocs, mapId, deviceIds).0;
      assert rows == all || (rows == all + [Assoc(mapId, None, Some(last), None)] && rows[|all|] in rows);
      assert forall a | a in all :: a in rows;
      assert forall a | a in assocs :: a in all;
    }
  }

  datatype TableStep =
    | AddStep(mapId: nat, typeId: Option<nat>, deviceIds: seq<string>)
    | RemoveStep(index: nat)
    | DeviceDeletion(deviceId: string)
    | TypeDeletion(deletedType: nat)

  function NextTable(assocs: seq<Assoc>, step: TableStep): seq<Assoc> {
    match step
    case AddStep(m, t, ds) => Added(assocs, m, t, ds)
    case RemoveStep(i) => if i < |assocs| then assocs[..i] + assocs[i + 1..] else assocs
    case DeviceDeletion(d) => DeviceDeleted(assocs, d)
    case TypeDeletion(t) => TypeDeleted(assocs, t)
  }

  /** The rows are as the API creates them. */
  ghost predicate Sound(assocs: seq<Assoc>) {
    forall a | a in assocs :: Plain(a) && Targeted(a) && (a.typeId.None? || a.deviceId.None?)
  }

  lemma {:induction false} DevicesAddedSound(assocs: seq<Assoc>, mapId: nat, deviceIds: seq<string>)
    requires Sound(assocs) && "" !in deviceIds
    ensures Sound(DevicesAdded(assocs, mapId, deviceIds).0)
    decreases |deviceIds|
  {
    if deviceIds != [] {
      DevicesAddedSound(assocs, mapId, deviceIds[..|deviceIds| - 1]);
    }
  }

  lemma {:induction false} DeviceDeletedHas(assocs: seq<Assoc>, deviceId: string, a: Assoc)
    ensures a in DeviceDeleted(assocs, deviceId) <==> a in assocs && a.deviceId != Some(deviceId)
    decreases |assocs|
  {
    if assocs != [] {
      var n := |assocs| - 1;
      assert assocs == assocs[..n] + [assocs[n]];
      DeviceDeletedHas(assocs[..n], deviceId, a);
    }
  }

  /** Every operation but one keeps the rows sound; deleting a device type does exactly when no
      row names that type. Otherwise its rows become rows for all devices. */
  lemma StepKeepsSoundIff(assocs: seq<Assoc>, step: TableStep)
    requires Sound(assocs) && (step.AddStep? ==> "" !in step.deviceIds)
    ensures Sound(NextTable(assocs, step)) <==>
              !(step.TypeDeletion? && exists a :: a in assocs && a.typeId == Some(step.deletedType))
  {
    match step
    case AddStep(m, t, ds) => DevicesAddedSound(TypeAdded(assocs, m, t), m, ds);
    case RemoveStep(i) =>
    case DeviceDeletion(d) =>
      forall a | a in DeviceDeleted(assocs, d) ensures a in assocs { DeviceDeletedHas(assocs, d, a); }
    case TypeDeletion(t) =>
      var rows := TypeDeleted(assocs, t);
      if a :| a in assocs && a.typeId == Some(t) {
        var i :| 0 <= i < |assocs| && assocs[i] == a;
        assert rows[i] in rows && !Targeted(rows[i]);
      } else {
        assert rows == assocs;
      }
  }

  function AfterTable(assocs: seq<Assoc>, steps: seq<TableStep>): seq<Assoc>
    decreases |steps|
  {
    if steps == [] then assocs else AfterTable(NextTable(assocs, steps[0]), steps[1..])
  }

  /** No step deletes a device type that is still associated. */
  ghost predicate KeepsTypes(assocs: seq<Assoc>, steps: seq<TableStep>)
    decreases |steps|
  {
    steps == [] ||
    ( && (steps[0].AddStep? ==> "" !in steps[0].deviceIds)
      && !(steps[0].TypeDeletion? && exists a :: a in assocs && a.typeId == Some(steps[0].deletedType))
      && KeepsTypes(NextTable(assocs, steps[0]), steps[1..]))
  }

  /** Over every run from an empty table in which no associated device type is deleted, a device
      is in the cascade set of a map exactly when the map is among those the device reads. */
  lemma {:induction false} RunsStayInverse(assocs: seq<Assoc>, steps: seq<TableStep>, h: Hierarchy, mapId: nat,
                                           deviceId: string)
    requires Sound(assocs) && KeepsTypes(assocs, steps)
    ensures var rows := AfterTable(assocs, steps);
            deviceId in CascadeSet(rows, h, mapId) <==> mapId in MapIds(rows, deviceId, TypesOf(h, deviceId))
    decreases |steps|
  {
    if steps == [] {
      CascadeIsLookup(assocs, h, mapId, deviceId);
    } else {
      StepKeepsSoundIff(assocs, steps[0]);
      RunsStayInverse(NextTable(assocs, steps[0]), steps[1..], h, mapId, deviceId);
    }
  }
}
