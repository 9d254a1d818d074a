/** The device registry: one table of devices and a separate map to each user's current one. */
module Devices {
  import opened Common

  const MAX_DEVICES_PER_USER := 16

  datatype Device = Device(deviceId: string, userId: string, name: string, isCurrent: bool, isPrimary: bool)

  type Table = map<string, Device>

  datatype Registry = Registry(devices: Table, current: map<string, string>)

  function OwnedBy(devices: Table, user: string): set<string> {
    set id | id in devices && devices[id].userId == user
  }

  // ----- The operations -----

  function ClearedRow(d: Device, user: string): Device {
    if d.userId == user then d.(isCurrent := false) else d
  }

  function Cleared(devices: Table, user: string): Table {
    map id | id in devices :: ClearedRow(devices[id], user)
  }

  function PrimaryRow(d: Device, owner: string, deviceId: string): Device {
    if d.userId == owner then d.(isPrimary := d.deviceId == deviceId) else d
  }

  function WithPrimary(devices: Table, owner: string, deviceId: string): Table {
    map id | id in devices :: PrimaryRow(devices[id], owner, deviceId)
  }

  /** `newId` is the freshly generated id; `valid` the verdict of the request validation. */
  datatype Op =
    | Register(user: string, name: string, valid: bool, newId: string)
    | Revoke(user: string, deviceId: string)
    | SetPrimary(user: string, deviceId: string)

  predicate Accepts(r: Registry, op: Op) {
    match op
    case Register(u, name, valid, newId) =>
      valid && newId !in r.devices && |OwnedBy(r.devices, u)| < MAX_DEVICES_PER_USER
    case Revoke(u, id) => id in r.devices && r.devices[id].userId == u && !r.devices[id].isCurrent
    case SetPrimary(u, id) => id in r.devices && r.devices[id].userId == u
  }

  /** A refused operation changes nothing. */
  function Apply(r: Registry, op: Op): Registry {
    if !Accepts(r, op) then r else
    match op
    case Register(u, name, _, newId) =>
      Registry(Cleared(r.devices, u)[newId := Device(newId, u, name, true, false)], r.current[u := newId])
    case Revoke(_, id) => r.(devices := r.devices - {id})
    case SetPrimary(u, id) => r.(devices := WithPrimary(r.devices, u, id))
  }

  // ----- What every operation keeps -----

  ghost predicate FiledById(devices: Table) {
    forall id :: id in devices ==> devices[id].deviceId == id
  }

  ghost predicate WithinCap(devices: Table) {
    forall user :: |OwnedBy(devices, user)| <= MAX_DEVICES_PER_USER
  }

  ghost predicate OnePrimary(devices: Table) {
    forall a, b :: (a in devices && b in devices && devices[a].userId == devices[b].userId
                    && devices[a].isPrimary && devices[b].isPrimary) ==> a == b
  }

  /** The current-device map names exactly the device flagged current, one for each user with devices. */
  ghost predicate CurrentMapAgrees(r: Registry) {
    && (forall user :: user in r.current ==>
          r.current[user] in r.devices && r.devices[r.current[user]].userId == user)
    && (forall id :: id in r.devices ==>
          r.devices[id].userId in r.current
          && (r.devices[id].isCurrent <==> r.current[r.devices[id].userId] == id))
  }

  ghost predicate Valid(r: Registry) {
    FiledById(r.devices) && WithinCap(r.devices) && OnePrimary(r.devices) && CurrentMapAgrees(r)
  }

  /** An operation adds at most one device, and only to its own user. */
  lemma OwnedAfter(r: Registry, op: Op, u: string)
    ensures var before, after := OwnedBy(r.devices, u), OwnedBy(Apply(r, op).devices, u);
            if op.Register? && Accepts(r, op) && u == op.user then after == before + {op.newId} else after <= before
  {}

  lemma KeepsCap(r: Registry, op: Op)
    requires WithinCap(r.devices)
    ensures WithinCap(Apply(r, op).devices)
  {
    var after := Apply(r, op).devices;
    forall u ensures |OwnedBy(after, u)| <= MAX_DEVICES_PER_USER {
      OwnedAfter(r, op, u);
      if !(op.Register? && Accepts(r, op) && u == op.user) {
        SubsetSize(OwnedBy(after, u), OwnedBy(r.devices, u));
      }
    }
  }

  lemma KeepsFlags(r: Registry, op: Op)
    requires FiledById(r.devices) && OnePrimary(r.devices)
    ensures FiledById(Apply(r, op).devices) && OnePrimary(Apply(r, op).devices)
  {}

  lemma KeepsCurrentMap(r: Registry, op: Op)
    requires FiledById(r.devices) && CurrentMapAgrees(r)
    ensures CurrentMapAgrees(Apply(r, op))
  {}

  /** Nobody's operation changes anybody else's devices or current device. */
  lemma OthersUnchanged(r: Registry, op: Op, other: string)
    requires other != op.user
    ensures OwnedBy(Apply(r, op).devices, other) == OwnedBy(r.devices, other)
    ensures forall id :: id in OwnedBy(r.devices, other) ==> Apply(r, op).devices[id] == r.devices[id]
    ensures other in Apply(r, op).current <==> other in r.current
    ensures other in r.current ==> Apply(r, op).current[other] == r.current[other]
  {}

  /** What each operation asks of the registry. */
  lemma AcceptedIff(r: Registry, op: Op)
    ensures Accepts(r, op)
            <==> match op
                 case Register(u, _, valid, newId) => valid && newId !in r.devices && |OwnedBy(r.devices, u)| < 16
                 case Revoke(u, id) => id in OwnedBy(r.devices, u) && !r.devices[id].isCurrent
                 case SetPrimary(u, id) => id in OwnedBy(r.devices, u)
    ensures !Accepts(r, op) ==> Apply(r, op) == r
  {}

  /** What an accepted operation achieves for its own user. */
  lemma AcceptedTakesEffect(r: Registry, op: Op)
    requires Accepts(r, op) && FiledById(r.devices)
    ensures var before, after := r.devices, Apply(r, op).devices;
            match op
            case Register(u, name, _, newId) =>
              && after.Keys == before.Keys + {newId} && after[newId] == Device(newId, u, name, true, false)
              && newId !in before && Apply(r, op).current == r.current[u := newId]
              && forall id :: id in before ==>
                   after[id] == before[id].(isCurrent := before[id].isCurrent && before[id].userId != u)
            case Revoke(_, id) =>
              && after.Keys == before.Keys - {id} && Apply(r, op).current == r.current
              && forall d :: d in after ==> after[d] == before[d]
            case SetPrimary(u, id) =>
              && after.Keys == before.Keys && Apply(r, op).current == r.current
              && forall d :: d in before ==>
                   after[d] == if before[d].userId == u then before[d].(isPrimary := d == id) else before[d]
  {}

  function Run(ops: seq<Op>): Registry {
    if ops == [] then Registry(map[], map[]) else Apply(Run(ops[..|ops| - 1]), ops[|ops| - 1])
  }

  /** Over every run: at most 16 devices and one primary per user, and the two maps agree. */
  lemma {:induction false} RunIsValid(ops: seq<Op>)
    ensures Valid(Run(ops))
  {
    if ops != [] {
      var r, op := Run(ops[..|ops| - 1]), ops[|ops| - 1];
      RunIsValid(ops[..|ops| - 1]);
      KeepsCap(r, op);
      KeepsFlags(r, op);
      KeepsCurrentMap(r, op);
    } else {
      assert forall u :: OwnedBy(Run(ops).devices, u) == {};
    }
  }

  /** After every run, a user with any device has exactly one current device: the one the map names. */
  lemma ExactlyOneCurrent(ops: seq<Op>, user: string)
    ensures var r := Run(ops);
            && (user in r.current <==> OwnedBy(r.devices, user) != {})
            && forall id :: id in OwnedBy(r.devices, user) ==>
                 (r.devices[id].isCurrent <==> user in r.current && r.current[user] == id)
  {
    RunIsValid(ops);
    var r := Run(ops);
    if user in r.current {
      assert r.current[user] in OwnedBy(r.devices, user);
    }
    if id :| id in OwnedBy(r.devices, user) {
      assert r.devices[id].userId in r.current;
    }
  }

  // ----- The service -----

  class DeviceService {
    var devices: Table
    var currentDeviceId: map<string, string>

    function Contents(): Registry
      reads this
    {
      Registry(devices, currentDeviceId)
    }

    constructor ()
      ensures Contents() == Run([])
    {
      devices, currentDeviceId := map[], map[];
    }

    /** `register_device`: clear the user's current flags, insert, update the map. */
    method RegisterDevice(user: string, name: string, valid: bool, newId: string) returns (ok: bool)
      requires newId !in devices
      modifies this
      ensures ok <==> valid && |OwnedBy(old(devices), user)| < 16
      ensures Contents() == Apply(old(Contents()), Register(user, name, valid, newId))
    {
      if !valid { return false; }
      if |OwnedBy(devices, user)| >= MAX_DEVICES_PER_USER { return false; }
      var todo := devices.Keys;
      while todo != {}
        invariant todo <= old(devices).Keys && devices.Keys == old(devices).Keys
        invariant currentDeviceId == old(currentDeviceId)
        invariant forall id :: id in devices ==>
                    devices[id] == if id in todo then old(devices)[id] else ClearedRow(old(devices)[id], user)
        decreases todo
      {
        var id :| id in todo;
        if devices[id].userId == user {
          devices := devices[id := devices[id].(isCurrent := false)];
        }
        todo := todo - {id};
      }
      assert devices == Cleared(old(devices), user);
      devices := devices[newId := Device(newId, user, name, true, false)];
      currentDeviceId := currentDeviceId[user := newId];
      return true;
    }

    /** `revoke_device`: only a peer device of the caller, never the current one. */
    method RevokeDevice(user: string, deviceId: string) returns (ok: bool)
      modifies this`devices
      ensures ok <==> deviceId in old(devices) && old(devices)[deviceId].userId == user
                      && !old(devices)[deviceId].isCurrent
      ensures Contents() == Apply(old(Contents()), Revoke(user, deviceId))
    {
      if deviceId !in devices { return false; }
      if devices[deviceId].userId != user { return false; }
      if devices[deviceId].isCurrent { return false; }
      devices := devices - {deviceId};
      return true;
    }

    /** `set_primary`: set the flag on one of the user's devices and clear it on the others. */
    method SetPrimary(user: string, deviceId: string) returns (ok: bool)
      modifies this`devices
      ensures ok <==> deviceId in old(devices) && old(devices)[deviceId].userId == user
      ensures Contents() == Apply(old(Contents()), Op.SetPrimary(user, deviceId))
    {
      if deviceId !in devices { return false; }
      if devices[deviceId].userId != user { return false; }
      var todo := devices.Keys;
      while todo != {}
        invariant todo <= old(devices).Keys && devices.Keys == old(devices).Keys
        invariant forall id :: id in devices ==>
                    devices[id] == if id in todo then old(devices)[id] else PrimaryRow(old(devices)[id], user, deviceId)
        decreases todo
      {
        var id :| id in todo;
        if devices[id].userId == user {
          devices := devices[id := devices[id].(isPrimary := devices[id].deviceId == deviceId)];
        }
        todo := todo - {id};
      }
      assert devices == WithPrimary(old(devices), user, deviceId);
      return true;
    }
  }

}
