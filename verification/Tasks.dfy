/** The task payload of the server and the comparison that decides whether a runner must restart. */
module Tasks {
  import opened Prelude

  datatype SNMPParams = SNMPParams(
    deviceID: nat, version: string, community: string, port: int,
    timeoutSeconds: int, retries: int, inventoryEveryN: int,
    v3User: string, v3AuthProto: string, v3AuthPass: string,
    v3PrivProto: string, v3PrivPass: string,
    extraOIDs: seq<string>, collectIfaces: bool)

  datatype Task = Task(
    taskID: int, kind: string, intervalSeconds: int, targets: seq<string>,
    snmp: Option<SNMPParams>, skipTLSVerify: bool, addressFamily: string)

  /** The probe parameters of the two tasks differ somewhere; the TaskID does not matter. */
  predicate Differs(a: Task, b: Task) {
    a.(taskID := b.taskID) != b
  }

  /** Field-by-field comparison of two optional SNMP blocks; a Go nil is None. */
  predicate SNMPParamsChanged(a: Option<SNMPParams>, b: Option<SNMPParams>)
    ensures SNMPParamsChanged(a, b) <==> a != b
  {
    if a.None? != b.None? then true
    else if a.None? then false
    else
      var (x, y) := (a.value, b.value);
      || x.deviceID != y.deviceID
      || x.version != y.version
      || x.community != y.community
      || x.port != y.port
      || x.timeoutSeconds != y.timeoutSeconds
      || x.retries != y.retries
      || x.inventoryEveryN != y.inventoryEveryN
      || x.v3User != y.v3User
      || x.v3AuthProto != y.v3AuthProto
      || x.v3AuthPass != y.v3AuthPass
      || x.v3PrivProto != y.v3PrivProto
      || x.v3PrivPass != y.v3PrivPass
      || x.collectIfaces != y.collectIfaces
      || x.extraOIDs != y.extraOIDs
  }

  method TaskChanged(before: Task, cur: Task) returns (changed: bool)
    ensures changed <==> Differs(before, cur)
  {
    if before.intervalSeconds != cur.intervalSeconds || before.kind != cur.kind {
      return true;
    }
    if before.skipTLSVerify != cur.skipTLSVerify {
      return true;
    }
    if before.addressFamily != cur.addressFamily {
      return true;
    }
    if |before.targets| != |cur.targets| {
      return true;
    }
    for i := 0 to |before.targets|
      invariant forall j :: 0 <= j < i ==> before.targets[j] == cur.targets[j]
    {
      if before.targets[i] != cur.targets[i] {
        return true;
      }
    }
    if SNMPParamsChanged(before.snmp, cur.snmp) {
      return true;
    }
    assert before.targets == cur.targets;
    return false;
  }
}
