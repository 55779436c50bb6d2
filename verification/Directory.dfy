/**
 * A directory on disk that remembers every state it has been in, so that what a crash can leave
 * behind is one of `snaps`. Operations fail for reasons of their own; `faults` counts the failures.
 */
module Directory {
  import opened Prelude

  datatype File = File(content: string, perm: nat)

  type Disk = map<string, File>

  /** From index `from` on, every state looks like base once the temporary files are set aside. */
  ghost predicate Steady(snaps: seq<Disk>, from: nat, temps: set<string>, base: Disk) {
    forall k :: from <= k < |snaps| ==> snaps[k] - temps == base
  }

  class Dir {
    var disk: Disk
    ghost var snaps: seq<Disk>
    ghost var faults: nat

    constructor (disk: Disk)
      ensures Valid() && this.disk == disk && snaps == [disk] && faults == 0
    {
      this.disk, snaps, faults := disk, [disk], 0;
    }

    ghost predicate Valid()
      reads this
    {
      snaps != [] && snaps[|snaps| - 1] == disk
    }

    /** os.CreateTemp: a new empty file whose name ends in a random suffix. */
    method CreateTemp(prefix: string, suffix: string) returns (name: Option<string>)
      requires Valid()
      modifies this
      ensures Valid()
      ensures faults == old(faults) + (if name.Some? then 0 else 1)
      ensures name.None? ==> disk == old(disk) && snaps == old(snaps)
      ensures name.Some? ==>
                && name.value == prefix + suffix && name.value !in old(disk)
                && disk == old(disk)[name.value := File("", 0x180)] && snaps == old(snaps) + [disk]
    {
      var ok: bool := *;
      if !ok || prefix + suffix in disk {
        faults := faults + 1;
        return None;
      }
      disk := disk[prefix + suffix := File("", 0x180)];
      snaps := snaps + [disk];
      name := Some(prefix + suffix);
    }

    /** Appends to an open file; a crash or an error may leave any prefix of the content behind. */
    method WriteString(name: string, content: string) returns (ok: bool)
      requires Valid() && name in disk && disk[name].content == ""
      modifies this
      ensures Valid() && name in disk && disk - {name} == old(disk) - {name}
      ensures faults == old(faults) + (if ok then 0 else 1)
      ensures ok ==> disk[name] == old(disk)[name].(content := content)
      ensures old(snaps) <= snaps && Steady(snaps, |old(snaps)|, {name}, old(disk) - {name})
    {
      var part: int := *;
      if 0 <= part <= |content| {
        disk := disk[name := disk[name].(content := content[..part])];
        snaps := snaps + [disk];
      }
      ok := *;
      if ok {
        disk := disk[name := disk[name].(content := content)];
        snaps := snaps + [disk];
      } else {
        faults := faults + 1;
      }
    }

    /** Closing a file changes nothing on disk but may report a late write error. */
    method Close() returns (ok: bool)
      requires Valid()
      modifies `faults
      ensures Valid() && faults == old(faults) + (if ok then 0 else 1)
    {
      ok := *;
      if !ok {
        faults := faults + 1;
      }
    }

    method Chmod(name: string, perm: nat) returns (ok: bool)
      requires Valid() && name in disk
      modifies this
      ensures Valid() && faults == old(faults) + (if ok then 0 else 1)
      ensures !ok ==> disk == old(disk) && snaps == old(snaps)
      ensures ok ==> disk == old(disk)[name := old(disk)[name].(perm := perm)] && snaps == old(snaps) + [disk]
    {
      ok := *;
      if ok {
        disk := disk[name := disk[name].(perm := perm)];
        snaps := snaps + [disk];
      } else {
        faults := faults + 1;
      }
    }

    /** Atomic: no state in between. */
    method Rename(from: string, to: string) returns (ok: bool)
      requires Valid() && from in disk
      modifies this
      ensures Valid() && faults == old(faults) + (if ok then 0 else 1)
      ensures !ok ==> disk == old(disk) && snaps == old(snaps)
      ensures ok ==> disk == (old(disk) - {from})[to := old(disk)[from]] && snaps == old(snaps) + [disk]
    {
      ok := *;
      if ok {
        disk := (disk - {from})[to := disk[from]];
        snaps := snaps + [disk];
      } else {
        faults := faults + 1;
      }
    }

    method Remove(name: string) returns (ok: bool)
      requires Valid()
      modifies this
      ensures Valid() && faults == old(faults) + (if ok then 0 else 1)
      ensures !ok ==> disk == old(disk) && snaps == old(snaps)
      ensures ok ==> disk == old(disk) - {name} && snaps == old(snaps) + [disk]
    {
      ok := *;
      if ok {
        disk := disk - {name};
        snaps := snaps + [disk];
      } else {
        faults := faults + 1;
      }
    }
  }
}
