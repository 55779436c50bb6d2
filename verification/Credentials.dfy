/** Persisting credentials so that a crash never leaves a half-written file, and reading them back. */
module Credentials {
  import opened Prelude
  import opened Directory

  const FILE_CA := "ca.crt"
  const FILE_CERT := "client.crt"
  const FILE_KEY := "client.key"
  const FILE_AGENT_ID := "agent_id"

  const PERM_644: nat := 0x1A4
  const PERM_600: nat := 0x180

  datatype CredFile = CredFile(name: string, content: string, perm: nat)

  datatype WriteError = NoError | StageFailed | RenameFailed(done: nat)

  /** The directory after the first m files have been put in place. */
  function Install(disk: Disk, files: seq<CredFile>, m: nat): Disk
    requires m <= |files|
  {
    if m == 0 then disk
    else Install(disk, files, m - 1)[files[m - 1].name := File(files[m - 1].content, files[m - 1].perm)]
  }

  predicate IsHidden(name: string) {
    name != "" && name[0] == '.'
  }

  ghost predicate VisibleNames(files: seq<CredFile>) {
    forall i :: 0 <= i < |files| ==> !IsHidden(files[i].name)
  }

  /** Names that did not exist before and cannot be credential names. */
  ghost predicate FreshTemps(temps: set<string>, before: Disk) {
    forall t :: t in temps ==> t !in before && IsHidden(t)
  }

  lemma {:induction false} InstallKeepsTempsOut(disk: Disk, files: seq<CredFile>, m: nat, temps: set<string>)
    requires m <= |files| && VisibleNames(files) && FreshTemps(temps, disk)
    ensures forall t :: t in temps ==> t !in Install(disk, files, m)
    ensures Install(disk, files, m) - temps == Install(disk, files, m)
  {
    if m > 0 { InstallKeepsTempsOut(disk, files, m - 1, temps); }
    assert forall t :: t in temps ==> t !in Install(disk, files, m);
  }

  // ------------------------------------------------------------------ staging

  /** Success means that no operation has failed, failure that one has. */
  predicate Succeeds(ok: bool, before: nat, after: nat) {
    before <= after && (ok <==> after == before)
  }

  /** Creates, fills and closes one temporary file; tmp is "" when not even that was created. */
  method StageOne(dir: Dir, f: CredFile, suffix: string) returns (tmp: string, ok: bool)
    requires dir.Valid()
    modifies dir
    ensures dir.Valid() && old(dir.snaps) <= dir.snaps && Succeeds(ok, old(dir.faults), dir.faults)
    ensures tmp == "" ==> !ok && dir.disk == old(dir.disk) && dir.snaps == old(dir.snaps)
    ensures tmp != "" ==>
              && IsHidden(tmp) && tmp !in old(dir.disk) && tmp in dir.disk
              && dir.disk - {tmp} == old(dir.disk)
              && Steady(dir.snaps, |old(dir.snaps)|, {tmp}, old(dir.disk))
    ensures ok ==> tmp != "" && dir.disk[tmp] == File(f.content, f.perm)
  {
    ghost var before := dir.disk;
    var name := dir.CreateTemp("." + f.name + ".tmp-", suffix);
    if name.None? {
      return "", false;
    }
    tmp := name.value;
    assert before[tmp := File("", 0x180)] - {tmp} == before;
    ok := dir.WriteString(tmp, f.content);
    var closed := dir.Close();
    ok := ok && closed;
    if ok {
      ghost var written := dir.disk;
      ok := dir.Chmod(tmp, f.perm);
      assert written[tmp := File(f.content, f.perm)] - {tmp} == written - {tmp};
    }
  }

  /** Which temporary files are still there: those named in tmps. */
  ghost predicate Owned(tmps: seq<string>, temps: set<string>, disk: Disk) {
    && (forall i :: 0 <= i < |tmps| && tmps[i] != "" ==> tmps[i] in temps)
    && (forall t :: t in temps && t in disk ==> t in tmps)
  }

  /** The first n files are staged completely under distinct names. */
  ghost predicate Staged(tmps: seq<string>, files: seq<CredFile>, disk: Disk, lo: nat, hi: nat)
    requires hi <= |tmps| == |files|
  {
    && (forall i :: lo <= i < hi ==>
          tmps[i] != "" && tmps[i] in disk && disk[tmps[i]] == File(files[i].content, files[i].perm))
    && (forall i, j :: lo <= i < j < hi ==> tmps[i] != tmps[j])
  }

  /** Removes what is left of the temporary files; clean tells whether every removal succeeded. */
  method Cleanup(dir: Dir, tmps: seq<string>, ghost temps: set<string>, ghost base: Disk) returns (clean: bool)
    requires dir.Valid() && Owned(tmps, temps, dir.disk) && dir.disk - temps == base
    requires forall t :: t in temps ==> IsHidden(t)
    modifies dir
    ensures dir.Valid() && old(dir.snaps) <= dir.snaps && Steady(dir.snaps, |old(dir.snaps)|, temps, base)
    ensures dir.disk - temps == base && Succeeds(clean, old(dir.faults), dir.faults)
    ensures clean ==> dir.disk == base
  {
    clean := true;
    for i := 0 to |tmps|
      invariant dir.Valid() && old(dir.snaps) <= dir.snaps && Steady(dir.snaps, |old(dir.snaps)|, temps, base)
      invariant dir.disk - temps == base && Succeeds(clean, old(dir.faults), dir.faults)
      invariant clean ==> forall t :: t in temps && t in dir.disk ==> t in tmps[i..]
    {
      if tmps[i] != "" {
        ghost var before := dir.disk;
        var ok := dir.Remove(tmps[i]);
        clean := clean && ok;
        assert before - {tmps[i]} - temps == before - temps;
      }
      assert tmps[i..] == [tmps[i]] + tmps[i + 1..];
    }
    if clean {
      assert forall t :: t in temps ==> t !in dir.disk;
      assert dir.disk - temps == dir.disk;
    }
  }

  lemma StagedMore(tmps: seq<string>, tmps': seq<string>, files: seq<CredFile>, disk: Disk, disk': Disk,
                   n: nat, tmp: string)
    requires n < |tmps| == |files| && Staged(tmps, files, disk, 0, n)
    requires tmp != "" && tmp !in disk && disk' - {tmp} == disk && tmp in disk'
    requires disk'[tmp] == File(files[n].content, files[n].perm)
    requires tmps' == tmps[n := tmp]
    ensures Staged(tmps', files, disk', 0, n + 1)
  {
    forall i | 0 <= i < n ensures tmps'[i] in disk' && disk'[tmps'[i]] == disk[tmps[i]] && tmps'[i] != tmp {
      assert tmps[i] in disk' - {tmp};
    }
  }

  lemma SteadyMore(snaps: seq<Disk>, snaps': seq<Disk>, from: nat, temps: set<string>, tmp: string,
                   base: Disk, mid: Disk)
    requires from <= |snaps| && snaps <= snaps' && Steady(snaps, from, temps, base)
    requires mid - temps == base && tmp !in base
    requires Steady(snaps', |snaps|, {tmp}, mid)
    ensures Steady(snaps', from, temps + {tmp}, base)
  {
    forall k | from <= k < |snaps'| ensures snaps'[k] - (temps + {tmp}) == base {
      if k < |snaps| {
        assert snaps'[k] == snaps[k];
        assert snaps[k] - (temps + {tmp}) == base - {tmp};
        assert base - {tmp} == base;
      } else {
        assert snaps'[k] - (temps + {tmp}) == snaps'[k] - {tmp} - temps;
      }
    }
  }

  /** Stages the files one after the other; temps is the set of all temporary names used. */
  method StageAll(dir: Dir, files: seq<CredFile>, suffixes: seq<string>)
    returns (tmps: seq<string>, ok: bool, ghost temps: set<string>)
    requires dir.Valid() && |suffixes| == |files|
    modifies dir
    ensures dir.Valid() && old(dir.snaps) <= dir.snaps && |tmps| == |files|
    ensures Succeeds(ok, old(dir.faults), dir.faults)
    ensures FreshTemps(temps, old(dir.disk)) && dir.disk - temps == old(dir.disk)
    ensures Steady(dir.snaps, |old(dir.snaps)|, temps, old(dir.disk))
    ensures Owned(tmps, temps, dir.disk)
    ensures ok ==> Staged(tmps, files, dir.disk, 0, |files|)
  {
    ghost var base := dir.disk;
    tmps, ok, temps := seq(|files|, _ => ""), true, {};
    assert base - {} == base;
    for i := 0 to |files|
      invariant dir.Valid() && old(dir.snaps) <= dir.snaps && |tmps| == |files|
      invariant ok && dir.faults == old(dir.faults) && Staged(tmps, files, dir.disk, 0, i)
      invariant forall j :: i <= j < |tmps| ==> tmps[j] == ""
      invariant FreshTemps(temps, base) && dir.disk - temps == base
      invariant Steady(dir.snaps, |old(dir.snaps)|, temps, base)
      invariant Owned(tmps, temps, dir.disk)
    {
      ghost var (snaps0, disk0, tmps0, temps0) := (dir.snaps, dir.disk, tmps, temps);
      var tmp;
      tmp, ok := StageOne(dir, files[i], suffixes[i]);
      if tmp != "" {
        tmps := tmps[i := tmp];
        temps := temps + {tmp};
        assert tmp !in base by { assert forall n :: n in disk0 - temps0 ==> n in disk0; }
        SteadyMore(snaps0, dir.snaps, |old(dir.snaps)|, temps0, tmp, base, disk0);
        assert dir.disk - temps == dir.disk - {tmp} - temps0;
        OwnMore(tmps0, temps0, disk0, tmps, dir.disk, i, tmp);
      }
      if !ok {
        return;
      }
      StagedMore(tmps0, tmps, files, disk0, dir.disk, i, tmp);
    }
  }

  lemma OwnMore(tmps: seq<string>, temps: set<string>, disk: Disk, tmps': seq<string>, disk': Disk, i: nat, tmp: string)
    requires i < |tmps| && tmps[i] == "" && Owned(tmps, temps, disk) && tmps' == tmps[i := tmp]
    requires disk' - {tmp} == disk && FreshTemps(temps, map[])
    ensures Owned(tmps', temps + {tmp}, disk')
  {
    forall t | t in temps + {tmp} && t in disk' ensures t in tmps' {
      if t == tmp {
        assert tmps'[i] == tmp;
      } else {
        assert t in disk' - {tmp};
        var j :| 0 <= j < |tmps| && tmps[j] == t;
        assert IsHidden(t);
        assert tmps'[j] == t;
      }
    }
  }

  // ------------------------------------------------------------------ the whole write

  /**
   * What a crash can leave behind: set the temporary files aside and every state since `from` is
   * the old directory with the first stage[..] files in place, each complete; the stage never
   * goes back.
   */
  ghost predicate CrashSafe(snaps: seq<Disk>, from: nat, before: Disk, files: seq<CredFile>,
                            temps: set<string>, stage: seq<nat>) {
    && from + |stage| == |snaps|
    && FreshTemps(temps, before)
    && (forall k :: 0 <= k < |stage| ==>
          stage[k] <= |files| && snaps[from + k] - temps == Install(before, files, stage[k]))
    && (forall j, k :: 0 <= j <= k < |stage| ==> stage[j] <= stage[k])
  }

  function Final(stage: seq<nat>): nat {
    if stage == [] then 0 else stage[|stage| - 1]
  }

  lemma SafeMore(snaps: seq<Disk>, snaps': seq<Disk>, from: nat, before: Disk, files: seq<CredFile>, temps: set<string>,
                 stage: seq<nat>, m: nat) returns (stage': seq<nat>)
    requires CrashSafe(snaps, from, before, files, temps, stage) && snaps <= snaps'
    requires Final(stage) <= m <= |files|
    requires Steady(snaps', |snaps|, temps, Install(before, files, m))
    ensures CrashSafe(snaps', from, before, files, temps, stage')
    ensures stage <= stage' && forall k :: |stage| <= k < |stage'| ==> stage'[k] == m
  {
    stage' := stage + seq(|snaps'| - |snaps|, _ => m);
    forall k | 0 <= k < |stage'|
      ensures stage'[k] <= |files| && snaps'[from + k] - temps == Install(before, files, stage'[k])
    {
      if k < |stage| { assert snaps'[from + k] == snaps[from + k]; }
    }
  }

  lemma RenamedInstalls(disk: Disk, files: seq<CredFile>, m: nat, before: Disk, temps: set<string>, tmp: string)
    requires m < |files| && VisibleNames(files) && FreshTemps(temps, before)
    requires disk - temps == Install(before, files, m) && tmp in temps && tmp in disk
    requires disk[tmp] == File(files[m].content, files[m].perm)
    ensures (disk - {tmp})[files[m].name := disk[tmp]] - temps == Install(before, files, m + 1)
  {
    assert !IsHidden(files[m].name) && files[m].name !in temps;
    var disk' := (disk - {tmp})[files[m].name := disk[tmp]];
    assert disk' - temps == (disk - temps)[files[m].name := disk[tmp]];
  }

  lemma StagedAfterRename(tmps: seq<string>, files: seq<CredFile>, disk: Disk, i: nat, temps: set<string>)
    requires i < |tmps| == |files| && Staged(tmps, files, disk, i, |files|) && Owned(tmps, temps, disk)
    requires VisibleNames(files) && forall t :: t in temps ==> IsHidden(t)
    ensures var disk' := (disk - {tmps[i]})[files[i].name := disk[tmps[i]]];
            Staged(tmps[i := ""], files, disk', i + 1, |files|) && Owned(tmps[i := ""], temps, disk')
  {
    var (disk', tmps') := ((disk - {tmps[i]})[files[i].name := disk[tmps[i]]], tmps[i := ""]);
    forall j | i < j < |files| ensures tmps'[j] != "" && tmps'[j] in disk' && disk'[tmps'[j]] == disk[tmps[j]] {
      assert IsHidden(tmps[j]);
    }
    forall t | t in temps && t in disk' ensures t in tmps' {
      var j :| 0 <= j < |tmps| && tmps[j] == t;
      assert tmps'[j] == t;
    }
  }

  /** Between two renames: the first i files are in place, the others wait under temporary names. */
  ghost predicate Midway(snaps: seq<Disk>, disk: Disk, from: nat, before: Disk, files: seq<CredFile>,
                         temps: set<string>, stage: seq<nat>, tmps: seq<string>, i: nat) {
    && i <= |files| == |tmps|
    && CrashSafe(snaps, from, before, files, temps, stage) && Final(stage) == i
    && disk - temps == Install(before, files, i)
    && Staged(tmps, files, disk, i, |files|) && Owned(tmps, temps, disk)
    && (forall j :: 0 <= j < i ==> tmps[j] == "")
  }

  /** One rename. */
  method InstallOne(dir: Dir, files: seq<CredFile>, tmps: seq<string>, i: nat,
                    ghost from: nat, ghost before: Disk, ghost temps: set<string>, ghost stage: seq<nat>)
    returns (ok: bool, ghost stage': seq<nat>)
    requires dir.Valid() && VisibleNames(files) && i < |files|
    requires Midway(dir.snaps, dir.disk, from, before, files, temps, stage, tmps, i)
    modifies dir
    ensures dir.Valid() && old(dir.snaps) <= dir.snaps && Succeeds(ok, old(dir.faults), dir.faults)
    ensures ok ==> Midway(dir.snaps, dir.disk, from, before, files, temps, stage', tmps[i := ""], i + 1)
    ensures !ok ==> Midway(dir.snaps, dir.disk, from, before, files, temps, stage', tmps, i)
  {
    ghost var snaps0 := dir.snaps;
    RenamedInstalls(dir.disk, files, i, before, temps, tmps[i]);
    StagedAfterRename(tmps, files, dir.disk, i, temps);
    ok := dir.Rename(tmps[i], files[i].name);
    stage' := stage;
    if ok {
      stage' := SafeMore(snaps0, dir.snaps, from, before, files, temps, stage, i + 1);
    }
  }

  /** Gives up after i renames. */
  method Abort(dir: Dir, files: seq<CredFile>, tmps: seq<string>, ghost i: nat,
               ghost from: nat, ghost before: Disk, ghost temps: set<string>, ghost stage: seq<nat>)
    returns (clean: bool, ghost stage': seq<nat>)
    requires dir.Valid() && i <= |files|
    requires CrashSafe(dir.snaps, from, before, files, temps, stage) && Final(stage) == i
    requires dir.disk - temps == Install(before, files, i) && Owned(tmps, temps, dir.disk)
    modifies dir
    ensures dir.Valid() && old(dir.snaps) <= dir.snaps && Succeeds(clean, old(dir.faults), dir.faults)
    ensures CrashSafe(dir.snaps, from, before, files, temps, stage') && Final(stage') == i
    ensures dir.disk - temps == Install(before, files, i)
    ensures clean ==> dir.disk == Install(before, files, i)
  {
    ghost var snaps0 := dir.snaps;
    clean := Cleanup(dir, tmps, temps, Install(before, files, i));
    stage' := SafeMore(snaps0, dir.snaps, from, before, files, temps, stage, i);
  }

  /** Renames the staged files into place one after the other, up to the first failure. */
  method InstallAll(dir: Dir, files: seq<CredFile>, staged: seq<string>,
                    ghost from: nat, ghost before: Disk, ghost temps: set<string>, ghost stage: seq<nat>)
    returns (done: nat, tmps: seq<string>, ghost stage': seq<nat>)
    requires dir.Valid() && VisibleNames(files)
    requires Midway(dir.snaps, dir.disk, from, before, files, temps, stage, staged, 0)
    modifies dir
    ensures dir.Valid() && old(dir.snaps) <= dir.snaps
    ensures Midway(dir.snaps, dir.disk, from, before, files, temps, stage', tmps, done)
    ensures Succeeds(done == |files|, old(dir.faults), dir.faults)
  {
    done, tmps, stage' := 0, staged, stage;
    var ok := true;
    while ok && done < |files|
      invariant dir.Valid() && old(dir.snaps) <= dir.snaps
      invariant Midway(dir.snaps, dir.disk, from, before, files, temps, stage', tmps, done)
      invariant Succeeds(ok, old(dir.faults), dir.faults) && (!ok ==> done < |files|)
      decreases |files| - done, ok
    {
      ok, stage' := InstallOne(dir, files, tmps, done, from, before, temps, stage');
      if ok {
        tmps, done := tmps[done := ""], done + 1;
      }
    }
  }

  /**
   * Stages every file, then renames them into place. `clean` tells whether every removal of a
   * cleanup succeeded; suffixes are the random parts of the temporary names.
   */
  method WriteCredFiles(dir: Dir, files: seq<CredFile>, suffixes: seq<string>)
    returns (err: WriteError, clean: bool, ghost temps: set<string>, ghost stage: seq<nat>)
    requires dir.Valid() && |suffixes| == |files| && VisibleNames(files)
    modifies dir
    ensures dir.Valid() && old(dir.snaps) <= dir.snaps && Succeeds(err == NoError, old(dir.faults), dir.faults)
    ensures CrashSafe(dir.snaps, |old(dir.snaps)|, old(dir.disk), files, temps, stage)
    ensures dir.disk - temps == Install(old(dir.disk), files, Final(stage))
    ensures err == NoError ==> Final(stage) == |files|
    ensures err == StageFailed ==> Final(stage) == 0
    ensures err.RenameFailed? ==> Final(stage) == err.done < |files|
    ensures clean || err == NoError ==> dir.disk == Install(old(dir.disk), files, Final(stage))
  {
    ghost var (from, before) := (|dir.snaps|, dir.disk);
    var tmps, ok;
    tmps, ok, temps := StageAll(dir, files, suffixes);
    stage := SafeMore(old(dir.snaps), dir.snaps, from, before, files, temps, [], 0);
    if !ok {
      clean, stage := Abort(dir, files, tmps, 0, from, before, temps, stage);
      return StageFailed, clean, temps, stage;
    }
    var done;
    done, tmps, stage := InstallAll(dir, files, tmps, from, before, temps, stage);
    if done < |files| {
      clean, stage := Abort(dir, files, tmps, done, from, before, temps, stage);
      return RenameFailed(done), clean, temps, stage;
    }
    NothingLeft(tmps, temps, dir.disk);
    err, clean := NoError, true;
  }

  lemma NothingLeft(tmps: seq<string>, temps: set<string>, disk: Disk)
    requires Owned(tmps, temps, disk) && forall t :: t in temps ==> IsHidden(t)
    requires forall j :: 0 <= j < |tmps| ==> tmps[j] == ""
    ensures disk - temps == disk
  {
    assert forall t :: t in temps ==> t !in disk;
  }

  // ------------------------------------------------------------------ file by file

  function Entry(disk: Disk, name: string): Option<File> {
    if name in disk then Some(disk[name]) else None
  }

  ghost predicate DistinctNames(files: seq<CredFile>) {
    forall i, j :: 0 <= i < j < |files| ==> files[i].name != files[j].name
  }

  /** In every state since `from` the file is completely the old one or completely the new one, and new once it is. */
  ghost predicate OldOrNew(snaps: seq<Disk>, from: nat, before: Disk, name: string, file: File) {
    && (forall k :: from <= k < |snaps| ==>
          Entry(snaps[k], name) == Entry(before, name) || Entry(snaps[k], name) == Some(file))
    && (forall j, k :: from <= j <= k < |snaps| && Entry(snaps[j], name) == Some(file) ==>
          Entry(snaps[k], name) == Some(file))
  }

  ghost predicate Untouched(snaps: seq<Disk>, from: nat, before: Disk, name: string) {
    forall k :: from <= k < |snaps| ==> Entry(snaps[k], name) == Entry(before, name)
  }

  lemma {:induction false} InstallEntry(disk: Disk, files: seq<CredFile>, m: nat, i: nat)
    requires DistinctNames(files) && m <= |files| && i < |files|
    ensures Entry(Install(disk, files, m), files[i].name)
         == if i < m then Some(File(files[i].content, files[i].perm)) else Entry(disk, files[i].name)
  {
    if m > 0 { InstallEntry(disk, files, m - 1, i); }
  }

  lemma {:induction false} InstallOther(disk: Disk, files: seq<CredFile>, m: nat, name: string)
    requires m <= |files| && forall i :: 0 <= i < |files| ==> files[i].name != name
    ensures Entry(Install(disk, files, m), name) == Entry(disk, name)
  {
    if m > 0 { InstallOther(disk, files, m - 1, name); }
  }

  lemma EntryBesideTemps(disk: Disk, temps: set<string>, name: string)
    requires name !in temps
    ensures Entry(disk - temps, name) == Entry(disk, name)
  {
  }

  /** Crash safety, file by file. */
  lemma CrashSafeEntry(snaps: seq<Disk>, from: nat, before: Disk, files: seq<CredFile>, temps: set<string>,
                       stage: seq<nat>, i: nat)
    requires CrashSafe(snaps, from, before, files, temps, stage)
    requires DistinctNames(files) && VisibleNames(files) && i < |files|
    ensures OldOrNew(snaps, from, before, files[i].name, File(files[i].content, files[i].perm))
  {
    var (name, file) := (files[i].name, File(files[i].content, files[i].perm));
    assert !IsHidden(name);
    forall k | from <= k < |snaps|
      ensures Entry(snaps[k], name) == if i < stage[k - from] then Some(file) else Entry(before, name)
    {
      assert snaps[from + (k - from)] - temps == Install(before, files, stage[k - from]);
      EntryBesideTemps(snaps[k], temps, name);
      InstallEntry(before, files, stage[k - from], i);
    }
    forall j, k | from <= j <= k < |snaps| && Entry(snaps[j], name) == Some(file)
      ensures Entry(snaps[k], name) == Some(file)
    {
      assert stage[j - from] <= stage[k - from];
    }
  }

  lemma CrashSafeOther(snaps: seq<Disk>, from: nat, before: Disk, files: seq<CredFile>, temps: set<string>,
                       stage: seq<nat>, name: string)
    requires CrashSafe(snaps, from, before, files, temps, stage) && !IsHidden(name)
    requires forall i :: 0 <= i < |files| ==> files[i].name != name
    ensures Untouched(snaps, from, before, name)
  {
    forall k | from <= k < |snaps| ensures Entry(snaps[k], name) == Entry(before, name) {
      assert snaps[from + (k - from)] - temps == Install(before, files, stage[k - from]);
      EntryBesideTemps(snaps[k], temps, name);
      InstallOther(before, files, stage[k - from], name);
    }
  }
}
