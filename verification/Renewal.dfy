/** Enrolment, serial certificate renewals, and dials that read the files while renewals run. */
module Renewal {
  import opened Prelude
  import opened Directory
  import opened Credentials

  // ------------------------------------------------------------------ enrolment

  datatype EnrollResponse = EnrollResponse(agentID: string, certPEM: string, keyPEM: string, caCertPEM: string)

  /** The agent id is the last file to be put in place. */
  function EnrollFiles(er: EnrollResponse): seq<CredFile> {
    [ CredFile(FILE_CA, er.caCertPEM, PERM_644),
      CredFile(FILE_CERT, er.certPEM, PERM_644),
      CredFile(FILE_KEY, er.keyPEM, PERM_600),
      CredFile(FILE_AGENT_ID, er.agentID + "\n", PERM_644) ]
  }

  /** All four credential files are present. */
  predicate HasCerts(disk: Disk): (b: bool)
    ensures b <==> {"ca.crt", "client.crt", "client.key", "agent_id"} <= disk.Keys
  {
    FILE_CA in disk && FILE_CERT in disk && FILE_KEY in disk && FILE_AGENT_ID in disk
  }

  /** All four files are complete and from this response. */
  ghost predicate EnrolledWith(disk: Disk, er: EnrollResponse) {
    && HasCerts(disk)
    && Entry(disk, "ca.crt") == Some(File(er.caCertPEM, 0x1A4))
    && Entry(disk, "client.crt") == Some(File(er.certPEM, 0x1A4))
    && Entry(disk, "client.key") == Some(File(er.keyPEM, 0x180))
    && Entry(disk, "agent_id") == Some(File(er.agentID + "\n", 0x1A4))
  }

  lemma EnrollStages(before: Disk, er: EnrollResponse, m: nat)
    requires m <= 4
    ensures FILE_AGENT_ID in Install(before, EnrollFiles(er), m) <==> m == 4 || FILE_AGENT_ID in before
    ensures m == 3 ==> var d := Install(before, EnrollFiles(er), m); FILE_CA in d && FILE_CERT in d && FILE_KEY in d
    ensures m == 4 ==> EnrolledWith(Install(before, EnrollFiles(er), m), er)
  {
    var files := EnrollFiles(er);
    assert Install(before, files, 0) == before;
    if m >= 1 { assert Install(before, files, 1) == before[FILE_CA := File(er.caCertPEM, PERM_644)]; }
    if m >= 2 {
      assert Install(before, files, 2) == Install(before, files, 1)[FILE_CERT := File(er.certPEM, PERM_644)];
    }
    if m >= 3 { assert Install(before, files, 3) == Install(before, files, 2)[FILE_KEY := File(er.keyPEM, PERM_600)]; }
  }

  /**
   * The check at startup cannot mistake an interrupted enrolment for a finished one, if and only
   * if there was no agent_id file to begin with.
   */
  lemma InterruptedEnrolmentShowsIff(before: Disk, er: EnrollResponse)
    requires !HasCerts(before)
    ensures (forall m: nat :: m < 4 ==> !HasCerts(Install(before, EnrollFiles(er), m))) <==> FILE_AGENT_ID !in before
  {
    forall m: nat | m < 4
      ensures FILE_AGENT_ID in Install(before, EnrollFiles(er), m) <==> FILE_AGENT_ID in before
    {
      EnrollStages(before, er, m);
    }
    EnrollStages(before, er, 3);
  }

  lemma CrashedEnrolment(snap: Disk, temps: set<string>, before: Disk, er: EnrollResponse, m: nat)
    requires m <= 4 && FreshTemps(temps, before) && snap - temps == Install(before, EnrollFiles(er), m)
    requires FILE_AGENT_ID !in before && HasCerts(snap)
    ensures EnrolledWith(snap, er)
  {
    EnrollStages(before, er, m);
    assert FILE_AGENT_ID !in temps && FILE_CA !in temps && FILE_CERT !in temps && FILE_KEY !in temps;
    assert FILE_AGENT_ID in snap - temps;
    var d := snap - temps;
    assert d[FILE_CA] == snap[FILE_CA] && d[FILE_CERT] == snap[FILE_CERT]
        && d[FILE_KEY] == snap[FILE_KEY] && d[FILE_AGENT_ID] == snap[FILE_AGENT_ID];
  }

  /** What an enrolment does to each file, by name and mode, at every crash point. */
  ghost predicate EnrollsFiles(snaps: seq<Disk>, from: nat, before: Disk, er: EnrollResponse) {
    && OldOrNew(snaps, from, before, "ca.crt", File(er.caCertPEM, 0x1A4))
    && OldOrNew(snaps, from, before, "client.crt", File(er.certPEM, 0x1A4))
    && OldOrNew(snaps, from, before, "client.key", File(er.keyPEM, 0x180))
    && OldOrNew(snaps, from, before, "agent_id", File(er.agentID + "\n", 0x1A4))
  }

  lemma EnrollFilesSafe(snaps: seq<Disk>, from: nat, before: Disk, er: EnrollResponse, temps: set<string>,
                        stage: seq<nat>)
    requires CrashSafe(snaps, from, before, EnrollFiles(er), temps, stage)
    ensures EnrollsFiles(snaps, from, before, er)
  {
    var files := EnrollFiles(er);
    CrashSafeEntry(snaps, from, before, files, temps, stage, 0);
    CrashSafeEntry(snaps, from, before, files, temps, stage, 1);
    CrashSafeEntry(snaps, from, before, files, temps, stage, 2);
    CrashSafeEntry(snaps, from, before, files, temps, stage, 3);
  }

  /** resp is None when no response could be decoded; pairOk is the verdict on the returned pair. */
  predicate EnrollUsable(resp: Option<EnrollResponse>, pairOk: bool) {
    && resp.Some? && pairOk
    && resp.value.agentID != "" && resp.value.certPEM != "" && resp.value.keyPEM != "" && resp.value.caCertPEM != ""
  }

  datatype EnrollError = BadResponse | NoDirectory | Write(err: WriteError)

  /**
   * An unusable response touches nothing; a usable one succeeds exactly when no file operation
   * fails. From a directory without agent_id, every state a crash can leave in which HasCerts holds
   * has all four files of this enrolment.
   */
  method Enroll(dir: Dir, resp: Option<EnrollResponse>, pairOk: bool, mkdirOk: bool, suffixes: seq<string>)
    returns (err: Option<EnrollError>, id: string)
    requires dir.Valid() && |suffixes| == 4
    modifies dir
    ensures dir.Valid() && old(dir.snaps) <= dir.snaps
    ensures err == Some(BadResponse) <==> !EnrollUsable(resp, pairOk)
    ensures err == Some(NoDirectory) <==> EnrollUsable(resp, pairOk) && !mkdirOk
    ensures resp.None? || !pairOk ==> err == Some(BadResponse)
    ensures resp.Some? && (resp.value.agentID == "" || resp.value.certPEM == "") ==> err == Some(BadResponse)
    ensures resp.Some? && (resp.value.keyPEM == "" || resp.value.caCertPEM == "") ==> err == Some(BadResponse)
    ensures !EnrollUsable(resp, pairOk) || !mkdirOk ==> dir.disk == old(dir.disk) && dir.snaps == old(dir.snaps)
    ensures EnrollUsable(resp, pairOk) && mkdirOk ==> Succeeds(err.None?, old(dir.faults), dir.faults)
    ensures err.None? ==> id == resp.value.agentID && EnrolledWith(dir.disk, resp.value)
    ensures EnrollUsable(resp, pairOk) && mkdirOk ==>
              EnrollsFiles(dir.snaps, |old(dir.snaps)|, old(dir.disk), resp.value)
    ensures FILE_AGENT_ID !in old(dir.disk) ==>
              forall k :: |old(dir.snaps)| <= k < |dir.snaps| && HasCerts(dir.snaps[k]) ==>
                EnrolledWith(dir.snaps[k], resp.value)
  {
    if resp.None? {
      return Some(BadResponse), "";
    }
    var er := resp.value;
    if er.agentID == "" || er.certPEM == "" || er.keyPEM == "" || er.caCertPEM == "" {
      return Some(BadResponse), "";
    }
    if !pairOk {
      return Some(BadResponse), "";
    }
    if !mkdirOk {
      return Some(NoDirectory), "";
    }
    ghost var before := dir.disk;
    var werr, _, temps, stage := WriteCredFiles(dir, EnrollFiles(er), suffixes);
    if FILE_AGENT_ID !in before {
      forall k | |old(dir.snaps)| <= k < |dir.snaps| && HasCerts(dir.snaps[k]) ensures EnrolledWith(dir.snaps[k], er) {
        CrashedEnrolment(dir.snaps[k], temps, before, er, stage[k - |old(dir.snaps)|]);
      }
    }
    EnrollFilesSafe(dir.snaps, |old(dir.snaps)|, before, er, temps, stage);
    if werr != NoError {
      return Some(Write(werr)), "";
    }
    EnrollStages(before, er, 4);
    err, id := None, er.agentID;
  }

  // ------------------------------------------------------------------ renewals

  /** One issued pair; caCert may be empty. */
  datatype Generation = Generation(cert: string, key: string, caCert: string)

  function RenewFiles(g: Generation): seq<CredFile> {
    [CredFile(FILE_CERT, g.cert, PERM_644), CredFile(FILE_KEY, g.key, PERM_600)]
    + (if g.caCert != "" then [CredFile(FILE_CA, g.caCert, PERM_644)] else [])
  }

  /** The certificate and key files hold those of generations c and k. */
  ghost predicate Holds(disk: Disk, gens: seq<Generation>, c: nat, k: nat) {
    && k <= c < |gens|
    && FILE_CERT in disk && disk[FILE_CERT].content == gens[c].cert
    && FILE_KEY in disk && disk[FILE_KEY].content == gens[k].key
  }

  ghost predicate Rising(s: seq<nat>) {
    forall i, j :: 0 <= i <= j < |s| ==> s[i] <= s[j]
  }

  /** certGen and keyGen say which generation each file is of, in every state since `from`; neither goes back. */
  ghost predicate Labelled(snaps: seq<Disk>, from: nat, gens: seq<Generation>, certGen: seq<nat>, keyGen: seq<nat>) {
    && from + |certGen| == |snaps| && |keyGen| == |certGen|
    && (forall i :: 0 <= i < |certGen| ==> Holds(snaps[from + i], gens, certGen[i], keyGen[i]))
    && Rising(certGen) && Rising(keyGen)
  }

  lemma RenewStages(before: Disk, gens: seq<Generation>, c: nat, k: nat, g: nat, m: nat)
    requires Holds(before, gens, c, k) && c <= g < |gens| && m <= |RenewFiles(gens[g])|
    ensures Holds(Install(before, RenewFiles(gens[g]), m), gens, if m >= 1 then g else c, if m >= 2 then g else k)
  {
    var files := RenewFiles(gens[g]);
    assert Install(before, files, 0) == before;
    if m >= 1 { assert Install(before, files, 1) == before[FILE_CERT := File(gens[g].cert, PERM_644)]; }
    if m >= 2 {
      assert Install(before, files, 2) == Install(before, files, 1)[FILE_KEY := File(gens[g].key, PERM_600)];
    }
  }

  lemma HoldsWithTemps(snap: Disk, temps: set<string>, before: Disk, gens: seq<Generation>, c: nat, k: nat)
    requires FreshTemps(temps, before) && Holds(snap - temps, gens, c, k)
    ensures Holds(snap, gens, c, k)
  {
    var d := snap - temps;
    assert FILE_CERT in d && FILE_KEY in d;
    assert d[FILE_CERT] == snap[FILE_CERT] && d[FILE_KEY] == snap[FILE_KEY];
  }

  /** The labels of a file over the states of a renewal that puts it in place at stage t. */
  function Labels(stage: seq<nat>, t: nat, low: nat, g: nat): seq<nat> {
    seq(|stage|, i requires 0 <= i < |stage| => if stage[i] >= t then g else low)
  }

  lemma LabelsRise(labels: seq<nat>, stage: seq<nat>, t: nat, g: nat)
    requires Rising(labels) && Rising(stage) && labels != [] && labels[|labels| - 1] <= g
    ensures Rising(labels + Labels(stage, t, labels[|labels| - 1], g))
  {
    var (n, more) := (|labels|, labels + Labels(stage, t, labels[|labels| - 1], g));
    forall i, j | 0 <= i <= j < |more| ensures more[i] <= more[j] {
      if i >= n { assert stage[i - n] <= stage[j - n]; }
      if i < n { assert labels[i] <= labels[n - 1]; }
    }
  }

  lemma LabelState(snap: Disk, temps: set<string>, before: Disk, gens: seq<Generation>, c: nat, k: nat, g: nat, m: nat)
    requires Holds(before, gens, c, k) && c <= g < |gens| && m <= |RenewFiles(gens[g])| && FreshTemps(temps, before)
    requires snap - temps == Install(before, RenewFiles(gens[g]), m)
    ensures Holds(snap, gens, if m >= 1 then g else c, if m >= 2 then g else k)
  {
    RenewStages(before, gens, c, k, g, m);
    HoldsWithTemps(snap, temps, before, gens, if m >= 1 then g else c, if m >= 2 then g else k);
  }

  /** Extends the labels over the states of one renewal to generation g. */
  lemma LabelRenewal(snaps: seq<Disk>, snaps': seq<Disk>, from: nat, gens: seq<Generation>,
                     certGen: seq<nat>, keyGen: seq<nat>,
                     g: nat, before: Disk, temps: set<string>, stage: seq<nat>)
    returns (certGen': seq<nat>, keyGen': seq<nat>)
    requires Labelled(snaps, from, gens, certGen, keyGen) && certGen != [] && snaps <= snaps'
    requires before == snaps[|snaps| - 1] && certGen[|certGen| - 1] <= g < |gens|
    requires CrashSafe(snaps', |snaps|, before, RenewFiles(gens[g]), temps, stage)
    ensures Labelled(snaps', from, gens, certGen', keyGen') && certGen <= certGen' && keyGen <= keyGen'
    ensures certGen' != [] && certGen'[|certGen'| - 1] == if Final(stage) >= 1 then g else certGen[|certGen| - 1]
    ensures keyGen' != [] && keyGen'[|keyGen'| - 1] == if Final(stage) >= 2 then g else keyGen[|keyGen| - 1]
  {
    var (n, c, k) := (|certGen|, certGen[|certGen| - 1], keyGen[|keyGen| - 1]);
    certGen' := certGen + Labels(stage, 1, c, g);
    keyGen' := keyGen + Labels(stage, 2, k, g);
    assert Holds(before, gens, c, k);
    LabelsRise(certGen, stage, 1, g);
    LabelsRise(keyGen, stage, 2, g);
    forall i | 0 <= i < |certGen'| ensures Holds(snaps'[from + i], gens, certGen'[i], keyGen'[i]) {
      if i < n {
        assert snaps'[from + i] == snaps[from + i];
      } else {
        assert snaps'[from + i] == snaps'[|snaps| + (i - n)];
        LabelState(snaps'[from + i], temps, before, gens, c, k, g, stage[i - n]);
      }
    }
  }

  /**
   * What a renewal does to each file, by name and mode, at every crash point: each is completely the
   * old or completely the new one, and the CA file of a response without CA stays as it is.
   */
  ghost predicate RenewsFiles(snaps: seq<Disk>, from: nat, before: Disk, g: Generation) {
    && OldOrNew(snaps, from, before, "client.crt", File(g.cert, 0x1A4))
    && OldOrNew(snaps, from, before, "client.key", File(g.key, 0x180))
    && (if g.caCert != "" then OldOrNew(snaps, from, before, "ca.crt", File(g.caCert, 0x1A4))
        else Untouched(snaps, from, before, "ca.crt"))
    && Untouched(snaps, from, before, "agent_id")
  }

  lemma RenewFilesSafe(snaps: seq<Disk>, from: nat, before: Disk, g: Generation, temps: set<string>, stage: seq<nat>)
    requires CrashSafe(snaps, from, before, RenewFiles(g), temps, stage)
    ensures RenewsFiles(snaps, from, before, g)
  {
    var files := RenewFiles(g);
    CrashSafeEntry(snaps, from, before, files, temps, stage, 0);
    CrashSafeEntry(snaps, from, before, files, temps, stage, 1);
    if g.caCert != "" {
      CrashSafeEntry(snaps, from, before, files, temps, stage, 2);
    } else {
      CrashSafeOther(snaps, from, before, files, temps, stage, "ca.crt");
    }
    CrashSafeOther(snaps, from, before, files, temps, stage, "agent_id");
  }

  lemma RenewedEntries(before: Disk, g: Generation)
    ensures var d := Install(before, RenewFiles(g), |RenewFiles(g)|);
            && Entry(d, "client.crt") == Some(File(g.cert, 0x1A4))
            && Entry(d, "client.key") == Some(File(g.key, 0x180))
            && Entry(d, "ca.crt") == (if g.caCert != "" then Some(File(g.caCert, 0x1A4)) else Entry(before, "ca.crt"))
  {
    var files := RenewFiles(g);
    InstallEntry(before, files, |files|, 0);
    InstallEntry(before, files, |files|, 1);
    if g.caCert != "" { InstallEntry(before, files, |files|, 2); } else { InstallOther(before, files, 2, "ca.crt"); }
  }

  /** A response with a pair that passes the check. */
  predicate Usable(resp: Option<Generation>, pairOk: bool) {
    resp.Some? && pairOk && resp.value.cert != "" && resp.value.key != ""
  }

  /**
   * A pair that fails the check is never written; a usable one is renewed exactly when no file
   * operation fails.
   */
  method Renew(dir: Dir, resp: Option<Generation>, pairOk: bool, suffixes: seq<string>)
    returns (renewed: bool, ghost temps: set<string>, ghost stage: seq<nat>)
    requires dir.Valid() && |suffixes| == 3
    modifies dir
    ensures dir.Valid() && old(dir.snaps) <= dir.snaps && old(dir.faults) <= dir.faults
    ensures renewed <==> Usable(resp, pairOk) && dir.faults == old(dir.faults)
    ensures resp.None? || !pairOk || resp.value.cert == "" || resp.value.key == "" ==> !renewed
    ensures !Usable(resp, pairOk) ==> dir.snaps == old(dir.snaps) && dir.faults == old(dir.faults)
    ensures Usable(resp, pairOk) ==>
              CrashSafe(dir.snaps, |old(dir.snaps)|, old(dir.disk), RenewFiles(resp.value), temps, stage)
    ensures Usable(resp, pairOk) ==> RenewsFiles(dir.snaps, |old(dir.snaps)|, old(dir.disk), resp.value)
    ensures renewed ==>
              && Final(stage) == |RenewFiles(resp.value)|
              && Entry(dir.disk, "client.crt") == Some(File(resp.value.cert, 0x1A4))
              && Entry(dir.disk, "client.key") == Some(File(resp.value.key, 0x180))
              && Entry(dir.disk, "ca.crt") == (if resp.value.caCert != "" then Some(File(resp.value.caCert, 0x1A4))
                                               else Entry(old(dir.disk), "ca.crt"))
  {
    temps, stage := {}, [];
    if resp.None? || resp.value.cert == "" || resp.value.key == "" {
      return false, temps, stage;
    }
    if !pairOk {
      return false, temps, stage;
    }
    var files := [CredFile(FILE_CERT, resp.value.cert, PERM_644), CredFile(FILE_KEY, resp.value.key, PERM_600)];
    if resp.value.caCert != "" {
      files := files + [CredFile(FILE_CA, resp.value.caCert, PERM_644)];
    }
    assert files == RenewFiles(resp.value);
    ghost var before := dir.disk;
    var err, clean;
    err, clean, temps, stage := WriteCredFiles(dir, files, suffixes[..|files|]);
    RenewFilesSafe(dir.snaps, |old(dir.snaps)|, before, resp.value, temps, stage);
    renewed := err == NoError;
    if renewed {
      RenewedEntries(before, resp.value);
    }
  }

  /** What one round of the renewal loop meets. */
  datatype Round = Round(resp: Option<Generation>, pairOk: bool, suffixes: seq<string>)

  function Gens(first: Generation, rounds: seq<Round>): seq<Generation> {
    [first] + seq(|rounds|, i requires 0 <= i < |rounds| =>
      if rounds[i].resp.Some? then rounds[i].resp.value else Generation("", "", ""))
  }

  /**
   * Round i went from state `start` to state `end` and from `before` to `after` failed file
   * operations. It renews exactly when its response is usable and no operation of it fails, and
   * then both files are of the generation it brought.
   */
  ghost predicate RoundOk(round: Round, i: nat, renewed: bool, start: nat, end: nat, before: nat, after: nat,
                          certGen: seq<nat>, keyGen: seq<nat>) {
    && start <= end < |certGen| == |keyGen| && before <= after
    && (renewed <==> Usable(round.resp, round.pairOk) && after == before)
    && (renewed ==> certGen[end] == i + 1 && keyGen[end] == i + 1)
  }

  /** What the rounds did: ends[i] is the state after i rounds, faults[i] the failed file operations by then. */
  ghost predicate Recorded(rounds: seq<Round>, done: seq<bool>, ends: seq<nat>, faults: seq<nat>,
                           certGen: seq<nat>, keyGen: seq<nat>) {
    && |done| <= |rounds| && |ends| == |done| + 1 && |faults| == |done| + 1
    && forall i :: 0 <= i < |done| ==>
         RoundOk(rounds[i], i, done[i], ends[i], ends[i + 1], faults[i], faults[i + 1], certGen, keyGen)
  }

  lemma RecordMore(rounds: seq<Round>, done: seq<bool>, ends: seq<nat>, faults: seq<nat>,
                   certGen: seq<nat>, keyGen: seq<nat>, certGen': seq<nat>, keyGen': seq<nat>,
                   renewed: bool, end: nat, fault: nat)
    requires Recorded(rounds, done, ends, faults, certGen, keyGen) && |done| < |rounds|
    requires certGen <= certGen' && keyGen <= keyGen' && |certGen'| == |keyGen'|
    requires RoundOk(rounds[|done|], |done|, renewed, ends[|done|], end, faults[|done|], fault, certGen', keyGen')
    ensures Recorded(rounds, done + [renewed], ends + [end], faults + [fault], certGen', keyGen')
  {
    var (done', ends', faults') := (done + [renewed], ends + [end], faults + [fault]);
    forall i | 0 <= i < |done'|
      ensures RoundOk(rounds[i], i, done'[i], ends'[i], ends'[i + 1], faults'[i], faults'[i + 1], certGen', keyGen')
    {
      if i < |done| {
        assert RoundOk(rounds[i], i, done[i], ends[i], ends[i + 1], faults[i], faults[i + 1], certGen, keyGen);
        assert certGen'[ends[i + 1]] == certGen[ends[i + 1]] && keyGen'[ends[i + 1]] == keyGen[ends[i + 1]];
      }
    }
  }

  /** The labels after one more round of the loop. */
  lemma LabelRound(snaps: seq<Disk>, snaps': seq<Disk>, from: nat, first: Generation, rounds: seq<Round>, i: nat,
                   certGen: seq<nat>, keyGen: seq<nat>, renewed: bool, temps: set<string>, stage: seq<nat>)
    returns (certGen': seq<nat>, keyGen': seq<nat>)
    requires i < |rounds| && Labelled(snaps, from, Gens(first, rounds), certGen, keyGen)
    requires certGen != [] && certGen[|certGen| - 1] <= i && snaps <= snaps'
    requires if Usable(rounds[i].resp, rounds[i].pairOk)
             then CrashSafe(snaps', |snaps|, snaps[|snaps| - 1], RenewFiles(rounds[i].resp.value), temps, stage)
             else snaps' == snaps && !renewed
    requires renewed ==> Final(stage) >= 2
    ensures Labelled(snaps', from, Gens(first, rounds), certGen', keyGen')
    ensures certGen' != [] && certGen'[|certGen'| - 1] <= i + 1 && certGen <= certGen' && keyGen <= keyGen'
    ensures renewed ==> certGen'[|certGen'| - 1] == i + 1 && keyGen'[|keyGen'| - 1] == i + 1
  {
    certGen', keyGen' := certGen, keyGen;
    if Usable(rounds[i].resp, rounds[i].pairOk) {
      assert Gens(first, rounds)[i + 1] == rounds[i].resp.value;
      certGen', keyGen' := LabelRenewal(snaps, snaps', from, Gens(first, rounds), certGen, keyGen, i + 1,
                                        snaps[|snaps| - 1], temps, stage);
    }
  }

  /**
   * The serial renewal loop, starting from an installed pair. Whatever fails on the way, every
   * state the directory goes through holds a certificate and a key of definite generations, both
   * only ever advancing; a round without failed operation on a usable response installs its own.
   */
  method RenewalLoop(dir: Dir, first: Generation, rounds: seq<Round>)
    returns (done: seq<bool>, ghost ends: seq<nat>, ghost faults: seq<nat>,
             ghost certGen: seq<nat>, ghost keyGen: seq<nat>)
    requires dir.Valid() && Holds(dir.disk, [first], 0, 0)
    requires forall i :: 0 <= i < |rounds| ==> |rounds[i].suffixes| == 3
    modifies dir
    ensures dir.Valid() && old(dir.snaps) <= dir.snaps
    ensures Labelled(dir.snaps, |old(dir.snaps)| - 1, Gens(first, rounds), certGen, keyGen)
    ensures |done| == |rounds| && Recorded(rounds, done, ends, faults, certGen, keyGen)
    ensures faults[0] == old(dir.faults) && faults[|rounds|] == dir.faults
  {
    ghost var (from, gens) := (|dir.snaps| - 1, Gens(first, rounds));
    certGen, keyGen := [0], [0];
    done, ends, faults := [], [0], [dir.faults];
    assert gens[0] == first;
    for i := 0 to |rounds|
      invariant dir.Valid() && old(dir.snaps) <= dir.snaps
      invariant Labelled(dir.snaps, from, gens, certGen, keyGen)
      invariant certGen != [] && certGen[|certGen| - 1] <= i
      invariant |done| == i && Recorded(rounds, done, ends, faults, certGen, keyGen) && ends[i] == |certGen| - 1
      invariant faults[0] == old(dir.faults) && faults[i] == dir.faults
    {
      ghost var (snaps0, certGen0, keyGen0) := (dir.snaps, certGen, keyGen);
      var renewed, temps, stage := Renew(dir, rounds[i].resp, rounds[i].pairOk, rounds[i].suffixes);
      certGen, keyGen := LabelRound(snaps0, dir.snaps, from, first, rounds, i, certGen, keyGen, renewed, temps, stage);
      RecordMore(rounds, done, ends, faults, certGen0, keyGen0, certGen, keyGen, renewed, |certGen| - 1, dir.faults);
      done, ends, faults := done + [renewed], ends + [|certGen| - 1], faults + [dir.faults];
    }
  }

  // ------------------------------------------------------------------ dials

  /** Each certificate matches only its own key. */
  ghost predicate OwnKeyOnly(gens: seq<Generation>, matches: (string, string) -> bool) {
    forall a, b :: 0 <= a < |gens| && 0 <= b < |gens| && matches(gens[a].cert, gens[b].key) ==>
      gens[a].key == gens[b].key
  }

  /** Generation g was installed completely at some state up to index i. */
  ghost predicate FullBy(certGen: seq<nat>, keyGen: seq<nat>, i: nat, g: nat) {
    exists j :: 0 <= j <= i && j < |certGen| && j < |keyGen| && certGen[j] == g && keyGen[j] == g
  }

  /**
   * A dial begins at state i, reads the certificate at a later state c and the key at a later
   * state k. When the pair check passes, both are of one generation, and that generation is no
   * older than any installed completely before the dial began.
   */
  lemma DialHoldsOneGeneration(snaps: seq<Disk>, from: nat, gens: seq<Generation>, certGen: seq<nat>, keyGen: seq<nat>,
                               matches: (string, string) -> bool, i: nat, c: nat, k: nat, cert: string, key: string)
    requires Labelled(snaps, from, gens, certGen, keyGen) && OwnKeyOnly(gens, matches)
    requires i <= c <= k < |certGen|
    requires "client.crt" in snaps[from + c] && snaps[from + c]["client.crt"].content == cert
    requires "client.key" in snaps[from + k] && snaps[from + k]["client.key"].content == key
    requires matches(cert, key)
    ensures var g := certGen[c];
            && cert == gens[g].cert && key == gens[g].key
            && forall h: nat :: FullBy(certGen, keyGen, i, h) ==> h <= g
  {
    assert Holds(snaps[from + c], gens, certGen[c], keyGen[c]);
    assert Holds(snaps[from + k], gens, certGen[k], keyGen[k]);
  }

  /**
   * A dial that begins after a round has renewed, and passes the pair check, holds the generation
   * of that round or a later one.
   */
  lemma DialAfterRenewal(snaps: seq<Disk>, from: nat, gens: seq<Generation>, certGen: seq<nat>, keyGen: seq<nat>,
                         matches: (string, string) -> bool, i: nat, c: nat, k: nat, cert: string, key: string,
                         rounds: seq<Round>, done: seq<bool>, ends: seq<nat>, faults: seq<nat>, r: nat)
    requires Labelled(snaps, from, gens, certGen, keyGen) && OwnKeyOnly(gens, matches)
    requires Recorded(rounds, done, ends, faults, certGen, keyGen)
    requires r < |done| && done[r] && ends[r + 1] <= i <= c <= k < |certGen|
    requires "client.crt" in snaps[from + c] && snaps[from + c]["client.crt"].content == cert
    requires "client.key" in snaps[from + k] && snaps[from + k]["client.key"].content == key
    requires matches(cert, key)
    ensures var g := certGen[c]; r + 1 <= g && cert == gens[g].cert && key == gens[g].key
  {
    assert FullBy(certGen, keyGen, i, r + 1) by {
      assert RoundOk(rounds[r], r, done[r], ends[r], ends[r + 1], faults[r], faults[r + 1], certGen, keyGen);
    }
    DialHoldsOneGeneration(snaps, from, gens, certGen, keyGen, matches, i, c, k, cert, key);
  }
}
