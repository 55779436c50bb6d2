/** Download, verification and installation of a new agent binary. */
module Updater {
  import opened Prelude

  datatype Update = Update(version: string, binaryID: nat, sha256: string, fileSize: int)

  type Bytes = seq<int>

  function Zeros(n: nat): Bytes {
    seq(n, _ => 0)
  }

  /** Writing body at the start of a file that already has some content. */
  function Overwrite(file: Bytes, body: Bytes): Bytes {
    body + (if |file| > |body| then file[|body|..] else [])
  }

  /**
   * What the network and the file system do during one Apply. preallocated tells whether the
   * best-effort truncation worked; body None stands for a failed or refused download, copied for
   * a copy that went through, removed for whether removing a file works.
   */
  datatype Env = Env(
    created: bool, preallocated: bool, body: Option<Bytes>, copied: bool,
    chmodded: bool, renamed: bool, restarted: bool, removed: bool)

  /** Restarted: the process is replaced or exits; StaleProcess: the new binary is in place but did not start. */
  datatype Outcome = Failed | StaleProcess | Restarted

  /** exe is the content of the executable file, temp what is left under the temporary name. */
  class Installer {
    var exe: Bytes
    var temp: Option<Bytes>

    constructor (exe: Bytes)
      ensures this.exe == exe && temp == None
    {
      this.exe, temp := exe, None;
    }

    /** Removes the temporary file; an error is ignored. */
    method RemoveTemp(env: Env)
      modifies `temp
      ensures temp == if env.removed then None else old(temp)
    {
      if env.removed {
        temp := None;
      }
    }

    /** On success the temporary file holds the body over the preallocated zeros; on failure it is removed. */
    method Download(u: Update, env: Env, digest: Bytes -> string) returns (sum: Option<string>)
      requires temp == None
      modifies `temp
      ensures sum.Some? <==> env.created && env.body.Some? && env.copied
      ensures sum.None? && (env.removed || !env.created) ==> temp == None
      ensures sum.Some? ==>
                && sum.value == digest(env.body.value)
                && temp == Some(OnDisk(u, env))
    {
      if !env.created {
        return None;
      }
      var file: Bytes := [];
      if u.fileSize > 0 && env.preallocated {
        file := Zeros(u.fileSize);
      }
      temp := Some(file);
      if env.body.None? {
        RemoveTemp(env);
        return None;
      }
      temp := Some(Overwrite(file, env.body.value));
      if !env.copied {
        RemoveTemp(env);
        return None;
      }
      sum := Some(digest(env.body.value));
    }

    /**
     * The executable changes only when the digest of the downloaded body is the wanted one; what
     * is installed then is the file on disk, not the body. A temporary file is left only by a
     * failed attempt whose removal did not work. digest is the digest function, normal lower-cases
     * and trims.
     */
    method Apply(u: Update, env: Env, digest: Bytes -> string, normal: string -> string) returns (r: Outcome)
      requires temp == None
      modifies this
      ensures !r.Failed? <==>
                && env.created && env.body.Some? && env.copied && env.chmodded && env.renamed
                && digest(env.body.value) == normal(u.sha256)
      ensures !r.Failed? ==> (r.Restarted? <==> env.restarted)
      ensures exe == if r.Failed? then old(exe) else OnDisk(u, env)
      ensures temp.Some? ==> r.Failed? && env.created && !env.removed
    {
      var sum := Download(u, env, digest);
      if sum.None? {
        return Failed;
      }
      if sum.value != normal(u.sha256) || !env.chmodded || !env.renamed {
        RemoveTemp(env);
        return Failed;
      }
      exe, temp := temp.value, None;
      r := if env.restarted then Restarted else StaleProcess;
    }
  }

  /** The bytes of the temporary file after the copy. */
  function OnDisk(u: Update, env: Env): Bytes
    requires env.body.Some?
  {
    Overwrite(if u.fileSize > 0 && env.preallocated then Zeros(u.fileSize) else [], env.body.value)
  }

  /**
   * The bytes installed are the bytes that were hashed if and only if the announced size does not
   * exceed the body, or the preallocation failed.
   */
  lemma InstalledIsHashedIff(u: Update, env: Env)
    requires env.body.Some?
    ensures OnDisk(u, env) == env.body.value <==> u.fileSize <= |env.body.value| || !env.preallocated
    ensures OnDisk(u, env) != env.body.value ==>
              && |OnDisk(u, env)| == u.fileSize && env.body.value <= OnDisk(u, env)
              && forall i :: |env.body.value| <= i < u.fileSize ==> OnDisk(u, env)[i] == 0
  {
    var body := env.body.value;
    if u.fileSize > |body| && env.preallocated {
      assert |OnDisk(u, env)| > |body|;
      assert Zeros(u.fileSize)[|body|..] == Zeros(u.fileSize - |body|);
    }
  }
}
