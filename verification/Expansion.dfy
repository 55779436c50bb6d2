/** How a task's targets expand into probe jobs, one for each target and address family. */
module Expansion {
  /** family is the resolver network, "" for no restriction; suffix marks the result series. */
  datatype FamProbe = FamProbe(family: string, suffix: string)

  datatype Job = Job(target: string, fp: FamProbe)

  function FamProbesFor(addressFamily: string, literal: bool): seq<FamProbe> {
    if literal then [FamProbe("", "")]
    else if addressFamily == "v4" then [FamProbe("ip4", "")]
    else if addressFamily == "v6" then [FamProbe("ip6", "")]
    else if addressFamily == "both" then [FamProbe("ip4", " (v4)"), FamProbe("ip6", " (v6)")]
    else [FamProbe("", "")]
  }

  function JobsOf(target: string, fps: seq<FamProbe>): seq<Job> {
    seq(|fps|, i requires 0 <= i < |fps| => Job(target, fps[i]))
  }

  function Expand(targets: seq<string>, addressFamily: string, literal: string -> bool): seq<Job> {
    if targets == [] then []
    else
      var n := |targets| - 1;
      Expand(targets[..n], addressFamily, literal)
      + JobsOf(targets[n], FamProbesFor(addressFamily, literal(targets[n])))
  }

  /** The job list of runJobs; `literal` says of a target whether its host part parses as an IP. */
  method ExpandJobs(targets: seq<string>, addressFamily: string, literal: string -> bool) returns (jobs: seq<Job>)
    ensures jobs == Expand(targets, addressFamily, literal)
  {
    jobs := [];
    for i := 0 to |targets|
      invariant jobs == Expand(targets[..i], addressFamily, literal)
    {
      var fps := FamProbesFor(addressFamily, literal(targets[i]));
      ghost var before := jobs;
      for j := 0 to |fps|
        invariant jobs == before + JobsOf(targets[i], fps)[..j]
      {
        jobs := jobs + [Job(targets[i], fps[j])];
      }
      assert targets[..i + 1][..i] == targets[..i];
    }
    assert targets[..|targets|] == targets;
  }

  /** Which jobs a target of the list yields: the selector only acts on domain names. */
  ghost predicate Wanted(targets: seq<string>, addressFamily: string, literal: string -> bool, job: Job) {
    && job.target in targets
    && (if literal(job.target) then job.fp == FamProbe("", "")
        else if addressFamily == "v4" then job.fp == FamProbe("ip4", "")
        else if addressFamily == "v6" then job.fp == FamProbe("ip6", "")
        else if addressFamily == "both" then
          job.fp == FamProbe("ip4", " (v4)") || job.fp == FamProbe("ip6", " (v6)")
        else job.fp == FamProbe("", ""))
  }

  ghost predicate Distinct<T>(s: seq<T>) {
    forall i, j :: 0 <= i < j < |s| ==> s[i] != s[j]
  }

  lemma DistinctConcat<T>(a: seq<T>, b: seq<T>)
    requires Distinct(a) && Distinct(b) && forall x :: x in b ==> x !in a
    ensures Distinct(a + b)
  {
    var s := a + b;
    forall i, j | 0 <= i < j < |s| ensures s[i] != s[j] {
      if i < |a| <= j { assert s[j] in b; }
    }
  }

  lemma JobsOfMembers(target: string, addressFamily: string, literal: string -> bool, job: Job)
    ensures var fps := FamProbesFor(addressFamily, literal(target));
            && (job in JobsOf(target, fps) <==> Wanted([target], addressFamily, literal, job))
            && Distinct(JobsOf(target, fps))
  {
    var fps := FamProbesFor(addressFamily, literal(target));
    var jobs := JobsOf(target, fps);
    assert jobs[0] == Job(target, fps[0]);
    if |fps| > 1 { assert jobs[1] == Job(target, fps[1]); }
  }

  /**
   * Every target of the list is expanded by exactly the jobs its family selector asks for, and
   * when no target repeats, no job does.
   */
  lemma {:induction false} ExpandMembers(targets: seq<string>, addressFamily: string, literal: string -> bool, job: Job)
    ensures job in Expand(targets, addressFamily, literal) <==> Wanted(targets, addressFamily, literal, job)
  {
    if targets != [] {
      var n := |targets| - 1;
      assert targets == targets[..n] + [targets[n]];
      ExpandMembers(targets[..n], addressFamily, literal, job);
      JobsOfMembers(targets[n], addressFamily, literal, job);
    }
  }

  lemma {:induction false} ExpandDistinct(targets: seq<string>, addressFamily: string, literal: string -> bool)
    requires Distinct(targets)
    ensures Distinct(Expand(targets, addressFamily, literal))
  {
    if targets != [] {
      var n := |targets| - 1;
      var front := Expand(targets[..n], addressFamily, literal);
      var last := JobsOf(targets[n], FamProbesFor(addressFamily, literal(targets[n])));
      ExpandDistinct(targets[..n], addressFamily, literal);
      JobsOfMembers(targets[n], addressFamily, literal, last[0]);
      forall job | job in last ensures job !in front {
        ExpandMembers(targets[..n], addressFamily, literal, job);
        assert job.target == targets[n];
        assert forall k :: 0 <= k < n ==> targets[..n][k] == targets[k];
      }
      DistinctConcat(front, last);
    }
  }

  /** One target: a literal address once as it is, a name as the family selector says, in this order. */
  lemma ExpandOne(target: string, addressFamily: string, literal: string -> bool)
    ensures Expand([target], addressFamily, literal)
         == if literal(target) then [Job(target, FamProbe("", ""))]
            else if addressFamily == "v4" then [Job(target, FamProbe("ip4", ""))]
            else if addressFamily == "v6" then [Job(target, FamProbe("ip6", ""))]
            else if addressFamily == "both" then
              [Job(target, FamProbe("ip4", " (v4)")), Job(target, FamProbe("ip6", " (v6)"))]
            else [Job(target, FamProbe("", ""))]
  {
    assert [target][..0] == [];
  }

  /** A list is expanded target by target, in its order and with its repetitions. */
  lemma {:induction false} ExpandInOrder(a: seq<string>, b: seq<string>, addressFamily: string, literal: string -> bool)
    ensures Expand(a + b, addressFamily, literal)
         == Expand(a, addressFamily, literal) + Expand(b, addressFamily, literal)
    decreases |b|
  {
    if b == [] {
      assert a + b == a;
    } else {
      var n := |b| - 1;
      assert (a + b)[..|a + b| - 1] == a + b[..n];
      ExpandInOrder(a, b[..n], addressFamily, literal);
    }
  }
}
